/** PrefixTree (sources/misc/prefixtree/prefixtree.h): the trie of Tries kept in a FileStorage, with its root
    node cached in memory.  A node that the source passes by reference is a NodeRef object here. */
module PrefixTrees {
  import opened Bytes
  import opened Disk
  import opened DiskOps
  import opened FileStores
  import opened NodeCodec
  import opened Options
  import opened Tries
  import opened TrieSearch
  import opened FirstEdges

  datatype NodeType = RootNode | Normal | Invalid

  datatype Node = Node(address: nat, key: ByteSeq, kind: NodeType, data: ByteSeq, children: map<Byte, nat>)

  const INVALID := Node(0, [], Invalid, [], map[])

  function BodyOf(n: Node): Body {
    Body(n.key, n.data, n.children)
  }

  class NodeRef {
    var n: Node

    constructor (n: Node)
      ensures this.n == n
    {
      this.n := n;
    }
  }

  /** The node at address `a` as a value read from the storage. */
  ghost function NodeAt(nodes: Nodes, a: nat): Node {
    if a in nodes then Node(a, nodes[a].key, Normal, nodes[a].data, nodes[a].children) else INVALID
  }

  ghost predicate StoredAs(seqs: map<nat, Stored>, a: nat, b: Body) {
    a in seqs && seqs[a].Fits() && seqs[a].Data() == Encode(b)
  }

  /** Sequence `a` holds the bytes `e`, not too many for 32-bit sizes. */
  ghost predicate Readable(seqs: map<nat, Stored>, a: nat, e: ByteSeq, B: nat) {
    a in seqs && seqs[a].Fits() && seqs[a].Data() == e && |e| + B <= UINT_LIMIT
  }

  /** The nodes as they are stored: the stored root has the data `kept`, which may differ from the cached root's. */
  ghost function OnDisk(nodes: Nodes, kept: ByteSeq): Nodes {
    if ROOT in nodes then nodes[ROOT := nodes[ROOT].(data := kept)] else nodes
  }

  /** Every node is one sequence of the storage, and every sequence is one node. */
  ghost predicate Stores(seqs: map<nat, Stored>, nodes: Nodes) {
    seqs.Keys == nodes.Keys && forall a :: a in nodes ==> StoredAs(seqs, a, nodes[a])
  }

  /** The stored form of a node with this key and data has a size that fits in 32 bits. */
  ghost predicate Fits(key: ByteSeq, data: ByteSeq, B: nat) {
    MaxSize(key, data) < UINT_LIMIT && MaxSize(key, data) + B <= UINT_LIMIT
  }

  ghost predicate NodesFit(nodes: Nodes, B: nat) {
    forall a :: a in nodes ==> a < ADDR_LIMIT && Fits(nodes[a].key, nodes[a].data, B)
  }

  /** The tree with the cached root in it is well formed, and the storage holds it, with `kept` for the root's data. */
  ghost predicate TreeOk(seqs: map<nat, Stored>, nodes: Nodes, up: Parents, kept: ByteSeq, B: nat) {
    WellFormed(nodes, up) && Stores(seqs, OnDisk(nodes, kept)) && NodesFit(nodes, B) && Fits([], kept, B)
  }

  /** What the storage alone holds. */
  ghost predicate TreeStored(seqs: map<nat, Stored>, nodes: Nodes, up: Parents, B: nat) {
    ROOT in nodes && TreeOk(seqs, nodes, up, nodes[ROOT].data, B)
  }

  /** The data of the stored root after the first edges were `tops` and are `tops'`: the root is stored again, with the
      cached data, exactly when they changed. */
  ghost function KeptAfter(tops: map<Byte, ByteSeq>, tops': map<Byte, ByteSeq>, kept: ByteSeq,
      cached: ByteSeq): ByteSeq {
    if tops' == tops then kept else cached
  }

  /** `body` was written at `a`; no other sequence changed. */
  ghost predicate Wrote(before: map<nat, Stored>, after: map<nat, Stored>, a: nat, b: Body) {
    && after.Keys == before.Keys + {a} && StoredAs(after, a, b)
    && forall g :: g in before && g != a ==> after[g] == before[g]
  }

  /** The file grows by at most this much when one node is written: enough for a new block and a node of any size. */
  const WRITE_ROOM := 3 * UINT_LIMIT

  lemma ReadableNode(seqs: map<nat, Stored>, a: nat, b: Body, B: nat)
    requires StoredAs(seqs, a, b) && Fits(b.key, b.data, B)
    ensures Readable(seqs, a, Encode(b), B) && MaxSize(b.key, b.data) < UINT_LIMIT
  {
    hide Encode;
    EncodeSize(b);
  }

  lemma ChildrenFit(nodes: Nodes, B: nat, a: nat)
    requires EdgesOk(nodes) && NodesFit(nodes, B) && a in nodes
    ensures forall c :: c in nodes[a].children ==> nodes[a].children[c] < ADDR_LIMIT
  {
    forall c | c in nodes[a].children ensures nodes[a].children[c] < ADDR_LIMIT { assert EdgeOk(nodes, a, c); }
  }

  /** What reads at the advancing offsets of readNodeFromStorage return. */
  lemma PartialReads(b: Body)
    requires MaxSize(b.key, b.data) < UINT_LIMIT
    ensures var e, k, t, d := Encode(b), |b.key|, |Table(b.children)|, |b.data|;
            && FromLE(Clamped(e, 0, 4)) == k && Clamped(e, 4, k) == b.key
            && FromLE(Clamped(e, 4 + k, 4)) == t && Clamped(e, 8 + k, t) == Table(b.children)
            && FromLE(Clamped(e, 8 + k + t, 4)) == d && Clamped(e, 12 + k + t, d) == b.data
  {
    hide ToLE, FromLE, Table, Encode;
    EncodeParts(b);
    EncodeSizes(b);
  }

  lemma StoredStill(seqs: map<nat, Stored>, seqs': map<nat, Stored>, a: nat, b: Body)
    requires StoredAs(seqs, a, b) && a in seqs' && seqs'[a] == seqs[a]
    ensures StoredAs(seqs', a, b)
  {
    hide Encode;
  }

  lemma WroteFacts(before: map<nat, Stored>, after: map<nat, Stored>, a: nat, b: Body)
    requires Wrote(before, after, a, b)
    ensures after.Keys == before.Keys + {a} && StoredAs(after, a, b)
    ensures forall g :: g in before && g != a ==> g in after && after[g] == before[g]
  {
    hide StoredAs;
  }

  /** What the storage alone holds are the nodes. */
  lemma StoredNodes(seqs: map<nat, Stored>, nodes: Nodes, up: Parents, B: nat)
    requires TreeStored(seqs, nodes, up, B)
    ensures WellFormed(nodes, up) && Stores(seqs, nodes) && NodesFit(nodes, B)
  {
    hide StoredAs, EdgesOk, ParentsOk;
    assert OnDisk(nodes, nodes[ROOT].data) == nodes;
  }

  /** The maps of the storage before and after a new leaf was written and its parent rewritten. */
  lemma LeafStored(seqs0: map<nat, Stored>, seqs1: map<nat, Stored>, seqs2: map<nat, Stored>,
                   nodes: Nodes, up: Parents, B: nat, kept: ByteSeq, p: nat, a: nat, key: ByteSeq)
    requires TreeOk(seqs0, nodes, up, kept, B) && p in nodes && a !in seqs0 && a < ADDR_LIMIT && Fits(key, [], B)
    requires nodes[p].key <= key && |nodes[p].key| < |key| && key[|nodes[p].key|] !in nodes[p].children
    requires Wrote(seqs0, seqs1, a, Body(key, [], map[])) && Wrote(seqs1, seqs2, p, WithLeaf(nodes, p, a, key)[p])
    ensures a !in nodes && KeepsData(nodes, WithLeaf(nodes, p, a, key))
    ensures TreeOk(seqs2, WithLeaf(nodes, p, a, key), up[a := p], if p == ROOT then nodes[ROOT].data else kept, B)
  {
    hide EdgesOk, ParentsOk, Encode, MaxSize, StoredAs, Wrote, Fits;
    LeafWellFormed(nodes, up, p, a, key);
    LeafFits(nodes, B, p, a, key);
    WroteFacts(seqs0, seqs1, a, Body(key, [], map[]));
    WroteFacts(seqs1, seqs2, p, WithLeaf(nodes, p, a, key)[p]);
    var nodes', kept' := WithLeaf(nodes, p, a, key), if p == ROOT then nodes[ROOT].data else kept;
    var disk, disk' := OnDisk(nodes, kept), OnDisk(nodes', kept');
    forall b | b in nodes' ensures StoredAs(seqs2, b, disk'[b]) {
      if b != a && b != p {
        assert StoredAs(seqs0, b, disk[b]);
        StoredStill(seqs0, seqs1, b, disk[b]);
        StoredStill(seqs1, seqs2, b, disk[b]);
      }
      if b == a && a != p { StoredStill(seqs1, seqs2, a, Body(key, [], map[])); }
    }
    assert Fits(nodes[ROOT].key, nodes[ROOT].data, B);
  }

  lemma LeafFits(nodes: Nodes, B: nat, p: nat, a: nat, key: ByteSeq)
    requires NodesFit(nodes, B) && p in nodes && |nodes[p].key| < |key| && a < ADDR_LIMIT && Fits(key, [], B)
    ensures NodesFit(WithLeaf(nodes, p, a, key), B)
  {
    assert Fits(nodes[p].key, nodes[p].data, B);
  }

  ghost function BodyAt(nodes: Nodes, a: nat): Body {
    if a in nodes then nodes[a] else Body([], [], map[])
  }

  /** The same for a node put between `x` and its parent: the parent is rewritten first, then the new node written. */
  lemma PrefixStored(seqs0: map<nat, Stored>, seqs1: map<nat, Stored>, seqs2: map<nat, Stored>, seqs3: map<nat, Stored>,
                     nodes: Nodes, up: Parents, B: nat, kept: ByteSeq, p: nat, x: nat, q: nat, prefix: ByteSeq,
                         nodes': Nodes)
    requires p in nodes && x in nodes && x != ROOT && ParentOk(nodes, up, x) && up[x] == p
    requires |nodes[p].key| < |prefix| < |nodes[x].key| && prefix <= nodes[x].key
    requires nodes' == WithPrefix(nodes, p, x, q, prefix)
    requires TreeOk(seqs0, nodes, up, kept, B) && q !in seqs0 && q < ADDR_LIMIT
    requires q in seqs1 && seqs1 == seqs0[q := seqs1[q]]
    requires q != p && Wrote(seqs1, seqs2, p, BodyAt(nodes', p)) && Wrote(seqs2, seqs3, q, BodyAt(nodes', q))
    ensures q !in nodes && KeepsData(nodes, nodes')
    ensures TreeOk(seqs3, nodes', up[q := p][x := q], if p == ROOT then nodes[ROOT].data else kept, B)
  {
    hide EdgesOk, ParentsOk, Encode, MaxSize, StoredAs, Wrote;
    PrefixWellFormed(nodes, up, p, x, q, prefix);
    WroteFacts(seqs1, seqs2, p, BodyAt(nodes', p));
    WroteFacts(seqs2, seqs3, q, BodyAt(nodes', q));
    var kept' := if p == ROOT then nodes[ROOT].data else kept;
    var disk, disk' := OnDisk(nodes, kept), OnDisk(nodes', kept');
    PrefixFits(nodes, B, p, x, q, prefix);
    forall b | b in nodes' ensures StoredAs(seqs3, b, disk'[b]) {
      if b != q && b != p {
        assert StoredAs(seqs0, b, disk[b]);
        StoredStill(seqs0, seqs1, b, disk[b]);
        StoredStill(seqs1, seqs2, b, disk[b]);
        StoredStill(seqs2, seqs3, b, disk[b]);
      }
      if b == p { StoredStill(seqs2, seqs3, p, BodyAt(nodes', p)); }
    }
    assert Fits(nodes[ROOT].key, nodes[ROOT].data, B);
  }

  lemma PrefixFits(nodes: Nodes, B: nat, p: nat, x: nat, q: nat, prefix: ByteSeq)
    requires NodesFit(nodes, B) && p in nodes && x in nodes && |nodes[p].key| < |prefix| < |nodes[x].key|
        && q < ADDR_LIMIT
    ensures NodesFit(WithPrefix(nodes, p, x, q, prefix), B)
  {
    assert Fits(nodes[x].key, nodes[x].data, B) && Fits(nodes[p].key, nodes[p].data, B);
  }

  /** A tree that consists of an empty root. */
  lemma NewTree(seqs: map<nat, Stored>, B: nat)
    requires seqs.Keys == {ROOT} && StoredAs(seqs, ROOT, Body([], [], map[])) && Fits([], [], B)
    ensures var nodes := map[ROOT := Body([], [], map[])];
            TreeOk(seqs, nodes, map[], [], B) && KeyMap(nodes, map[]) == map[]
  {
    hide Encode;
  }

  lemma RootReadable(seqs: map<nat, Stored>, nodes: Nodes, up: Parents, B: nat)
    requires TreeStored(seqs, nodes, up, B)
    ensures StoredAs(seqs, ROOT, nodes[ROOT]) && Fits(nodes[ROOT].key, nodes[ROOT].data, B)
    ensures forall c :: c in nodes[ROOT].children ==> nodes[ROOT].children[c] < ADDR_LIMIT
  {
    hide Encode, ParentsOk, MaxSize;
    assert OnDisk(nodes, nodes[ROOT].data) == nodes;
    ChildrenFit(nodes, B, ROOT);
  }

  class PrefixTree {
    const storage: FileStorage
    const rootNode: NodeRef
    ghost var nodes: Nodes
    ghost var up: Parents
    /** The data of the stored root. */
    ghost var kept: ByteSeq

    /** The tree in the storage is in order, and the cached root equals the stored one, but for its data. */
    ghost predicate Valid()
      reads this, storage, rootNode
    {
      && storage.Valid()
      && TreeOk(storage.Seqs(), nodes, up, kept, storage.blockSize)
      && rootNode.n == NodeAt(nodes, ROOT)
    }

    /** The cached root equals the stored one. */
    ghost predicate Coherent()
      reads this, rootNode
    {
      kept == rootNode.n.data
    }

    /** The map that the tree stands for, the cached root in it. */
    ghost function Map(): map<ByteSeq, ByteSeq>
      requires Valid()
      reads this, storage, rootNode
    {
      KeyMap(nodes, up)
    }

    /** The constructor of the source, that is initRootNode: on a storage that was just formatted it stores an
        empty root, and on one that holds a tree (`givenNodes`) it reads the root back. */
    constructor (storage: FileStorage, ghost givenNodes: Nodes, ghost givenUp: Parents)
      requires storage.Valid() && ROOT in storage.Seqs()
      requires if storage.Seqs()[ROOT].size == 0
               then storage.Seqs().Keys == {ROOT} && Fits([], [], storage.blockSize)
                   && |storage.file| + WRITE_ROOM <= ADDR_LIMIT
               else TreeStored(storage.Seqs(), givenNodes, givenUp, storage.blockSize)
      modifies storage
      ensures this.storage == storage && Valid() && Coherent() && fresh(rootNode)
      ensures if old(storage.Seqs())[ROOT].size == 0
              then
                && nodes == map[ROOT := Body([], [], map[])] && Map() == map[]
                && |storage.file| <= |old(storage.file)| + WRITE_ROOM
              else
                && nodes == givenNodes && up == givenUp
                && storage.file == old(storage.file) && storage.L == old(storage.L)
    {
      this.storage := storage;
      rootNode := new NodeRef(Node(0, [], Normal, [], map[]));
      nodes := givenNodes;
      up := givenUp;
      kept := [];
      new;
      InitRootNode();
    }

    method InitRootNode()
      requires storage.Valid() && ROOT in storage.Seqs()
      requires if storage.Seqs()[ROOT].size == 0
               then storage.Seqs().Keys == {ROOT} && Fits([], [], storage.blockSize)
                   && |storage.file| + WRITE_ROOM <= ADDR_LIMIT
               else TreeStored(storage.Seqs(), nodes, up, storage.blockSize)
      modifies this, storage, rootNode
      ensures Valid() && Coherent()
      ensures if old(storage.Seqs())[ROOT].size == 0
              then
                && nodes == map[ROOT := Body([], [], map[])] && Map() == map[]
                && |storage.file| <= |old(storage.file)| + WRITE_ROOM
              else
                && nodes == old(nodes) && up == old(up)
                && storage.file == old(storage.file) && storage.L == old(storage.L)
    {
      hide DiskOk, View, Word, Encode, EdgesOk, ParentsOk;
      var firstAddress := storage.GetFirstBlockSeqAddress();
      rootNode.n := Node(firstAddress, [], Normal, [], map[]);
      var size := storage.GetChainSize(firstAddress);
      if size == 0 {
        WriteNodeToStorage(rootNode, false);
        nodes, up, kept := map[ROOT := Body([], [], map[])], map[], [];
        NewTree(storage.Seqs(), storage.blockSize);
      } else {
        kept := nodes[ROOT].data;
      }
      RootReadable(storage.Seqs(), nodes, up, storage.blockSize);
      var n := ReadNodeFromStorage(rootNode.n.address, nodes[ROOT]);
      rootNode.n := n;
    }

    method WriteNodeToStorage(node: NodeRef, createNewAddress: bool)
      requires storage.Valid() && (!createNewAddress ==> node.n.address in storage.Seqs())
      requires Fits(node.n.key, node.n.data, storage.blockSize)
      requires |storage.file| + WRITE_ROOM <= ADDR_LIMIT
      modifies storage, node
      ensures storage.Valid() && Wrote(old(storage.Seqs()), storage.Seqs(), node.n.address, BodyOf(node.n))
      ensures node.n == old(node.n).(address := node.n.address)
      ensures if createNewAddress then node.n.address !in old(storage.Seqs()) else node.n.address == old(node.n.address)
      ensures node.n.address < ADDR_LIMIT || !createNewAddress
      ensures |storage.file| <= |old(storage.file)| + if createNewAddress then WRITE_ROOM else 2 * UINT_LIMIT
    {
      hide DiskOk, View, Word, Encode, IsNewSequence, Written, FewestBlocks, Wrote, StoredAs, EmptySeq, ChainOf;
      EncodeSize(BodyOf(node.n));
      ghost var seqs0 := storage.Seqs();
      if createNewAddress {
        ghost var L0, f0 := storage.L, storage.file;
        var a := storage.NewBlockSeq();
        NewAddress(f0, storage.blockSize, L0, storage.file, storage.L, a);
        node.n := node.n.(address := a);
      }
      SequenceFacts(storage.file, storage.blockSize, storage.L, node.n.address);
      ghost var seqs1 := storage.Seqs();
      var bytes := BuildBuffer(BodyOf(node.n));
      storage.Write(node.n.address, 0, bytes, true);
      WroteNode(seqs0, seqs1, storage.Seqs(), node.n.address, BodyOf(node.n));
    }

    method ReadNodeFromStorage(address: nat, ghost b: Body) returns (node: Node)
      requires storage.Valid() && StoredAs(storage.Seqs(), address, b) && Fits(b.key, b.data, storage.blockSize)
      requires forall c :: c in b.children ==> b.children[c] < ADDR_LIMIT
      modifies storage
      ensures storage.file == old(storage.file) && storage.L == old(storage.L) && storage.header == old(storage.header)
      ensures storage.Valid() && storage.Seqs() == old(storage.Seqs())
      ensures node == Node(address, b.key, Normal, b.data, b.children)
    {
      hide DiskOk, View, Word, Encode, Table, FromLE, Clamped, ToLE, Rank, Ordered, MaxSize, Readable, StoredAs, Fits;
      ReadableNode(storage.Seqs(), address, b, storage.blockSize);
      PartialReads(b);
      node := Node(address, [], Normal, [], map[]);
      var currentIndex := 0;
      var keyBuffer, childrenBuffer, dataBuffer;
      ghost var e := Encode(b);
      keyBuffer, currentIndex := ReadSized(address, currentIndex, e);
      node := node.(key := keyBuffer);
      childrenBuffer, currentIndex := ReadSized(address, currentIndex, e);
      var children := ReadChildren(childrenBuffer, node.children, b.children);
      node := node.(children := children);
      dataBuffer, currentIndex := ReadSized(address, currentIndex, e);
      node := node.(data := dataBuffer);
    }

    /** One of the three steps of readNodeFromStorage: a 4-byte size, then that many bytes. */
    method ReadSized(address: nat, at: nat, ghost e: ByteSeq) returns (part: ByteSeq, next: nat)
      requires storage.Valid() && Readable(storage.Seqs(), address, e, storage.blockSize)
      modifies storage
      ensures storage.file == old(storage.file) && storage.L == old(storage.L) && storage.header == old(storage.header)
      ensures storage.Valid() && storage.Seqs() == old(storage.Seqs())
      ensures part == Clamped(e, at + 4, FromLE(Clamped(e, at, 4))) && next == at + 4 + FromLE(Clamped(e, at, 4))
    {
      hide DiskOk, View, Word, FromLE, Clamped;
      var sizeBytes := storage.Read(address, at, 4);
      var size := FromLE(sizeBytes);
      part := storage.Read(address, at + 4, size);
      next := at + 4 + size;
    }

    method GetPrefix(key1: ByteSeq, key2: ByteSeq) returns (prefix: ByteSeq)
      ensures |prefix| == CommonLength(key1, key2) && prefix <= key1 && prefix <= key2
    {
      prefix := [];
      var index := 0;
      while index < |key1| && index < |key2|
        invariant index <= |key1| && index <= |key2|
        invariant prefix == key1[..index] == key2[..index]
      {
        if key1[index] == key2[index] {
          prefix := prefix + [key1[index]];
          index := index + 1;
        } else {
          CommonHere(key1, key2, index);
          return;
        }
      }
      CommonAtLeast(key1, key2, prefix);
      CommonFacts(key1, key2);
    }

    /** The child of `currentNode` on the way to `key`; created, with `key` as its key, if there is none. */
    method LocateOrCreateChild(currentNode: NodeRef, key: ByteSeq, readOnly: bool) returns (child: Node)
      requires Valid() && currentNode.n.address in nodes && currentNode.n == NodeAt(nodes, currentNode.n.address)
      requires currentNode == rootNode <==> currentNode.n.address == ROOT
      requires currentNode.n.key <= key
      requires !readOnly ==> Fits(key, [], storage.blockSize)
      requires Missing(currentNode.n, key) && !readOnly ==> |storage.file| + 2 * WRITE_ROOM <= ADDR_LIMIT
      modifies this`nodes, this`up, this`kept, storage, currentNode
      ensures Valid()
      ensures !Missing(old(currentNode.n), key) || readOnly ==>
                && nodes == old(nodes) && up == old(up) && kept == old(kept) && currentNode.n == old(currentNode.n)
                && storage.file == old(storage.file) && storage.L == old(storage.L)
      ensures |key| <= |old(currentNode.n).key| || (Missing(old(currentNode.n), key) && readOnly) ==> child == INVALID
      ensures |key| > |old(currentNode.n).key| && !(Missing(old(currentNode.n), key) && readOnly)
          ==> child.kind == Normal
      ensures |key| > |old(currentNode.n).key| && !Missing(old(currentNode.n), key) ==>
                child == NodeAt(nodes, currentNode.n.children[key[|currentNode.n.key|]])
      ensures Missing(old(currentNode.n), key) && !readOnly ==>
                && var a, p := child.address, currentNode.n.address;
                && p == old(currentNode.n.address) && a !in old(nodes)
                && nodes == WithLeaf(old(nodes), p, a, key) && up == old(up)[a := p]
                && kept == (if p == ROOT then old(currentNode.n).data else old(kept))
                && child == NodeAt(nodes, a) && currentNode.n == NodeAt(nodes, p)
                && KeepsData(old(nodes), nodes)
      ensures |storage.file| <= |old(storage.file)| + if Missing(old(currentNode.n), key) && !readOnly
          then 2 * WRITE_ROOM else 0
    {
      hide DiskOk, View, Word, Encode, EdgesOk, ParentsOk, Wrote, Stores, StoredAs, MaxSize, ParentOk, EdgeOk;
      ghost var p, B := currentNode.n.address, storage.blockSize;
      var checkIndex := |currentNode.n.key|;
      if |key| > checkIndex {
        var toCheck := key[checkIndex];
        if toCheck !in currentNode.n.children {
          if readOnly {
            return INVALID;
          }
          ghost var seqs0, nodes0 := storage.Seqs(), nodes;
          var newNode := new NodeRef(Node(0, key, Normal, [], map[]));
          WriteNodeToStorage(newNode, true);
          ghost var seqs1 := storage.Seqs();
          currentNode.n := currentNode.n.(children := currentNode.n.children[toCheck := newNode.n.address]);
          ParentStored(seqs0, seqs1, nodes0, up, kept, B, p, newNode.n.address, BodyOf(newNode.n));
          WriteNodeToStorage(currentNode, false);
          LeafStored(seqs0, seqs1, storage.Seqs(), nodes0, up, B, kept, p, newNode.n.address, key);
          kept := if p == ROOT then currentNode.n.data else kept;
          nodes, up := WithLeaf(nodes0, p, newNode.n.address, key), up[newNode.n.address := p];
        }
        ghost var c := currentNode.n.children[toCheck];
        ChildStored(storage.Seqs(), nodes, up, kept, B, p, toCheck);
        child := ReadNodeFromStorage(currentNode.n.children[toCheck], nodes[c]);
      } else {
        return INVALID;
      }
    }

    /** Puts a new node with key `prefixName` between `currentNode` and its parent. */
    method CreatePrefixNode(currentNode: NodeRef, prefixName: ByteSeq, parentNode: NodeRef) returns (prefixNode: Node)
      requires Valid() && currentNode != parentNode && currentNode != rootNode
      requires currentNode.n.address in nodes && currentNode.n == NodeAt(nodes, currentNode.n.address)
          && currentNode.n.address != ROOT
      requires parentNode.n.address in nodes && parentNode.n == NodeAt(nodes, parentNode.n.address)
      requires parentNode == rootNode <==> parentNode.n.address == ROOT
      requires currentNode.n.address in up && up[currentNode.n.address] == parentNode.n.address
      requires |parentNode.n.key| < |prefixName| < |currentNode.n.key| && prefixName <= currentNode.n.key
      requires |storage.file| + 2 * WRITE_ROOM <= ADDR_LIMIT
      modifies this`nodes, this`up, this`kept, storage, parentNode
      ensures Valid()
      ensures var q, p, x := prefixNode.address, parentNode.n.address, currentNode.n.address;
              && p == old(parentNode.n.address) && q !in old(nodes)
              && SplitInto(old(nodes), old(up), nodes, up, p, x, q, prefixName)
              && kept == (if p == ROOT then old(parentNode.n).data else old(kept))
              && prefixNode == NodeAt(nodes, q) && parentNode.n == NodeAt(nodes, p)
              && KeepsData(old(nodes), nodes)
      ensures |storage.file| <= |old(storage.file)| + 2 * WRITE_ROOM
    {
      hide DiskOk, View, Word, Encode, EdgesOk, ParentsOk, Wrote, Stores, StoredAs, MaxSize, EdgeOk, EmptySeq,
          NodesFit, ParentOk, OnDisk, KeepsData;
      ghost var p, x, B := parentNode.n.address, currentNode.n.address, storage.blockSize;
      ghost var seqs0, nodes0, up0 := storage.Seqs(), nodes, up;
      ghost var f0, L0 := storage.file, storage.L;
      ParentAndChild(seqs0, nodes0, up0, kept, B, p, x, prefixName);
      var newAddress := storage.NewBlockSeq();
      var prefixRef := new NodeRef(Node(newAddress, prefixName, Normal, [], map[]));
      NewAddress(f0, B, L0, storage.file, storage.L, newAddress);
      ghost var seqs1, q := storage.Seqs(), newAddress;

      // The source has an empty "error/bug" branch for each of these.
      assert currentNode.n.kind != RootNode;
      var addrIndex := |parentNode.n.key|;
      assert addrIndex < |prefixName|;
      var toCheck := prefixName[addrIndex];
      parentNode.n := parentNode.n.(children := parentNode.n.children[toCheck := newAddress]);
      WriteNodeToStorage(parentNode, false);
      ghost var seqs2 := storage.Seqs();

      addrIndex := |prefixRef.n.key|;
      assert addrIndex < |currentNode.n.key|;
      toCheck := currentNode.n.key[addrIndex];
      prefixRef.n := prefixRef.n.(children := prefixRef.n.children[toCheck := currentNode.n.address]);
      WroteKeeps(seqs1, seqs2, p, BodyOf(parentNode.n), q);
      WriteNodeToStorage(prefixRef, false);

      nodes, up := WithPrefix(nodes0, p, x, q, prefixName), up0[q := p][x := q];
      PrefixStored(seqs0, seqs1, seqs2, storage.Seqs(), nodes0, up0, B, kept, p, x, q, prefixName, nodes);
      kept := if p == ROOT then parentNode.n.data else kept;
      prefixNode := prefixRef.n;
    }

    /** `currentNode` and `parentNode` are copies of a stored node and its parent on the way to `key`;
        the root's copy is the cached one. */
    ghost predicate OnPath(currentNode: NodeRef, parentNode: NodeRef, key: ByteSeq)
      reads this, currentNode, parentNode
    {
      && currentNode != parentNode
      && currentNode.n.address in nodes && currentNode.n == NodeAt(nodes, currentNode.n.address)
      && (currentNode == rootNode <==> currentNode.n.address == ROOT)
      && (currentNode != rootNode ==>
            && parentNode.n.address in nodes && parentNode.n == NodeAt(nodes, parentNode.n.address)
            && (parentNode == rootNode <==> parentNode.n.address == ROOT)
            && currentNode.n.address in up && up[currentNode.n.address] == parentNode.n.address
            && CommonLength(currentNode.n.key, key) > |parentNode.n.key|)
    }

    /** Finds the node of a key.  Without `readOnly` it is created if there is none, by splitting an edge where
        keys diverge; with it, nothing changes and the last node on the way is reported in `lastValid`. */
    method Find(key: ByteSeq, currentNode: NodeRef, lastValid: NodeRef, parentNode: NodeRef, readOnly: bool)
        returns (result: Node)
      requires Valid() && OnPath(currentNode, parentNode, key)
      requires lastValid != currentNode && lastValid != parentNode && lastValid != rootNode
      requires !readOnly ==> Fits(key, [], storage.blockSize)
      requires !readOnly ==> |storage.file| + FindRoom(currentNode.n, key) <= ADDR_LIMIT
      modifies this`nodes, this`up, this`kept, storage, currentNode, lastValid, parentNode
      ensures Valid()
      ensures readOnly ==>
                && nodes == old(nodes) && up == old(up) && kept == old(kept) && storage.file == old(storage.file)
                    && storage.L == old(storage.L)
                && currentNode.n == old(currentNode.n) && parentNode.n == old(parentNode.n)
                && var a := currentNode.n.address;
                && lastValid.n == NodeAt(nodes, LastValid(nodes, a, key))
                && result == (match Lookup(nodes, a, key) case Some(b) => NodeAt(nodes, b) case None => INVALID)
      ensures !readOnly ==>
                && KeepsData(old(nodes), nodes)
                && result.address in nodes && result == NodeAt(nodes, result.address) && result.key == key
                && Tops(nodes) == TopsVia(old(nodes), old(currentNode.n).address, old(parentNode.n).address, key)
                && kept == KeptAfter(old(Tops(nodes)), Tops(nodes), old(kept), old(NodeAt(nodes, ROOT)).data)
      ensures |storage.file| <= |old(storage.file)| + if readOnly then 0 else FindRoom(old(currentNode.n), key)
      decreases |key| - CommonLength(currentNode.n.key, key), if currentNode.n.key <= key then 0 else 1, 1
    {
      hide DiskOk, View, Word, Encode, ParentsOk, EdgesOk, Wrote, Stores, StoredAs, MaxSize, NodesFit, Fits,
          CommonLength;
      hide Lookup, LastValid, KeepsData, WithPrefix, ParentOk, FindRoom, Tops, TopsVia, OnDisk, TreeOk;
      lastValid.n := currentNode.n;
      ghost var a, p, nodes0, up0, kept0 := currentNode.n.address, parentNode.n.address, nodes, up, kept;
      KeepsSelf(nodes);
      TreeShape(storage.Seqs(), nodes, up, kept, storage.blockSize);
      PathFacts(nodes, up, a, key);
      if key == currentNode.n.key {
        ViaStays(nodes, up, a, p, key);
        return currentNode.n;
      }
      result := INVALID;
      var prefixName := GetPrefix(currentNode.n.key, key);
      var comparisionPosition := |currentNode.n.key|;
      if |prefixName| >= comparisionPosition {
        ghost var before := currentNode.n;
        var childNode := LocateOrCreateChild(currentNode, key, readOnly);
        if childNode.kind == Invalid {
          return childNode;
        }
        TreeShape(storage.Seqs(), nodes, up, kept, storage.blockSize);
        DescendFacts(nodes, up, a, key);
        var child := new NodeRef(childNode);
        ghost var nodes1, kept1 := nodes, kept;
        if !readOnly {
          ViaDown(nodes0, up0, nodes1, a, p, childNode.address, key);
        }
        result := Find(key, child, lastValid, currentNode, readOnly);
        KeepsTrans(nodes0, nodes1, nodes);
      } else if |prefixName| < comparisionPosition {
        if readOnly {
          return INVALID;
        }
        result := FindSplit(key, currentNode, lastValid, parentNode, prefixName);
      }
    }

    /** The rest of Find where the keys diverge: a prefix node is put in, and the search goes on from it. */
    method FindSplit(key: ByteSeq, currentNode: NodeRef, lastValid: NodeRef, parentNode: NodeRef, prefixName: ByteSeq)
        returns (result: Node)
      requires Valid() && OnPath(currentNode, parentNode, key) && !(currentNode.n.key <= key)
      requires |prefixName| == CommonLength(currentNode.n.key, key)
      requires prefixName <= key && prefixName <= currentNode.n.key
      requires lastValid != currentNode && lastValid != parentNode && lastValid != rootNode
      requires Fits(key, [], storage.blockSize) && |storage.file| + 4 * WRITE_ROOM <= ADDR_LIMIT
      modifies this`nodes, this`up, this`kept, storage, lastValid, parentNode
      ensures Valid()
      ensures KeepsData(old(nodes), nodes)
      ensures result.address in nodes && result == NodeAt(nodes, result.address) && result.key == key
      ensures Tops(nodes) == TopsVia(old(nodes), currentNode.n.address, old(parentNode.n).address, key)
      ensures kept == KeptAfter(old(Tops(nodes)), Tops(nodes), old(kept), old(NodeAt(nodes, ROOT)).data)
      ensures |storage.file| <= |old(storage.file)| + 4 * WRITE_ROOM
      decreases |key| - CommonLength(currentNode.n.key, key), 1, 0
    {
      hide DiskOk, View, Word, Encode, ParentsOk, EdgesOk, Wrote, Stores, StoredAs, MaxSize, NodesFit, Fits,
          CommonLength;
      hide Lookup, LastValid, KeepsData, WithPrefix, ParentOk, FindRoom, Tops, TopsVia, OnDisk;
      ghost var a, p, nodes0, up0 := currentNode.n.address, parentNode.n.address, nodes, up;
      PathFacts(nodes, up, a, key);
      var prefixNode := CreatePrefixNode(currentNode, prefixName, parentNode);
      ghost var nodes1 := nodes;
      SplitFacts(nodes0, nodes, p, a, prefixNode.address, prefixName, key);
      SplitTops(nodes0, up0, nodes, p, a, prefixNode.address, prefixName, key);
      var prefix := new NodeRef(prefixNode);
      result := Find(key, prefix, lastValid, parentNode, false);
      KeepsTrans(nodes0, nodes1, nodes);
    }

    /** Stores a value.  With the empty key it writes a changed copy of the root to the storage and leaves the cached
        root, from which all answers come, as it was.  With another key the stored root gets the cached data again
        when an edge at the root changes. */
    method Set(key: ByteSeq, data: ByteSeq)
      requires Valid() && Fits(key, data, storage.blockSize)
      requires |storage.file| + SET_ROOM <= ADDR_LIMIT
      modifies this`nodes, this`up, this`kept, storage, rootNode
      ensures Valid() && Map() == if key == [] then old(Map()) else Updated(old(Map()), key, data)
      ensures Tops(nodes) == Grow(old(Tops(nodes)), key)
      ensures kept == if key == [] then data else KeptAfter(old(Tops(nodes)), Tops(nodes), old(kept), rootNode.n.data)
      ensures old(Coherent()) ==> (Coherent() <==> key != [] || data == old(rootNode.n).data)
      ensures rootNode.n.data == old(rootNode.n.data)
      ensures |storage.file| <= |old(storage.file)| + SET_ROOM
    {
      hide DiskOk, View, Word, Encode, ParentsOk, EdgesOk, Wrote, Stores, StoredAs, MaxSize, NodesFit, CommonLength,
          KeyMap, KeepsData;
      hide Lookup, LastValid, Tops, Grow, Updated;
      ghost var nodes0, up0 := nodes, up;
      SetFacts(nodes, up, storage.blockSize, key, data, rootNode.n);
      var lastValidNode := new NodeRef(INVALID);
      var invalidNode := new NodeRef(INVALID);
      var theNode := Find(key, rootNode, lastValidNode, invalidNode, false);
      if theNode.kind == Invalid {
        assert false;
      }
      SameMap(nodes0, up0, nodes, up);
      ghost var a, seqs1, nodes1 := theNode.address, storage.Seqs(), nodes;
      NodeFits(seqs1, nodes, up, kept, storage.blockSize, a);
      theNode := theNode.(data := data);
      var written := new NodeRef(theNode);
      WriteNodeToStorage(written, false);
      DataStored(seqs1, storage.Seqs(), nodes1, up, kept, storage.blockSize, a, data);
      RootOrNot(nodes1, up, a, nodes0);
      if a == ROOT {
        kept := data;
        GrowNone(Tops(nodes0));
      } else {
        nodes := nodes[a := nodes[a].(data := data)];
        SetData(nodes1, up, a, data);
        DataTops(nodes1, a, data);
      }
    }

    method Remove(key: ByteSeq)
      requires Valid() && Fits(key, [], storage.blockSize)
      requires |storage.file| + SET_ROOM <= ADDR_LIMIT
      modifies this`nodes, this`up, this`kept, storage, rootNode
      ensures Valid() && Map() == if key == [] then old(Map()) else old(Map()) - {key}
      ensures Tops(nodes) == Grow(old(Tops(nodes)), key)
      ensures kept == if key == [] then [] else KeptAfter(old(Tops(nodes)), Tops(nodes), old(kept), rootNode.n.data)
      ensures old(Coherent()) ==> (Coherent() <==> key != [] || old(rootNode.n).data == [])
      ensures rootNode.n.data == old(rootNode.n.data)
      ensures |storage.file| <= |old(storage.file)| + SET_ROOM
    {
      hide KeyMap, TreeOk, Tops, Grow;
      Set(key, []);
    }

    /** Reads a value; `defaultValue` stands in only for a key that has no node at all. */
    method Get(key: ByteSeq, defaultValue: ByteSeq) returns (value: ByteSeq)
      requires Valid()
      modifies this`nodes, this`up, this`kept, storage, rootNode
      ensures Valid() && Map() == old(Map()) && storage.file == old(storage.file) && storage.L == old(storage.L)
      ensures rootNode.n == old(rootNode.n) && nodes == old(nodes) && kept == old(kept)
      ensures value == if Lookup(nodes, ROOT, key) == None then defaultValue else ValueOf(Map(), key)
      ensures defaultValue == [] ==> value == ValueOf(Map(), key)
    {
      hide DiskOk, View, Word, Encode, ParentsOk, EdgesOk, Stores, StoredAs, MaxSize, NodesFit, CommonLength, KeyMap,
          Lookup, LastValid;
      ReadFacts(nodes, up, key);
      var lastValidNode := new NodeRef(INVALID);
      var invalidNode := new NodeRef(INVALID);
      var result := Find(key, rootNode, lastValidNode, invalidNode, true);
      if result.kind == Invalid {
        return defaultValue;
      }
      value := result.data;
    }

    /** exists of prefixtree_cgo.cpp: the key has a nonempty value. */
    method Exists(key: ByteSeq) returns (found: bool)
      requires Valid()
      modifies this`nodes, this`up, this`kept, storage, rootNode
      ensures Valid() && Map() == old(Map()) && storage.file == old(storage.file) && storage.L == old(storage.L)
      ensures rootNode.n == old(rootNode.n) && nodes == old(nodes) && kept == old(kept)
      ensures found <==> key in Map()
    {
      hide KeyMap, DiskOk, View, Word, Encode, ParentsOk, EdgesOk;
      var result := Get(key, []);
      found := result != [];
      MapNonempty(nodes, up);
    }

    /** recursiveGetChilds, visiting all children: the nodes that the filter keeps, in the order of their keys. */
    method RecursiveGetChilds(node: Node, ret: seq<ByteSeq>, maxResults: nat, keep: Keep) returns (ret': seq<ByteSeq>)
      requires Valid() && node.address in nodes && node == NodeAt(nodes, node.address)
      requires maxResults != 0 ==> |ret| < maxResults
      requires EdgesOk(nodes) && Bounded(nodes, UINT_LIMIT)
      modifies storage
      ensures Valid() && nodes == old(nodes) && up == old(up) && storage.file == old(storage.file) && storage.L
          == old(storage.L)
      ensures ret' == Limited(ret + Listing(nodes, keep, node.address, UINT_LIMIT), maxResults)
      decreases UINT_LIMIT - |node.key|
    {
      hide DiskOk, View, Word, Encode, ParentsOk, EdgesOk, Stores, StoredAs, MaxSize, NodesFit, KeyMap, Bounded, Fits,
          Listing, ListingOf, Limited;
      ghost var a, h := node.address, UINT_LIMIT;
      ret' := ret;
      if keep(Body(node.key, node.data, node.children)) {
        ret' := ret' + [node.key];
      }
      var keys := Ordered(node.children.Keys);
      ListingUnfold(nodes, keep, a, ret, ret', h);
      ghost var own := ret';
      if maxResults != 0 && |ret'| >= maxResults {
        LimitedPrefix(own, ListingOf(nodes, keep, a, keys, h), maxResults);
        return;
      }
      for i := 0 to |keys|
        invariant Valid() && nodes == old(nodes) && up == old(up) && storage.file == old(storage.file) && storage.L
            == old(storage.L)
        invariant maxResults != 0 ==> |ret'| < maxResults
        invariant ret' == own + ListingOf(nodes, keep, a, keys[..i], h)
      {
        ChildStored(storage.Seqs(), nodes, up, kept, storage.blockSize, a, keys[i]);
        ChildLonger(nodes, a, keys[i], h);
        var childNode := ReadNodeFromStorage(node.children[keys[i]], nodes[node.children[keys[i]]]);
        if childNode.kind == Invalid {
          assert false;
        }
        ret' := RecursiveGetChilds(childNode, ret', maxResults, keep);
        ListingStep(nodes, keep, a, keys, i, own, ret', maxResults, h);
        if maxResults != 0 && |ret'| >= maxResults {
          return;
        }
      }
      assert keys[..|keys|] == keys;
      LimitedAll(ret', maxResults);
    }

    /** searchChilds, visiting all children: the keys of kept nodes that start with `key`, in order, at most
        `maxResults` of them unless that is 0.  With the filter for data that is a search in the map. */
    method SearchChilds(key: ByteSeq, maxResults: nat, keep: Keep) returns (ret: seq<ByteSeq>)
      requires Valid()
      modifies this`nodes, this`up, this`kept, storage, rootNode
      ensures Valid() && Map() == old(Map()) && storage.file == old(storage.file) && storage.L == old(storage.L)
      ensures rootNode.n == old(rootNode.n) && nodes == old(nodes) && kept == old(kept)
      ensures FirstKept(nodes, keep, key, maxResults, ret)
      ensures keep == WITH_DATA ==> FirstWithPrefix(Map(), key, maxResults, ret)
    {
      hide DiskOk, View, Word, Encode, ParentsOk, EdgesOk, Stores, StoredAs, MaxSize, NodesFit, CommonLength, KeyMap,
          Lookup, LastValid, Listing, Bounded, Limited, Sorted;
      SearchFacts(storage.Seqs(), nodes, up, kept, storage.blockSize, key);
      var lastValidNode := new NodeRef(INVALID);
      var invalidNode := new NodeRef(INVALID);
      var result := Find(key, rootNode, lastValidNode, invalidNode, true);
      if !(key <= lastValidNode.n.key) {
        ret := [];
      } else {
        ret := RecursiveGetChilds(lastValidNode.n, [], maxResults, keep);
      }
      SearchedFirst(nodes, keep, up, key, maxResults, ret);
    }
  }

  /** The unlimited result of a prefix search, as its users know it. */
  ghost predicate AllWithPrefix(m: map<ByteSeq, ByteSeq>, key: ByteSeq, all: seq<ByteSeq>) {
    Sorted(all) && forall k :: k in all <==> k in m && key <= k
  }

  /** `ret` is the unlimited result, or its first `limit` entries if a limit was given. */
  ghost predicate FirstWithPrefix(m: map<ByteSeq, ByteSeq>, key: ByteSeq, limit: nat, ret: seq<ByteSeq>) {
    exists all :: AllWithPrefix(m, key, all) && ret == Limited(all, limit)
  }

  /** There is only one such result. */
  lemma FirstWithPrefixUnique(m: map<ByteSeq, ByteSeq>, key: ByteSeq, limit: nat, ret: seq<ByteSeq>, ret': seq<ByteSeq>)
    requires FirstWithPrefix(m, key, limit, ret) && FirstWithPrefix(m, key, limit, ret')
    ensures ret == ret'
  {
    var s :| AllWithPrefix(m, key, s) && ret == Limited(s, limit);
    var t :| AllWithPrefix(m, key, t) && ret' == Limited(t, limit);
    SortedUnique(s, t);
  }

  /** The order of the results is that of the first byte in which two of them differ, as a signed char. */
  lemma ResultOrder(m: map<ByteSeq, ByteSeq>, key: ByteSeq, limit: nat, ret: seq<ByteSeq>, i: nat, j: nat)
    requires FirstWithPrefix(m, key, limit, ret) && i < j < |ret|
    ensures exists n :: PartsAt(ret[i], ret[j], n)
  {
    var all :| AllWithPrefix(m, key, all) && ret == Limited(all, limit);
    assert ret[i] == all[i] && ret[j] == all[j];
    LessParts(ret[i], ret[j]);
  }

  /** So a key that goes on with a byte from 128 on comes before one that goes on with a smaller byte. */
  lemma HighBytesFirst(m: map<ByteSeq, ByteSeq>, key: ByteSeq, limit: nat, ret: seq<ByteSeq>, i: nat, j: nat,
      p: ByteSeq, c: Byte, d: Byte)
    requires FirstWithPrefix(m, key, limit, ret) && i < |ret| && j < |ret|
    requires p + [c] <= ret[i] && p + [d] <= ret[j] && c >= 128 && d < 128
    ensures i < j
  {
    assert ret[i][|p|] == c && ret[j][|p|] == d;
    if j < i {
      ResultOrder(m, key, limit, ret, j, i);
      var n :| PartsAt(ret[j], ret[i], n);
      PartsWhere(ret[j], ret[i], n, p, d, c);
    }
  }

  lemma PartsWhere(a: ByteSeq, b: ByteSeq, n: nat, p: ByteSeq, c: Byte, d: Byte)
    requires PartsAt(a, b, n) && p + [c] <= a && p + [d] <= b && c != d
    ensures n == |p|
  {
    assert a[|p|] == c && b[|p|] == d && forall k :: 0 <= k < |p| ==> a[k] == p[k] == b[k];
    forall k | 0 <= k < n ensures a[k] == b[k] { assert a[k] == a[..n][k] && b[k] == b[..n][k]; }
  }

  lemma SearchFacts(seqs: map<nat, Stored>, nodes: Nodes, up: Parents, kept: ByteSeq, B: nat, key: ByteSeq)
    requires TreeOk(seqs, nodes, up, kept, B)
    ensures EdgesOk(nodes) && Bounded(nodes, UINT_LIMIT) && LastValid(nodes, ROOT, key) in nodes
  {
    hide Encode, ParentsOk;
    forall a | a in nodes ensures |nodes[a].key| <= UINT_LIMIT { assert Fits(nodes[a].key, nodes[a].data, B); }
  }

  /** The first results among the keys of kept nodes with the prefix, in order and each once. */
  ghost predicate FirstKept(nodes: Nodes, keep: Keep, key: ByteSeq, limit: nat, ret: seq<ByteSeq>) {
    exists all :: Sorted(all) && (forall k :: k in all <==> Belongs(nodes, keep, key, k)) && ret == Limited(all, limit)
  }

  /** For every filter there is only one such result; it is never longer than the limit, and holds only what belongs to
      it. */
  lemma FirstKeptUnique(nodes: Nodes, keep: Keep, key: ByteSeq, limit: nat, ret: seq<ByteSeq>, ret': seq<ByteSeq>)
    requires FirstKept(nodes, keep, key, limit, ret) && FirstKept(nodes, keep, key, limit, ret')
    ensures ret == ret' && (limit > 0 ==> |ret| <= limit) && forall k :: k in ret ==> Belongs(nodes, keep, key, k)
  {
    hide Belongs;
    var s :| Sorted(s) && (forall k :: k in s <==> Belongs(nodes, keep, key, k)) && ret == Limited(s, limit);
    var t :| Sorted(t) && (forall k :: k in t <==> Belongs(nodes, keep, key, k)) && ret' == Limited(t, limit);
    SortedUnique(s, t);
    forall k | k in ret ensures k in s { }
  }

  lemma SearchedFirst(nodes: Nodes, keep: Keep, up: Parents, key: ByteSeq, limit: nat, ret: seq<ByteSeq>)
    requires WellFormed(nodes, up) && Bounded(nodes, UINT_LIMIT)
    requires var v := LastValid(nodes, ROOT, key);
             ret == if key <= nodes[v].key then Limited([] + Listing(nodes, keep, v, UINT_LIMIT), limit) else []
    ensures FirstKept(nodes, keep, key, limit, ret)
    ensures keep == WITH_DATA ==> FirstWithPrefix(KeyMap(nodes, up), key, limit, ret)
  {
    hide EdgesOk, ParentsOk, KeyMap, LastValid, Listing, Belongs, WITH_DATA;
    SearchIsExact(nodes, keep, up, key, UINT_LIMIT);
    var all := SearchResult(nodes, keep, key, UINT_LIMIT);
    assert forall s: seq<ByteSeq> :: [] + s == s;
    assert ret == Limited(all, limit);
    if keep == WITH_DATA {
      forall k ensures k in all <==> k in KeyMap(nodes, up) && key <= k { SearchWithData(nodes, up, key, k); }
      assert AllWithPrefix(KeyMap(nodes, up), key, all);
    }
  }

  lemma ListingUnfold(nodes: Nodes, keep: Keep, a: nat, ret: seq<ByteSeq>, own: seq<ByteSeq>, h: nat)
    requires EdgesOk(nodes) && Bounded(nodes, h) && a in nodes
    requires own == ret + if keep(nodes[a]) then [nodes[a].key] else []
    ensures var keys := Ordered(nodes[a].children.Keys);
            && (forall c :: c in keys ==> c in nodes[a].children)
            && ret + Listing(nodes, keep, a, h) == own + ListingOf(nodes, keep, a, keys, h)
            && own + ListingOf(nodes, keep, a, keys[..0], h) == own
  {
    hide Ordered, ListingOf, EdgesOk, Bounded;
    OrderedFacts(nodes[a].children.Keys);
    ListingNone(nodes, keep, a, Ordered(nodes[a].children.Keys)[..0], h);
    var l := ListingOf(nodes, keep, a, Ordered(nodes[a].children.Keys), h);
    assert ret + (([] + (if keep(nodes[a]) then [nodes[a].key] else [])) + l) == own + l;
  }

  lemma ListingNone(nodes: Nodes, keep: Keep, a: nat, keys: seq<Byte>, h: nat)
    requires EdgesOk(nodes) && Bounded(nodes, h) && a in nodes && keys == []
    ensures ListingOf(nodes, keep, a, keys, h) == []
  {
  }

  lemma LimitedAll(s: seq<ByteSeq>, m: nat)
    requires m != 0 ==> |s| < m
    ensures Limited(s, m) == s
  {
  }

  /** One round of the loop over the children: the results so far, or, when there are enough, the final ones. */
  lemma ListingStep(nodes: Nodes, keep: Keep, a: nat, keys: seq<Byte>, i: nat, own: seq<ByteSeq>, ret: seq<ByteSeq>,
      m: nat, h: nat)
    requires EdgesOk(nodes) && Bounded(nodes, h) && a in nodes && (forall c :: c in keys ==> c in nodes[a].children)
        && i < |keys|
    requires nodes[a].children[keys[i]] in nodes
    requires ret == Limited(own + ListingOf(nodes, keep, a, keys[..i], h)
                            + Listing(nodes, keep, nodes[a].children[keys[i]], h), m)
    ensures m != 0 && |ret| >= m ==> ret == Limited(own + ListingOf(nodes, keep, a, keys, h), m)
    ensures !(m != 0 && |ret| >= m) ==> ret == own + ListingOf(nodes, keep, a, keys[..i + 1], h)
  {
    hide Listing, ListingOf;
    ListingSnoc(nodes, keep, a, keys, i, h);
    var x, y, z := ListingOf(nodes, keep, a, keys[..i], h), Listing(nodes, keep, nodes[a].children[keys[i]], h),
        ListingOf(nodes, keep, a, keys[i + 1..], h);
    assert own + x + y == own + (x + y);
    assert own + ListingOf(nodes, keep, a, keys, h) == (own + x + y) + z;
  }

  /** The first `m` results, or all of them when `m` is RETURN_ALL_CHILDS. */
  ghost function Limited(s: seq<ByteSeq>, m: nat): seq<ByteSeq> {
    if m == 0 || |s| <= m then s else s[..m]
  }

  lemma LimitedPrefix(s: seq<ByteSeq>, t: seq<ByteSeq>, m: nat)
    requires m != 0 && |s| == m
    ensures Limited(s + t, m) == s
  {
  }

  /** The file may grow by this much when a key is set: two splits or new leaves, and the write of the value. */
  const SET_ROOM := 5 * WRITE_ROOM

  lemma SetFacts(nodes: Nodes, up: Parents, B: nat, key: ByteSeq, data: ByteSeq, root: Node)
    requires WellFormed(nodes, up) && Fits(key, data, B)
    ensures Fits(key, [], B) && FindRoom(root, key) <= 4 * WRITE_ROOM
  {
  }

  lemma NodeFits(seqs: map<nat, Stored>, nodes: Nodes, up: Parents, kept: ByteSeq, B: nat, a: nat)
    requires TreeOk(seqs, nodes, up, kept, B) && a in nodes
    ensures a in seqs
  {
    hide Encode, EdgesOk, ParentsOk, MaxSize;
  }

  lemma DataStored(seqs1: map<nat, Stored>, seqs2: map<nat, Stored>, nodes: Nodes, up: Parents, kept: ByteSeq, B: nat,
      a: nat, data: ByteSeq)
    requires TreeOk(seqs1, nodes, up, kept, B) && a in nodes && Fits(nodes[a].key, data, B)
    requires Wrote(seqs1, seqs2, a, nodes[a].(data := data))
    ensures if a == ROOT then TreeOk(seqs2, nodes, up, data, B)
        else TreeOk(seqs2, nodes[a := nodes[a].(data := data)], up, kept, B)
  {
    hide Encode, EdgesOk, ParentsOk, MaxSize;
    DataWellFormed(nodes, up, a, data);
    var nodes' := nodes[a := nodes[a].(data := data)];
    var disk, disk' := OnDisk(nodes, kept), if a == ROOT then OnDisk(nodes, data) else OnDisk(nodes', kept);
    forall b | b in nodes' ensures StoredAs(seqs2, b, disk'[b]) && b < ADDR_LIMIT
        && Fits(nodes'[b].key, nodes'[b].data, B) {
      if b != a { assert StoredAs(seqs1, b, disk[b]); } else { assert a in nodes; }
    }
  }

  lemma DataTops(nodes: Nodes, a: nat, data: ByteSeq)
    requires a in nodes
    ensures Tops(nodes[a := nodes[a].(data := data)]) == Tops(nodes)
  {
  }

  lemma GrowNone(tops: map<Byte, ByteSeq>)
    ensures Grow(tops, []) == tops
  {
  }

  /** Only the root has the empty key, and its data survives the growing of the tree. */
  lemma RootOrNot(nodes: Nodes, up: Parents, a: nat, nodes0: Nodes)
    requires WellFormed(nodes, up) && a in nodes && ROOT in nodes0 && KeepsData(nodes0, nodes)
    ensures a == ROOT <==> nodes[a].key == []
    ensures nodes[ROOT].data == nodes0[ROOT].data
  {
    if nodes[a].key == [] { UniqueKeys(nodes, up, a, ROOT); }
  }

  lemma ReadFacts(nodes: Nodes, up: Parents, key: ByteSeq)
    requires WellFormed(nodes, up)
    ensures EdgesOk(nodes) && DataAt(nodes, key) == ValueOf(KeyMap(nodes, up), key)
    ensures Lookup(nodes, ROOT, key).Some? ==> Lookup(nodes, ROOT, key).value in nodes
  {
    LookupIsMap(nodes, up, key);
    if Lookup(nodes, ROOT, key).Some? { LookupFound(nodes, ROOT, key); }
  }

  lemma MapNonempty(nodes: Nodes, up: Parents)
    requires WellFormed(nodes, up)
    ensures forall k :: k in KeyMap(nodes, up) ==> KeyMap(nodes, up)[k] != []
  {
    forall k | k in KeyMap(nodes, up) ensures KeyMap(nodes, up)[k] != [] {
      var b := Holder(nodes, up, k);
    }
  }

  lemma {:induction false} ListingSnoc(nodes: Nodes, keep: Keep, a: nat, cs: seq<Byte>, i: nat, h: nat)
    requires EdgesOk(nodes) && Bounded(nodes, h) && a in nodes && (forall c :: c in cs ==> c in nodes[a].children)
        && i < |cs|
    ensures EdgeOk(nodes, a, cs[i])
    ensures ListingOf(nodes, keep, a, cs[..i + 1], h) == ListingOf(nodes, keep, a, cs[..i], h)
        + Listing(nodes, keep, nodes[a].children[cs[i]], h)
    ensures ListingOf(nodes, keep, a, cs[..i + 1], h) + ListingOf(nodes, keep, a, cs[i + 1..], h)
         == ListingOf(nodes, keep, a, cs, h)
  {
    hide Listing;
    assert EdgeOk(nodes, a, cs[0]) && EdgeOk(nodes, a, cs[i]);
    if i == 0 {
      assert cs[..1] == [cs[0]] && cs[..1][1..] == [];
    } else {
      ListingSnoc(nodes, keep, a, cs[1..], i - 1, h);
      assert cs[..i + 1][1..] == cs[1..][..i];
      assert cs[..i][1..] == cs[1..][..i - 1];
      assert cs[1..][i..] == cs[i + 1..];
    }
  }

  lemma ChildLonger(nodes: Nodes, a: nat, c: Byte, h: nat)
    requires EdgesOk(nodes) && Bounded(nodes, h) && a in nodes && c in nodes[a].children
    ensures var x := nodes[a].children[c]; x in nodes && |nodes[a].key| < |nodes[x].key| <= h
  {
    assert EdgeOk(nodes, a, c);
  }

  lemma KeepsSelf(nodes: Nodes)
    ensures KeepsData(nodes, nodes)
  {
  }

  lemma KeepsTrans(nodes: Nodes, nodes1: Nodes, nodes2: Nodes)
    ensures (nodes1 == nodes || KeepsData(nodes, nodes1)) && KeepsData(nodes1, nodes2) ==> KeepsData(nodes, nodes2)
  {
  }

  /** How many more times a find for `key` changes the tree: at most once to split an edge, once to add a leaf. */
  ghost function StepsLeft(n: Node, key: ByteSeq): nat {
    if key == n.key then 0 else if n.key <= key && Missing(n, key) then 1 else 2
  }

  /** By how much the file may grow in them. */
  ghost function FindRoom(n: Node, key: ByteSeq): nat {
    2 * WRITE_ROOM * StepsLeft(n, key)
  }

  /** What a find sees at node `a`. */
  lemma TreeShape(seqs: map<nat, Stored>, nodes: Nodes, up: Parents, kept: ByteSeq, B: nat)
    requires TreeOk(seqs, nodes, up, kept, B)
    ensures WellFormed(nodes, up)
  {
  }

  lemma PathFacts(nodes: Nodes, up: Parents, a: nat, key: ByteSeq)
    requires WellFormed(nodes, up) && a in nodes
    ensures EdgesOk(nodes) && nodes[ROOT].key == []
    ensures var n := NodeAt(nodes, a);
            && (key == n.key || !(n.key <= key) || Missing(n, key) || FindRoom(n, key) == 4 * WRITE_ROOM)
            && (!(n.key <= key) ==> FindRoom(n, key) == 4 * WRITE_ROOM)
            && (key != n.key && n.key <= key && Missing(n, key) ==> FindRoom(n, key) == 2 * WRITE_ROOM)
    ensures var k := nodes[a].key;
            && (CommonLength(k, key) >= |k| <==> k <= key)
            && CommonLength(k, key) <= |key| && CommonLength(k, key) <= |k|
            && (key == k ==> Lookup(nodes, a, key) == Some(a) && LastValid(nodes, a, key) == a)
            && (key != k && !(k <= key && key[|k|] in nodes[a].children) ==>
                  Lookup(nodes, a, key) == None && LastValid(nodes, a, key) == a)
  {
    CommonFacts(nodes[a].key, key);
    if nodes[a].key <= key { CommonAtLeast(nodes[a].key, key, nodes[a].key); }
  }

  /** Going down an edge brings the search nearer to the key. */
  lemma DescendFacts(nodes: Nodes, up: Parents, a: nat, key: ByteSeq)
    requires WellFormed(nodes, up) && a in nodes && nodes[a].key <= key && key != nodes[a].key
    requires key[|nodes[a].key|] in nodes[a].children
    ensures EdgesOk(nodes)
    ensures var x := nodes[a].children[key[|nodes[a].key|]];
            && x in nodes && x != ROOT && x != a && x in up && up[x] == a
            && CommonLength(nodes[x].key, key) > |nodes[a].key| && CommonLength(nodes[a].key, key) == |nodes[a].key|
            && CommonLength(nodes[x].key, key) <= |key|
            && FindRoom(NodeAt(nodes, x), key) <= 4 * WRITE_ROOM
                && (nodes[x].key == key ==> FindRoom(NodeAt(nodes, x), key) == 0)
            && Lookup(nodes, a, key) == Lookup(nodes, x, key) && LastValid(nodes, a, key) == LastValid(nodes, x, key)
  {
    var k, c := nodes[a].key, key[|nodes[a].key|];
    var x := nodes[a].children[c];
    assert EdgeOk(nodes, a, c);
    assert k + [c] <= key by { assert k + [c] == key[..|k| + 1]; }
    CommonAtLeast(nodes[x].key, key, k + [c]);
    CommonAtLeast(k, key, k);
    CommonFacts(k, key);
    CommonFacts(nodes[x].key, key);
    ChildParent(nodes, up, a, c);
  }

  /** Each node hangs on one edge only. */
  lemma ChildParent(nodes: Nodes, up: Parents, a: nat, c: Byte)
    requires WellFormed(nodes, up) && a in nodes && c in nodes[a].children
    ensures var x := nodes[a].children[c]; x in nodes && x != ROOT && x in up && up[x] == a
  {
    assert EdgeOk(nodes, a, c);
    var x := nodes[a].children[c];
    assert nodes[x].key != [];
    assert ParentOk(nodes, up, x);
    Reachable(nodes, up, a);
    Reachable(nodes, up, up[x]);
    OneParent(nodes, up, a, up[x], x);
  }

  /** Two nodes from which an edge leads to `x` are both on the way to it, hence one above the other, hence equal. */
  lemma OneParent(nodes: Nodes, up: Parents, a: nat, p: nat, x: nat)
    requires WellFormed(nodes, up) && a in nodes && p in nodes && x in nodes
    requires |nodes[a].key| < |nodes[x].key| && nodes[a].key <= nodes[x].key
    requires nodes[x].key[|nodes[a].key|] in nodes[a].children && nodes[a].children[nodes[x].key[|nodes[a].key|]] == x
    requires |nodes[p].key| < |nodes[x].key| && nodes[p].key <= nodes[x].key
    requires nodes[x].key[|nodes[p].key|] in nodes[p].children && nodes[p].children[nodes[x].key[|nodes[p].key|]] == x
    ensures a == p
  {
    var ka, kp, k := nodes[a].key, nodes[p].key, nodes[x].key;
    if |ka| == |kp| {
      assert ka == k[..|ka|] == kp;
      UniqueKeys(nodes, up, a, p);
    } else if |ka| < |kp| {
      assert ka + [k[|ka|]] == k[..|ka| + 1] == kp[..|ka| + 1];
      NoSkip(nodes, up, a, p, k[|ka|]);
      assert false;
    } else {
      assert kp + [k[|kp|]] == k[..|kp| + 1] == ka[..|kp| + 1];
      NoSkip(nodes, up, p, a, k[|kp|]);
      assert false;
    }
  }

  /** An edge skips no node: a node whose key continues along it has a key as long as the node it leads to. */
  lemma NoSkip(nodes: Nodes, up: Parents, a: nat, p: nat, c: Byte)
    requires WellFormed(nodes, up) && a in nodes && p in nodes && c in nodes[a].children
    requires nodes[a].key + [c] <= nodes[p].key
    ensures nodes[a].children[c] in nodes && nodes[nodes[a].children[c]].key <= nodes[p].key
  {
    Reachable(nodes, up, a);
    Reachable(nodes, up, p);
    assert nodes[a].key <= nodes[p].key;
    Through(nodes, ROOT, a, nodes[p].key);
    assert nodes[p].key[|nodes[a].key|] == c;
    assert EdgeOk(nodes, a, c);
    LookupFound(nodes, nodes[a].children[c], nodes[p].key);
  }

  /** The tree after a node `q` with key `prefix` was put between `p` and its child `x`. */
  ghost predicate SplitInto(nodes: Nodes, up: Parents, nodes': Nodes, up': Parents, p: nat, x: nat, q: nat,
      prefix: ByteSeq) {
    && p in nodes && x in nodes && |nodes[p].key| < |prefix| < |nodes[x].key|
    && nodes' == WithPrefix(nodes, p, x, q, prefix) && up' == up[q := p][x := q]
  }

  /** After a split the search goes on at the new node, whose key is a prefix of the key it looks for. */
  lemma SplitFacts(nodes: Nodes, nodes': Nodes, p: nat, x: nat, q: nat, prefix: ByteSeq, key: ByteSeq)
    requires p in nodes && x in nodes && |nodes[p].key| < |prefix| < |nodes[x].key|
    requires prefix <= key && prefix <= nodes[x].key && |prefix| == CommonLength(nodes[x].key, key)
    requires q != p && nodes' == WithPrefix(nodes, p, x, q, prefix)
    ensures CommonLength(prefix, key) == |prefix| && CommonLength(nodes[x].key, key) <= |key|
    ensures q in nodes' && nodes'[q].key == prefix && p in nodes' && nodes'[p].key == nodes[p].key
    ensures FindRoom(NodeAt(nodes', q), key) <= 2 * WRITE_ROOM
  {
    CommonAtLeast(prefix, key, prefix);
    CommonFacts(prefix, key);
    CommonFacts(nodes[x].key, key);
  }

  /** Going down to a child, there already or just made, the first edges are as they will be. */
  lemma ViaDown(nodes: Nodes, up: Parents, nodes': Nodes, a: nat, p: nat, x: nat, key: ByteSeq)
    requires WellFormed(nodes, up) && a in nodes && nodes[a].key <= key && |nodes[a].key| < |key|
    requires a != ROOT ==> a in up && up[a] == p
    requires var c := key[|nodes[a].key|];
             if c in nodes[a].children then nodes' == nodes && x == nodes[a].children[c]
             else x !in nodes && nodes' == WithLeaf(nodes, a, x, key)
    ensures TopsVia(nodes', x, a, key) == TopsVia(nodes, a, p, key)
    ensures key[|nodes[a].key|] !in nodes[a].children ==>
              Tops(nodes') == TopsVia(nodes, a, p, key) && (a == ROOT <==> Tops(nodes') != Tops(nodes))
  {
    hide EdgesOk, ParentsOk, Tops;
    var c := key[|nodes[a].key|];
    if c !in nodes[a].children {
      ViaLeaf(nodes, up, nodes', a, p, x, key);
      if a != ROOT { ViaStays(nodes, up, a, p, key); }
    } else if a == ROOT {
      ViaChild(nodes, up, key);
    } else {
      ViaStays(nodes, up, a, p, key);
      ChildParent(nodes, up, a, c);
    }
  }

  lemma SplitTops(nodes: Nodes, up: Parents, nodes': Nodes, p: nat, x: nat, q: nat, prefix: ByteSeq, key: ByteSeq)
    requires WellFormed(nodes, up) && p in nodes && x in nodes && x != ROOT && q !in nodes && x in up && up[x] == p
    requires |nodes[p].key| < |prefix| < |nodes[x].key| && prefix <= nodes[x].key && |prefix|
        == CommonLength(nodes[x].key, key)
    requires nodes' == WithPrefix(nodes, p, x, q, prefix)
    ensures TopsVia(nodes', q, p, key) == TopsVia(nodes, x, p, key)
    ensures Tops(nodes') == TopsVia(nodes, x, p, key) && (p == ROOT <==> Tops(nodes') != Tops(nodes))
  {
    hide EdgesOk, ParentsOk, Tops, CommonLength;
    assert prefix == Shared(nodes[x].key, key);
    ViaPrefix(nodes, up, nodes', p, x, q, prefix, key);
  }

  lemma ParentAndChild(seqs: map<nat, Stored>, nodes: Nodes, up: Parents, kept: ByteSeq, B: nat, p: nat, x: nat,
      prefix: ByteSeq)
    requires TreeOk(seqs, nodes, up, kept, B) && p in nodes && x in nodes && x != ROOT && |prefix| <= |nodes[x].key|
    ensures ParentOk(nodes, up, x) && p in seqs && Fits(nodes[p].key, nodes[p].data, B) && Fits(prefix, [], B)
  {
    hide Encode, EdgesOk;
    assert ParentOk(nodes, up, x);
    assert Fits(nodes[x].key, nodes[x].data, B);
  }

  lemma WroteKeeps(seqs1: map<nat, Stored>, seqs2: map<nat, Stored>, p: nat, b: Body, q: nat)
    requires Wrote(seqs1, seqs2, p, b) && q in seqs1
    ensures q in seqs2
  {
    hide Encode;
  }

  /** `n` has no child on the way to `key`. */
  ghost predicate Missing(n: Node, key: ByteSeq) {
    |key| > |n.key| && key[|n.key|] !in n.children
  }

  lemma ParentStored(seqs0: map<nat, Stored>, seqs1: map<nat, Stored>, nodes: Nodes, up: Parents, kept: ByteSeq,
      B: nat, p: nat, a: nat, b: Body)
    requires TreeOk(seqs0, nodes, up, kept, B) && p in nodes && Wrote(seqs0, seqs1, a, b)
    ensures p in seqs1 && p < ADDR_LIMIT && Fits(nodes[p].key, nodes[p].data, B)
  {
    hide Encode, EdgesOk, ParentsOk, MaxSize;
  }

  lemma ChildStored(seqs: map<nat, Stored>, nodes: Nodes, up: Parents, kept: ByteSeq, B: nat, p: nat, c: Byte)
    requires TreeOk(seqs, nodes, up, kept, B) && p in nodes && c in nodes[p].children
    ensures var x := nodes[p].children[c];
            && x in nodes && StoredAs(seqs, x, nodes[x]) && Fits(nodes[x].key, nodes[x].data, B)
            && forall d :: d in nodes[x].children ==> nodes[x].children[d] < ADDR_LIMIT
    ensures EdgeOk(nodes, p, c)
  {
    hide Encode, ParentsOk, MaxSize, StoredAs;
    var x := nodes[p].children[c];
    assert EdgeOk(nodes, p, c);
    assert nodes[x].key != [] && x != ROOT;
    assert StoredAs(seqs, x, OnDisk(nodes, kept)[x]);
    ChildrenFit(nodes, B, x);
  }

  lemma NewAddress(f: ByteSeq, B: nat, L: Layout, f': ByteSeq, M: Layout, a: nat)
    requires DiskOk(f, B, L) && DiskOk(f', B, M) && IsNewSequence(L, M, a)
    ensures a !in View(f, B, L) && a < ADDR_LIMIT
  {
    hide LiveOk, Linked;
    BlockAddress(f', B, M, a, 0);
  }

  /** A write at offset 0 with release replaces the bytes of the sequence. */
  lemma WroteNode(seqs0: map<nat, Stored>, seqs1: map<nat, Stored>, seqs2: map<nat, Stored>, a: nat, b: Body)
    requires seqs1 == seqs0 || (a !in seqs0 && a in seqs1 && seqs1 == seqs0[a := seqs1[a]])
    requires a in seqs1 && seqs1[a].Fits() && a in seqs2 && seqs2[a].Fits() && seqs2 == seqs1[a := seqs2[a]]
    requires seqs2[a].Data() == Written(seqs1[a], 0, Encode(b), true)
    ensures Wrote(seqs0, seqs2, a, b)
  {
    hide Encode;
    assert Written(seqs1[a], 0, Encode(b), true) == Encode(b);
  }
}
