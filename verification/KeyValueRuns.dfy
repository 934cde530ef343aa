/** Whole runs of the key-value store: the prefix tree on the block file answers like a plain map, but for the empty
    key, whose value is kept in a node of which the session has a copy
    (sources/misc/prefixtree/prefixtree.h:382-518). */
module KeyValueRuns {
  import opened Bytes
  import opened Disk
  import opened FileMeaning
  import opened FileStores
  import opened FirstEdges
  import opened NodeCodec
  import opened Tries
  import opened PrefixTrees
  import opened TrieSearch

  datatype Op =
    | Set(key: ByteSeq, value: ByteSeq)
    | Remove(key: ByteSeq)
    | Get(key: ByteSeq)
    | Exists(key: ByteSeq)
    | Search(prefix: ByteSeq, limit: nat)
    | Reopen

  datatype Answer = Done | Value(value: ByteSeq) | Found(found: bool) | Keys(keys: seq<ByteSeq>)

  // ----- The store as its users can think of it -----

  /** `live` is the map from which all answers come, `kept` the value of the empty key in the file, and `tops` the keys
      to which the edges at the root lead. */
  datatype Model = Model(live: map<ByteSeq, ByteSeq>, kept: ByteSeq, tops: map<Byte, ByteSeq>)

  const EMPTY := Model(map[], [], map[])

  /** The map in the file. */
  ghost function OnFile(m: Model): map<ByteSeq, ByteSeq> {
    Updated(m.live, [], m.kept)
  }

  /** A value for the empty key goes to the file only.  Another key that changes the edges at the root has the root
      stored again, with the value that the session has for the empty key. */
  ghost function Stored(m: Model, key: ByteSeq, value: ByteSeq): Model {
    if key == [] then m.(kept := value) else
    var tops := Grow(m.tops, key);
    Model(Updated(m.live, key, value), KeptAfter(m.tops, tops, m.kept, ValueOf(m.live, [])), tops)
  }

  ghost function Next(m: Model, op: Op): Model {
    match op
    case Set(k, v) => Stored(m, k, v)
    case Remove(k) => Stored(m, k, [])
    case Reopen => m.(live := OnFile(m))
    case _ => m
  }

  ghost function After(ops: seq<Op>): Model {
    if ops == [] then EMPTY else Next(After(ops[..|ops| - 1]), ops[|ops| - 1])
  }

  /** What a plain map answers. */
  ghost predicate Matches(m: map<ByteSeq, ByteSeq>, op: Op, answer: Answer) {
    match op
    case Get(k) => answer == Value(ValueOf(m, k))
    case Exists(k) => answer == Found(k in m)
    case Search(p, n) => answer.Keys? && FirstWithPrefix(m, p, n, answer.keys)
    case _ => answer == Done
  }

  ghost predicate AnswersAsModelled(ops: seq<Op>, answers: seq<Answer>) {
    |answers| <= |ops| && forall i :: 0 <= i < |answers| ==> Matches(After(ops[..i]).live, ops[i], answers[i])
  }

  // ----- A plain map -----

  ghost function PlainNext(m: map<ByteSeq, ByteSeq>, op: Op): map<ByteSeq, ByteSeq> {
    match op
    case Set(k, v) => Updated(m, k, v)
    case Remove(k) => Updated(m, k, [])
    case _ => m
  }

  ghost function Plain(ops: seq<Op>): map<ByteSeq, ByteSeq> {
    if ops == [] then map[] else PlainNext(Plain(ops[..|ops| - 1]), ops[|ops| - 1])
  }

  /** Equal for all keys but the empty one. */
  ghost predicate SameBelow(m: map<ByteSeq, ByteSeq>, n: map<ByteSeq, ByteSeq>) {
    forall k :: k != [] ==> (k in m <==> k in n) && (k in m ==> m[k] == n[k])
  }

  lemma {:induction false} NonemptyKeys(ops: seq<Op>)
    ensures SameBelow(After(ops).live, Plain(ops))
    decreases |ops|
  {
    if ops != [] { NonemptyKeys(ops[..|ops| - 1]); }
  }

  /** The operation is about keys that are not empty. */
  predicate Nonempty(op: Op) {
    match op
    case Get(k) => k != []
    case Exists(k) => k != []
    case Search(p, _) => p != []
    case _ => true
  }

  lemma SameAnswer(m: map<ByteSeq, ByteSeq>, n: map<ByteSeq, ByteSeq>, op: Op, answer: Answer)
    requires SameBelow(m, n) && Nonempty(op) && Matches(m, op, answer)
    ensures Matches(n, op, answer)
  {
    if op.Search? {
      var all :| AllWithPrefix(m, op.prefix, all) && answer.keys == Limited(all, op.limit);
      forall k ensures k in all <==> k in n && op.prefix <= k { assert k in all <==> k in m && op.prefix <= k; }
      assert AllWithPrefix(n, op.prefix, all);
    }
  }

  /** In every run, whatever is done with the empty key, every answer about other keys is the plain map's. */
  lemma AnswersLikeAMap(ops: seq<Op>, answers: seq<Answer>, i: nat)
    requires AnswersAsModelled(ops, answers) && i < |answers| && Nonempty(ops[i])
    ensures Matches(Plain(ops[..i]), ops[i], answers[i])
  {
    hide Matches, After, Plain;
    NonemptyKeys(ops[..i]);
    SameAnswer(After(ops[..i]).live, Plain(ops[..i]), ops[i], answers[i]);
  }

  /** When the empty key is never given a value, the store is the plain map. */
  lemma {:induction false} PlainRun(ops: seq<Op>)
    requires forall v :: Set([], v) in ops ==> v == []
    ensures After(ops).live == Plain(ops) && OnFile(After(ops)) == Plain(ops) && [] !in Plain(ops)
    decreases |ops|
  {
    if ops != [] {
      var op := ops[|ops| - 1];
      assert op in ops;
      PlainRun(ops[..|ops| - 1]);
    }
  }

  /** Then every answer is the plain map's, also about the empty key. */
  lemma PlainAnswers(ops: seq<Op>, answers: seq<Answer>, i: nat)
    requires (forall v :: Set([], v) in ops ==> v == []) && AnswersAsModelled(ops, answers) && i < |answers|
    ensures Matches(Plain(ops[..i]), ops[i], answers[i])
  {
    hide Matches, After, Plain;
    forall v | Set([], v) in ops[..i] ensures v == [] { assert Set([], v) in ops; }
    PlainRun(ops[..i]);
  }

  lemma AfterSnoc(ops: seq<Op>, i: nat)
    requires i < |ops|
    ensures After(ops[..i + 1]) == Next(After(ops[..i]), ops[i])
  {
    assert ops[..i + 1][..i] == ops[..i];
  }

  // ----- The tree -----

  /** The tree stands for the model. */
  ghost predicate StandsFor(tree: PrefixTree, m: Model)
    reads tree, tree.storage, tree.rootNode
  {
    tree.Valid() && tree.Map() == m.live && tree.kept == m.kept && Tops(tree.nodes) == m.tops
  }

  /** Keys and values fit in 32-bit sizes. */
  ghost predicate Allowed(op: Op, B: nat) {
    match op
    case Set(k, v) => Fits(k, v, B)
    case Remove(k) => Fits(k, [], B)
    case _ => true
  }

  lemma RootValue(nodes: Nodes, up: Parents)
    requires WellFormed(nodes, up)
    ensures nodes[ROOT].data == ValueOf(KeyMap(nodes, up), [])
  {
    LookupIsMap(nodes, up, []);
  }

  /** A writing operation. */
  method Write(tree: PrefixTree, op: Op, ghost m: Model)
    requires StandsFor(tree, m) && (op.Set? || op.Remove?) && Allowed(op, tree.storage.blockSize)
    requires |tree.storage.file| + SET_ROOM <= ADDR_LIMIT
    modifies tree`nodes, tree`up, tree`kept, tree.storage, tree.rootNode
    ensures StandsFor(tree, Next(m, op)) && |tree.storage.file| <= |old(tree.storage.file)| + SET_ROOM
  {
    hide KeyMap, Fits, DiskOk, View, Word, Tops, Grow, Updated, EdgesOk, ParentsOk, Stores, NodesFit;
    RootValue(tree.nodes, tree.up);
    GrowNone(m.tops);
    match op
    case Set(key, value) =>
      tree.Set(key, value);
    case Remove(key) =>
      tree.Remove(key);
      RemovedIs(m.live, key);
  }

  lemma RemovedIs(m: map<ByteSeq, ByteSeq>, key: ByteSeq)
    ensures Updated(m, key, []) == m - {key}
  {
  }

  /** A reading operation changes no byte of the file. */
  method Ask(tree: PrefixTree, op: Op, ghost m: Model) returns (answer: Answer)
    requires StandsFor(tree, m) && (op.Get? || op.Exists? || op.Search?)
    modifies tree`nodes, tree`up, tree`kept, tree.storage, tree.rootNode
    ensures StandsFor(tree, m) && tree.storage.file == old(tree.storage.file)
    ensures Matches(m.live, op, answer)
  {
    hide KeyMap, FirstWithPrefix, TreeOk, DiskOk, View, Word, Tops;
    match op
    case Get(key) =>
      var value := tree.Get(key, []);
      answer := Value(value);
    case Exists(key) =>
      var found := tree.Exists(key);
      answer := Found(found);
    case Search(prefix, limit) =>
      var keys := tree.SearchChilds(prefix, limit, WITH_DATA);
      answer := Keys(keys);
  }

  /** Closing the file and opening the same bytes again: the session now has the stored root. */
  method ReopenTree(tree: PrefixTree, ghost m: Model) returns (tree': PrefixTree)
    requires StandsFor(tree, m)
    ensures fresh(tree') && fresh(tree'.storage) && fresh(tree'.rootNode)
    ensures StandsFor(tree', m.(live := OnFile(m))) && tree'.Coherent()
    ensures tree'.storage.file == tree.storage.file && tree'.storage.blockSize == tree.storage.blockSize
  {
    hide DiskOk, View, KeyMap, Encode, WellFormed, NodesFit, Tops, TreeOk, TreeStored, Updated;
    var storage := new FileStorage.Open(tree.storage.blockSize, tree.storage.file, tree.storage.L);
    ghost var disk := OnDisk(tree.nodes, tree.kept);
    DiskStored(storage.Seqs(), tree.nodes, tree.up, tree.kept, storage.blockSize);
    tree' := new PrefixTree(storage, disk, tree.up);
    StoredCoherent(tree'.storage.Seqs(), disk, tree.up, tree'.kept, tree.kept, storage.blockSize, tree'.rootNode.n);
  }

  lemma DiskStored(seqs: map<nat, Stored>, nodes: Nodes, up: Parents, kept: ByteSeq, B: nat)
    requires TreeOk(seqs, nodes, up, kept, B)
    ensures var disk := OnDisk(nodes, kept);
            && TreeStored(seqs, disk, up, B) && ROOT in seqs && seqs[ROOT].size != 0
            && WellFormed(nodes, up) && WellFormed(disk, up) && KeyMap(disk, up) == Updated(KeyMap(nodes, up), [], kept)
            && Tops(disk) == Tops(nodes) && ROOT in disk && disk[ROOT].data == kept
  {
    hide EdgesOk, ParentsOk, Encode, KeyMap, Updated, Tops;
    var disk := OnDisk(nodes, kept);
    SetData(nodes, up, ROOT, kept);
    DataTops(nodes, ROOT, kept);
    assert OnDisk(disk, kept) == disk;
    assert StoredAs(seqs, ROOT, disk[ROOT]);
    EncodeSize(disk[ROOT]);
  }

  lemma StoredCoherent(seqs: map<nat, Stored>, disk: Nodes, up: Parents, kept': ByteSeq, kept: ByteSeq, B: nat,
      root: Node)
    requires ROOT in disk && disk[ROOT].data == kept && root == NodeAt(disk, ROOT) && kept' == root.data
    ensures kept' == kept
  {
  }

  /** The file holds a tree that stands for the map. */
  ghost predicate HoldsAs(f: ByteSeq, B: nat, L: Layout, nodes: Nodes, up: Parents, m: map<ByteSeq, ByteSeq>) {
    DiskOk(f, B, L) && TreeStored(View(f, B, L), nodes, up, B) && KeyMap(nodes, up) == m
  }

  ghost predicate FileHolds(f: ByteSeq, B: nat, m: map<ByteSeq, ByteSeq>) {
    exists L, nodes, up :: HoldsAs(f, B, L, nodes, up, m)
  }

  /** It does so for one map at most. */
  lemma FileHoldsOne(f: ByteSeq, B: nat, m: map<ByteSeq, ByteSeq>, n: map<ByteSeq, ByteSeq>)
    requires FileHolds(f, B, m) && FileHolds(f, B, n)
    ensures m == n
  {
    hide DiskOk, View, TreeStored, KeyMap;
    var L, nodes, up :| HoldsAs(f, B, L, nodes, up, m);
    var L', nodes', up' :| HoldsAs(f, B, L', nodes', up', n);
    FileDeterminesMap(f, B, L, nodes, up, L', nodes', up');
  }

  lemma TreeHolds(tree: PrefixTree, m: Model)
    requires StandsFor(tree, m)
    ensures FileHolds(tree.storage.file, tree.storage.blockSize, OnFile(m))
  {
    hide DiskOk, View, KeyMap, Encode, WellFormed, NodesFit, Tops, TreeOk, TreeStored, Updated;
    var s := tree.storage;
    DiskStored(s.Seqs(), tree.nodes, tree.up, tree.kept, s.blockSize);
    assert HoldsAs(s.file, s.blockSize, s.L, OnDisk(tree.nodes, tree.kept), tree.up, OnFile(m));
  }

  // ----- Runs -----

  /** One operation of a run. */
  method Execute(tree: PrefixTree, op: Op, ghost m: Model) returns (tree': PrefixTree, answer: Answer)
    requires StandsFor(tree, m) && Allowed(op, tree.storage.blockSize)
    requires op.Set? || op.Remove? ==> |tree.storage.file| + SET_ROOM <= ADDR_LIMIT
    modifies tree`nodes, tree`up, tree`kept, tree.storage, tree.rootNode
    ensures tree' == tree || (fresh(tree') && fresh(tree'.storage) && fresh(tree'.rootNode))
    ensures StandsFor(tree', Next(m, op)) && Matches(m.live, op, answer)
    ensures tree'.storage.blockSize == tree.storage.blockSize
    ensures |tree'.storage.file| <= |old(tree.storage.file)| + if op.Set? || op.Remove? then SET_ROOM else 0
  {
    hide StandsFor, Allowed, Stored, OnFile, FirstWithPrefix;
    tree', answer := tree, Done;
    if op.Set? || op.Remove? {
      Write(tree, op, m);
    } else if op.Reopen? {
      tree' := ReopenTree(tree, m);
    } else {
      answer := Ask(tree, op, m);
    }
  }

  /** By how much the file may grow in a run. */
  function WritesRoom(ops: seq<Op>): nat
    decreases |ops|
  {
    if ops == [] then 0 else
    var last := ops[|ops| - 1];
    WritesRoom(ops[..|ops| - 1]) + if last.Set? || last.Remove? then SET_ROOM else 0
  }

  lemma {:induction false} WritesRoomUpTo(ops: seq<Op>, i: nat)
    requires i < |ops|
    ensures WritesRoom(ops[..i + 1]) == WritesRoom(ops[..i]) + if ops[i].Set? || ops[i].Remove? then SET_ROOM else 0
    ensures WritesRoom(ops[..i + 1]) <= WritesRoom(ops)
    decreases |ops| - i
  {
    assert ops[..i + 1][..i] == ops[..i];
    if i + 1 < |ops| {
      WritesRoomUpTo(ops, i + 1);
    } else {
      assert ops[..i + 1] == ops;
    }
  }

  /** For every sequence of operations on a new file, with the file closed and opened again wherever the sequence
      says so: the answers are as modelled, the bytes left behind hold the map that the model says, every operation is
      answered while the file has room below 2^64 bytes, and a run that stops early stops at a write, for lack of it. */
  method Run(blockSize: nat, ops: seq<Op>) returns (answers: seq<Answer>, file: ByteSeq)
    requires FIRST < blockSize && Fits([], [], blockSize)
    requires forall op :: op in ops ==> Allowed(op, blockSize)
    ensures AnswersAsModelled(ops, answers)
    ensures FileHolds(file, blockSize, OnFile(After(ops[..|answers|])))
    ensures |answers| < |ops| ==> (ops[|answers|].Set? || ops[|answers|].Remove?) && |file| + SET_ROOM > ADDR_LIMIT
    ensures HEADER + blockSize + WRITE_ROOM + WritesRoom(ops) <= ADDR_LIMIT ==> |answers| == |ops|
  {
    hide Matches, StandsFor, Next, AnswersAsModelled, After, Allowed, WritesRoom, OnFile, FileHolds;
    var tree := NewTreeOnFile(blockSize);
    answers := [];
    NothingYet(ops);
    for i := 0 to |ops|
      invariant fresh(tree) && fresh(tree.storage) && fresh(tree.rootNode) && tree.storage.blockSize == blockSize
      invariant StandsFor(tree, After(ops[..i])) && |answers| == i && AnswersAsModelled(ops, answers)
      invariant |tree.storage.file| <= HEADER + blockSize + WRITE_ROOM + WritesRoom(ops[..i])
    {
      WritesRoomUpTo(ops, i);
      if (ops[i].Set? || ops[i].Remove?) && |tree.storage.file| + SET_ROOM > ADDR_LIMIT {
        file := tree.storage.file;
        TreeHolds(tree, After(ops[..i]));
        return;
      }
      ghost var m := After(ops[..i]);
      var answer;
      tree, answer := Execute(tree, ops[i], m);
      AnswersSnoc(ops, answers, answer);
      answers := answers + [answer];
    }
    file := tree.storage.file;
    TreeHolds(tree, After(ops[..|ops|]));
  }

  method NewTreeOnFile(blockSize: nat) returns (tree: PrefixTree)
    requires FIRST < blockSize && Fits([], [], blockSize)
    ensures fresh(tree) && fresh(tree.storage) && fresh(tree.rootNode) && tree.storage.blockSize == blockSize
    ensures StandsFor(tree, EMPTY) && |tree.storage.file| <= HEADER + blockSize + WRITE_ROOM
  {
    hide DiskOk, View, KeyMap, TreeOk, Fits, Word;
    SmallBlocks(blockSize);
    var storage := new FileStorage.Create(blockSize);
    tree := new PrefixTree(storage, map[], map[]);
    EmptyRoot(storage.Seqs(), tree.nodes, tree.up, tree.kept, blockSize, tree.rootNode.n);
  }

  lemma EmptyRoot(seqs: map<nat, Stored>, nodes: Nodes, up: Parents, kept: ByteSeq, B: nat, root: Node)
    requires nodes == map[ROOT := Body([], [], map[])] && root == NodeAt(nodes, ROOT) && kept == root.data
    ensures Tops(nodes) == map[] && kept == []
  {
  }

  lemma NothingYet(ops: seq<Op>)
    ensures After(ops[..0]) == EMPTY && AnswersAsModelled(ops, []) && WritesRoom(ops[..0]) == 0
  {
  }

  lemma AnswersSnoc(ops: seq<Op>, answers: seq<Answer>, answer: Answer)
    requires |answers| < |ops| && AnswersAsModelled(ops, answers)
    requires Matches(After(ops[..|answers|]).live, ops[|answers|], answer)
    ensures AnswersAsModelled(ops, answers + [answer])
    ensures After(ops[..|answers| + 1]) == Next(After(ops[..|answers|]), ops[|answers|])
  {
    hide Matches, Next;
    AfterSnoc(ops, |answers|);
  }

  lemma SmallBlocks(B: nat)
    requires Fits([], [], B)
    ensures HEADER + B + WRITE_ROOM <= ADDR_LIMIT
  {
  }

  // ----- The empty key -----

  lemma AfterFive(a: Op, b: Op, c: Op, d: Op, e: Op)
    ensures var ops := [a, b, c, d, e];
            && After(ops[..1]) == Next(EMPTY, a) && After(ops[..2]) == Next(After(ops[..1]), b)
            && After(ops[..3]) == Next(After(ops[..2]), c) && After(ops[..4]) == Next(After(ops[..3]), d)
  {
    hide Next;
    var ops := [a, b, c, d, e];
    assert ops[..0] == [];
    AfterSnoc(ops, 0);
    AfterSnoc(ops, 1);
    AfterSnoc(ops, 2);
    AfterSnoc(ops, 3);
  }

  /** A value of the empty key is not seen until the file is opened again; and when another key adds an edge at the root
      in between, it is lost. */
  lemma EmptyKeyModel(k: ByteSeq, v: ByteSeq, w: ByteSeq)
    requires k != [] && v != []
    ensures var late, lost := [Set([], v), Get([]), Reopen, Get([]), Get(k)],
        [Set([], v), Set(k, w), Reopen, Get([]), Get(k)];
            && After(late[..1]).live == map[] && ValueOf(After(late[..3]).live, []) == v
            && ValueOf(After(late[..4]).live, k) == []
            && ValueOf(After(lost[..3]).live, []) == [] && ValueOf(After(lost[..4]).live, k) == w
  {
    AfterFive(Set([], v), Get([]), Reopen, Get([]), Get(k));
    AfterFive(Set([], v), Set(k, w), Reopen, Get([]), Get(k));
    assert Grow(map[], k) == map[k[0] := k] != map[];
  }

  /** Two such runs. */
  method EmptyKeyIsStale() returns (late: seq<Answer>, lost: seq<Answer>)
    ensures late == [Done, Value([]), Done, Value([65]), Value([])]
    ensures lost == [Done, Done, Done, Value([]), Value([67])]
  {
    hide After, FileHolds, WritesRoom;
    var one, two := [Set([], [65]), Get([]), Reopen, Get([]), Get([66])],
        [Set([], [65]), Set([66], [67]), Reopen, Get([]), Get([66])];
    EmptyKeyModel([66], [65], [67]);
    SmallRuns(one, two);
    var file;
    late, file := Run(64, one);
    lost, file := Run(64, two);
  }

  lemma {:induction false} WritesRoomAtMost(ops: seq<Op>)
    ensures WritesRoom(ops) <= |ops| * SET_ROOM
    decreases |ops|
  {
    if ops != [] { WritesRoomAtMost(ops[..|ops| - 1]); }
  }

  lemma SmallRuns(one: seq<Op>, two: seq<Op>)
    requires |one| == |two| == 5
    ensures HEADER + 64 + WRITE_ROOM + WritesRoom(one) <= ADDR_LIMIT
        && HEADER + 64 + WRITE_ROOM + WritesRoom(two) <= ADDR_LIMIT
  {
    hide WritesRoom;
    WritesRoomAtMost(one);
    WritesRoomAtMost(two);
  }
}
