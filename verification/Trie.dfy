/** The path-compressed trie as a graph of nodes, apart from how nodes are stored
    (sources/misc/prefixtree/prefixtree.h). */
module Tries {
  import opened Bytes
  import opened NodeCodec
  import opened Options

  /** The address of the root node: the first block of the file. */
  const ROOT := 16

  type Nodes = map<nat, Body>
  /** The parent of each node but the root. */
  type Parents = map<nat, nat>

  /** An edge labelled `c` leads to a node whose key extends the parent's key with `c` next. */
  ghost predicate EdgeOk(nodes: Nodes, a: nat, c: Byte)
    requires a in nodes && c in nodes[a].children
  {
    var b := nodes[a].children[c];
    b in nodes && nodes[a].key + [c] <= nodes[b].key
  }

  ghost predicate EdgesOk(nodes: Nodes) {
    forall a, c {:trigger EdgeOk(nodes, a, c)} :: a in nodes && c in nodes[a].children ==> EdgeOk(nodes, a, c)
  }

  ghost predicate ParentOk(nodes: Nodes, up: Parents, a: nat)
    requires a in nodes
  {
    && a in up && up[a] in nodes
    && var p, k := nodes[up[a]], nodes[a].key;
    && |p.key| < |k| && p.key <= k && k[|p.key|] in p.children && p.children[k[|p.key|]] == a
  }

  ghost predicate ParentsOk(nodes: Nodes, up: Parents) {
    forall a {:trigger ParentOk(nodes, up, a)} :: a in nodes && a != ROOT ==> ParentOk(nodes, up, a)
  }

  ghost predicate WellFormed(nodes: Nodes, up: Parents) {
    ROOT in nodes && nodes[ROOT].key == [] && EdgesOk(nodes) && ParentsOk(nodes, up)
  }

  /** find in read-only mode, from node `a` on. */
  ghost function Lookup(nodes: Nodes, a: nat, key: ByteSeq): Option<nat>
    requires EdgesOk(nodes) && a in nodes
    decreases |key| - |nodes[a].key|
  {
    var k := nodes[a].key;
    if key == k then Some(a)
    else if k <= key && key[|k|] in nodes[a].children then
      assert EdgeOk(nodes, a, key[|k|]);
      Lookup(nodes, nodes[a].children[key[|k|]], key)
    else None
  }

  /** The node at which find in read-only mode stops. */
  ghost function LastValid(nodes: Nodes, a: nat, key: ByteSeq): (b: nat)
    requires EdgesOk(nodes) && a in nodes
    ensures b in nodes
    decreases |key| - |nodes[a].key|
  {
    var k := nodes[a].key;
    if key == k then a
    else if k <= key && key[|k|] in nodes[a].children then
      assert EdgeOk(nodes, a, key[|k|]);
      LastValid(nodes, nodes[a].children[key[|k|]], key)
    else a
  }

  lemma {:induction false} LookupFound(nodes: Nodes, a: nat, key: ByteSeq)
    requires EdgesOk(nodes) && a in nodes && Lookup(nodes, a, key).Some?
    ensures var b := Lookup(nodes, a, key).value; b in nodes && nodes[b].key == key && nodes[a].key <= key
    decreases |key| - |nodes[a].key|
  {
    var k := nodes[a].key;
    if key != k {
      assert EdgeOk(nodes, a, key[|k|]);
      LookupFound(nodes, nodes[a].children[key[|k|]], key);
    }
  }

  /** A search that would find node `x` passes through it on the way to every longer key. */
  lemma {:induction false} Through(nodes: Nodes, a: nat, x: nat, key: ByteSeq)
    requires EdgesOk(nodes) && a in nodes && x in nodes
    requires Lookup(nodes, a, nodes[x].key) == Some(x) && nodes[x].key <= key
    ensures Lookup(nodes, a, key) == Lookup(nodes, x, key)
    decreases |nodes[x].key| - |nodes[a].key|
  {
    var k := nodes[a].key;
    LookupFound(nodes, a, nodes[x].key);
    if nodes[x].key != k {
      assert EdgeOk(nodes, a, nodes[x].key[|k|]);
      Through(nodes, nodes[a].children[nodes[x].key[|k|]], x, key);
      assert key[|k|] == nodes[x].key[|k|];
    }
  }

  /** Every node is reached from the root by its key. */
  lemma {:induction false} Reachable(nodes: Nodes, up: Parents, a: nat)
    requires WellFormed(nodes, up) && a in nodes
    ensures Lookup(nodes, ROOT, nodes[a].key) == Some(a)
    decreases |nodes[a].key|
  {
    if a != ROOT {
      assert ParentOk(nodes, up, a);
      var p := up[a];
      Reachable(nodes, up, p);
      Through(nodes, ROOT, p, nodes[a].key);
      assert EdgeOk(nodes, p, nodes[a].key[|nodes[p].key|]);
      assert Lookup(nodes, a, nodes[a].key) == Some(a);
    }
  }

  /** Keys are unique. */
  lemma UniqueKeys(nodes: Nodes, up: Parents, a: nat, b: nat)
    requires WellFormed(nodes, up) && a in nodes && b in nodes && nodes[a].key == nodes[b].key
    ensures a == b
  {
    Reachable(nodes, up, a);
    Reachable(nodes, up, b);
  }

  /** The abstract value of a tree: its keys with nonempty data. */
  ghost function KeyMap(nodes: Nodes, up: Parents): map<ByteSeq, ByteSeq>
    requires WellFormed(nodes, up)
  {
    assert forall a, b :: a in nodes && b in nodes && nodes[a].key == nodes[b].key ==> a == b by {
      forall a, b | a in nodes && b in nodes && nodes[a].key == nodes[b].key
          ensures a == b { UniqueKeys(nodes, up, a, b); }
    }
    map a | a in nodes && nodes[a].data != [] :: nodes[a].key := nodes[a].data
  }

  lemma ValueAt(nodes: Nodes, up: Parents, a: nat)
    requires WellFormed(nodes, up) && a in nodes && nodes[a].data != []
    ensures nodes[a].key in KeyMap(nodes, up) && KeyMap(nodes, up)[nodes[a].key] == nodes[a].data
  {
    hide EdgesOk, ParentsOk;
    forall b | b in nodes && nodes[b].key == nodes[a].key ensures a == b { UniqueKeys(nodes, up, a, b); }
    assert exists b :: b in nodes && nodes[b].data != [] && nodes[b].key == nodes[a].key;
  }

  ghost function ValueOf(m: map<ByteSeq, ByteSeq>, key: ByteSeq): ByteSeq {
    if key in m then m[key] else []
  }

  /** The data a read-only search from the root comes back with; nothing when it fails. */
  ghost function DataAt(nodes: Nodes, key: ByteSeq): ByteSeq
    requires EdgesOk(nodes) && ROOT in nodes
  {
    var r := Lookup(nodes, ROOT, key);
    if r.Some? && r.value in nodes then nodes[r.value].data else []
  }

  /** A read-only search from the root answers as the map does. */
  lemma LookupIsMap(nodes: Nodes, up: Parents, key: ByteSeq)
    requires WellFormed(nodes, up)
    ensures DataAt(nodes, key) == ValueOf(KeyMap(nodes, up), key)
  {
    if Lookup(nodes, ROOT, key).Some? {
      LookupFound(nodes, ROOT, key);
      var a := Lookup(nodes, ROOT, key).value;
      if nodes[a].data != [] {
        ValueAt(nodes, up, a);
      } else if key in KeyMap(nodes, up) {
        var b := Holder(nodes, up, key);
        UniqueKeys(nodes, up, a, b);
        assert false;
      }
    } else if key in KeyMap(nodes, up) {
      var b := Holder(nodes, up, key);
      Reachable(nodes, up, b);
      assert false;
    }
  }

  /** The node that holds a key of the map. */
  lemma Holder(nodes: Nodes, up: Parents, key: ByteSeq) returns (b: nat)
    requires WellFormed(nodes, up) && key in KeyMap(nodes, up)
    ensures b in nodes && nodes[b].data != [] && nodes[b].key == key && KeyMap(nodes, up)[key] == nodes[b].data
  {
    b :| b in nodes && nodes[b].data != [] && nodes[b].key == key && KeyMap(nodes, up)[key] == nodes[b].data;
  }

  // ----- Growing the tree -----

  /** Old nodes keep their key and data; new nodes hold no data. */
  ghost predicate KeepsData(nodes: Nodes, nodes': Nodes) {
    && (forall a :: a in nodes ==> a in nodes' && nodes'[a].key == nodes[a].key && nodes'[a].data == nodes[a].data)
    && (forall a :: a in nodes' && a !in nodes ==> nodes'[a].data == [])
  }

  lemma SameMap(nodes: Nodes, up: Parents, nodes': Nodes, up': Parents)
    requires WellFormed(nodes, up) && WellFormed(nodes', up') && KeepsData(nodes, nodes')
    ensures KeyMap(nodes', up') == KeyMap(nodes, up)
  {
    var m, m' := KeyMap(nodes, up), KeyMap(nodes', up');
    forall k | k in m ensures k in m' && m'[k] == m[k] {
      var a :| a in nodes && nodes[a].data != [] && nodes[a].key == k && m[k] == nodes[a].data;
      assert a in nodes';
      ValueAt(nodes', up', a);
    }
    forall k | k in m' ensures k in m {
      var a :| a in nodes' && nodes'[a].data != [] && nodes'[a].key == k;
      assert a in nodes;
    }
  }

  /** A new leaf `a` with key `key` under node `p`. */
  ghost function WithLeaf(nodes: Nodes, p: nat, a: nat, key: ByteSeq): Nodes
    requires p in nodes && |nodes[p].key| < |key|
  {
    nodes[a := Body(key, [], map[])][p := nodes[p].(children := nodes[p].children[key[|nodes[p].key|] := a])]
  }

  lemma LeafEdges(nodes: Nodes, p: nat, a: nat, key: ByteSeq)
    requires EdgesOk(nodes) && p in nodes && a !in nodes && nodes[p].key <= key && |nodes[p].key| < |key|
    ensures EdgesOk(WithLeaf(nodes, p, a, key))
  {
    var nodes', k := WithLeaf(nodes, p, a, key), nodes[p].key;
    assert k + [key[|k|]] <= key;
    forall b, c | b in nodes' && c in nodes'[b].children ensures EdgeOk(nodes', b, c) {
      assert b != a;
      if b != p || c != key[|k|] { assert EdgeOk(nodes, b, c); }
    }
  }

  lemma LeafParents(nodes: Nodes, up: Parents, p: nat, a: nat, key: ByteSeq)
    requires ParentsOk(nodes, up) && p in nodes && a !in nodes && a != ROOT
    requires nodes[p].key <= key && |nodes[p].key| < |key| && key[|nodes[p].key|] !in nodes[p].children
    ensures ParentsOk(WithLeaf(nodes, p, a, key), up[a := p])
  {
    var nodes' := WithLeaf(nodes, p, a, key);
    forall b | b in nodes' && b != ROOT ensures ParentOk(nodes', up[a := p], b) {
      if b != a { assert ParentOk(nodes, up, b); }
    }
  }

  lemma LeafWellFormed(nodes: Nodes, up: Parents, p: nat, a: nat, key: ByteSeq)
    requires WellFormed(nodes, up) && p in nodes && a !in nodes
    requires nodes[p].key <= key && |nodes[p].key| < |key| && key[|nodes[p].key|] !in nodes[p].children
    ensures WellFormed(WithLeaf(nodes, p, a, key), up[a := p]) && KeepsData(nodes, WithLeaf(nodes, p, a, key))
  {
    hide EdgesOk, ParentsOk;
    LeafEdges(nodes, p, a, key);
    LeafParents(nodes, up, p, a, key);
  }

  /** A new node `q` with key `prefix` between node `x` and its parent. */
  ghost function WithPrefix(nodes: Nodes, p: nat, x: nat, q: nat, prefix: ByteSeq): Nodes
    requires p in nodes && x in nodes && |nodes[p].key| < |prefix| < |nodes[x].key|
  {
    nodes[q := Body(prefix, [], map[nodes[x].key[|prefix|] := x])]
         [p := nodes[p].(children := nodes[p].children[prefix[|nodes[p].key|] := q])]
  }

  lemma PrefixEdges(nodes: Nodes, p: nat, x: nat, q: nat, prefix: ByteSeq)
    requires EdgesOk(nodes) && x in nodes && p in nodes && q !in nodes
    requires |nodes[p].key| < |prefix| < |nodes[x].key| && nodes[p].key <= prefix <= nodes[x].key
    ensures EdgesOk(WithPrefix(nodes, p, x, q, prefix))
  {
    var nodes', k := WithPrefix(nodes, p, x, q, prefix), nodes[p].key;
    assert k + [prefix[|k|]] <= prefix;
    assert prefix + [nodes[x].key[|prefix|]] <= nodes[x].key;
    forall b, c | b in nodes' && c in nodes'[b].children ensures EdgeOk(nodes', b, c) {
      if b != q && (b != p || c != prefix[|k|]) { assert EdgeOk(nodes, b, c); }
    }
  }

  lemma PrefixParents(nodes: Nodes, up: Parents, p: nat, x: nat, q: nat, prefix: ByteSeq)
    requires ParentsOk(nodes, up) && x in nodes && x != ROOT && p in nodes && q !in nodes && q != ROOT
    requires ParentOk(nodes, up, x) && up[x] == p
    requires |nodes[p].key| < |prefix| < |nodes[x].key| && nodes[p].key <= prefix <= nodes[x].key
    ensures ParentsOk(WithPrefix(nodes, p, x, q, prefix), up[q := p][x := q])
  {
    var nodes', up' := WithPrefix(nodes, p, x, q, prefix), up[q := p][x := q];
    forall b | b in nodes' && b != ROOT ensures ParentOk(nodes', up', b) {
      if b != q && b != x { assert ParentOk(nodes, up, b); }
    }
  }

  lemma PrefixWellFormed(nodes: Nodes, up: Parents, p: nat, x: nat, q: nat, prefix: ByteSeq)
    requires WellFormed(nodes, up) && x in nodes && x != ROOT && p in nodes && q !in nodes
    requires ParentOk(nodes, up, x) && up[x] == p && |nodes[p].key| < |prefix| < |nodes[x].key|
        && prefix <= nodes[x].key
    ensures WellFormed(WithPrefix(nodes, p, x, q, prefix), up[q := p][x := q])
    ensures KeepsData(nodes, WithPrefix(nodes, p, x, q, prefix))
  {
    hide EdgesOk, ParentsOk;
    var k := nodes[p].key;
    assert k == nodes[x].key[..|k|] == prefix[..|k|];
    PrefixEdges(nodes, p, x, q, prefix);
    PrefixParents(nodes, up, p, x, q, prefix);
  }

  /** Storing `data` at node `a`. */
  lemma DataWellFormed(nodes: Nodes, up: Parents, a: nat, data: ByteSeq)
    requires WellFormed(nodes, up) && a in nodes
    ensures WellFormed(nodes[a := nodes[a].(data := data)], up)
  {
    var nodes' := nodes[a := nodes[a].(data := data)];
    forall b, c | b in nodes' && c in nodes'[b].children ensures EdgeOk(nodes', b, c) { assert EdgeOk(nodes, b, c); }
    forall b | b in nodes' && b != ROOT ensures ParentOk(nodes', up, b) { assert ParentOk(nodes, up, b); }
  }

  /** A map after `key` was given the value `data`; the empty value is no value. */
  ghost function Updated(m: map<ByteSeq, ByteSeq>, key: ByteSeq, data: ByteSeq): map<ByteSeq, ByteSeq> {
    if data == [] then m - {key} else m[key := data]
  }

  lemma SetData(nodes: Nodes, up: Parents, a: nat, data: ByteSeq)
    requires WellFormed(nodes, up) && a in nodes
    ensures var nodes' := nodes[a := nodes[a].(data := data)];
            WellFormed(nodes', up) && KeyMap(nodes', up) == Updated(KeyMap(nodes, up), nodes[a].key, data)
  {
    hide EdgesOk, ParentsOk;
    DataWellFormed(nodes, up, a, data);
    var nodes', m := nodes[a := nodes[a].(data := data)], KeyMap(nodes, up);
    var m', want := KeyMap(nodes', up), Updated(m, nodes[a].key, data);
    forall k | k in want ensures k in m' && m'[k] == want[k] {
      if k == nodes[a].key {
        assert data != [] && a in nodes' && nodes'[a].data == data && nodes'[a].key == k;
        ValueAt(nodes', up, a);
      } else {
        var b :| b in nodes && nodes[b].data != [] && nodes[b].key == k && m[k] == nodes[b].data;
        assert b != a && nodes'[b] == nodes[b];
        ValueAt(nodes', up, b);
      }
    }
    forall k | k in m' ensures k in want {
      var b :| b in nodes' && nodes'[b].data != [] && nodes'[b].key == k;
      if b != a && k == nodes[a].key { UniqueKeys(nodes, up, a, b); }
    }
  }
}
