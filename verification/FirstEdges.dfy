/** The edges that leave the root of a trie, and how they change when a key is added.  The root is the one node that
    is kept in memory; it is stored again exactly when these edges change
    (sources/misc/prefixtree/prefixtree.h:115-182). */
module FirstEdges {
  import opened Bytes
  import opened NodeCodec
  import opened Tries

  /** The number of leading characters two keys have in common. */
  ghost function CommonLength(a: ByteSeq, b: ByteSeq): nat {
    if a == [] || b == [] || a[0] != b[0] then 0 else 1 + CommonLength(a[1..], b[1..])
  }

  lemma {:induction false} CommonFacts(a: ByteSeq, b: ByteSeq)
    ensures var n := CommonLength(a, b);
            n <= |a| && n <= |b| && a[..n] == b[..n] && (n == |a| || n == |b| || a[n] != b[n])
  {
    if a != [] && b != [] && a[0] == b[0] {
      CommonFacts(a[1..], b[1..]);
      var n := CommonLength(a[1..], b[1..]);
      assert a[..n + 1] == [a[0]] + a[1..][..n] && b[..n + 1] == [b[0]] + b[1..][..n];
    }
  }

  lemma {:induction false} CommonAtLeast(a: ByteSeq, b: ByteSeq, p: ByteSeq)
    requires p <= a && p <= b
    ensures |p| <= CommonLength(a, b)
  {
    if p != [] {
      assert a[0] == p[0] == b[0];
      CommonAtLeast(a[1..], b[1..], p[1..]);
    }
  }

  lemma {:induction false} CommonHere(a: ByteSeq, b: ByteSeq, n: nat)
    requires n < |a| && n < |b| && a[..n] == b[..n] && a[n] != b[n]
    ensures CommonLength(a, b) == n
  {
    if n > 0 {
      assert a[0] == a[..n][0] == b[..n][0] == b[0];
      assert a[1..][..n - 1] == a[..n][1..] == b[..n][1..] == b[1..][..n - 1];
      CommonHere(a[1..], b[1..], n - 1);
    }
  }

  /** The first characters that leave the root, with the keys of the nodes to which they lead. */
  ghost function Tops(nodes: Nodes): map<Byte, ByteSeq> {
    if ROOT !in nodes then map[] else
    map c | c in nodes[ROOT].children && nodes[ROOT].children[c] in nodes :: nodes[nodes[ROOT].children[c]].key
  }

  /** What a further key makes of them: it gets an edge of its own, or shortens the key at the one it shares. */
  ghost function Grow(tops: map<Byte, ByteSeq>, key: ByteSeq): map<Byte, ByteSeq> {
    if key == [] then tops
    else tops[key[0] := if key[0] in tops then Shared(tops[key[0]], key) else key]
  }

  ghost function Shared(a: ByteSeq, b: ByteSeq): ByteSeq {
    CommonFacts(a, b);
    a[..CommonLength(a, b)]
  }

  lemma SharedPrefix(a: ByteSeq, b: ByteSeq)
    requires a <= b
    ensures Shared(a, b) == a
  {
    CommonAtLeast(a, b, a);
    CommonFacts(a, b);
  }

  /** The root's child on the way to a node: a child of the root is at the edge of its first character. */
  lemma TopAt(nodes: Nodes, up: Parents, a: nat)
    requires WellFormed(nodes, up) && a in nodes && a != ROOT && a in up && up[a] == ROOT
    ensures nodes[a].key != [] && nodes[a].key[0] in Tops(nodes) && Tops(nodes)[nodes[a].key[0]] == nodes[a].key
    ensures nodes[a].key[0] in nodes[ROOT].children && nodes[ROOT].children[nodes[a].key[0]] == a
  {
    assert ParentOk(nodes, up, a);
  }

  lemma ChildTop(nodes: Nodes, c: Byte)
    requires EdgesOk(nodes) && ROOT in nodes && nodes[ROOT].key == []
    ensures c in nodes[ROOT].children <==> c in Tops(nodes)
    ensures c in Tops(nodes) ==>
              Tops(nodes)[c] != [] && Tops(nodes)[c][0] == c && Tops(nodes)[c] == nodes[nodes[ROOT].children[c]].key
  {
    if c in nodes[ROOT].children { assert EdgeOk(nodes, ROOT, c); }
  }

  /** A new leaf changes the first edges only when it is a child of the root. */
  lemma LeafTops(nodes: Nodes, up: Parents, p: nat, a: nat, key: ByteSeq)
    requires WellFormed(nodes, up) && p in nodes && a !in nodes && nodes[p].key <= key && |nodes[p].key| < |key|
    requires key[|nodes[p].key|] !in nodes[p].children
    ensures Tops(WithLeaf(nodes, p, a, key)) == if p == ROOT then Tops(nodes)[key[0] := key] else Tops(nodes)
  {
    forall c | c in nodes[ROOT].children ensures nodes[ROOT].children[c] in nodes { assert EdgeOk(nodes, ROOT, c); }
  }

  /** So does splitting an edge. */
  lemma PrefixTops(nodes: Nodes, up: Parents, p: nat, x: nat, q: nat, prefix: ByteSeq)
    requires WellFormed(nodes, up) && p in nodes && x in nodes && q !in nodes
    requires |nodes[p].key| < |prefix| < |nodes[x].key|
    ensures Tops(WithPrefix(nodes, p, x, q, prefix)) == if p == ROOT then Tops(nodes)[prefix[0] := prefix]
        else Tops(nodes)
  {
    forall c | c in nodes[ROOT].children ensures nodes[ROOT].children[c] in nodes { assert EdgeOk(nodes, ROOT, c); }
  }

  /** The first edges after a search for `key` that goes on at node `a`, whose parent is `p`. */
  ghost function TopsVia(nodes: Nodes, a: nat, p: nat, key: ByteSeq): map<Byte, ByteSeq> {
    if a == ROOT then Grow(Tops(nodes), key)
    else if p == ROOT && a in nodes && key != [] then Tops(nodes)[key[0] := Shared(nodes[a].key, key)]
    else Tops(nodes)
  }

  /** A search that has arrived, or goes on below `a`, leaves them alone unless `a` is the root. */
  lemma ViaStays(nodes: Nodes, up: Parents, a: nat, p: nat, key: ByteSeq)
    requires WellFormed(nodes, up) && a in nodes && nodes[a].key <= key
    requires if a == ROOT then key == [] else a in up && up[a] == p
    ensures TopsVia(nodes, a, p, key) == Tops(nodes)
  {
    if a != ROOT && p == ROOT {
      TopAt(nodes, up, a);
      SharedPrefix(nodes[a].key, key);
      assert key != [] && key[0] == nodes[a].key[0];
      assert Tops(nodes)[key[0] := Tops(nodes)[key[0]]] == Tops(nodes);
    }
  }

  /** From the root a search goes on at the child it finds there. */
  lemma ViaChild(nodes: Nodes, up: Parents, key: ByteSeq)
    requires WellFormed(nodes, up) && key != [] && key[0] in nodes[ROOT].children
    ensures TopsVia(nodes, nodes[ROOT].children[key[0]], ROOT, key) == TopsVia(nodes, ROOT, ROOT, key)
  {
    ChildTop(nodes, key[0]);
    assert EdgeOk(nodes, ROOT, key[0]);
  }

  /** It goes on at the leaf that was made. */
  lemma ViaLeaf(nodes: Nodes, up: Parents, nodes': Nodes, a: nat, p: nat, x: nat, key: ByteSeq)
    requires WellFormed(nodes, up) && a in nodes && x !in nodes && nodes[a].key <= key && |nodes[a].key| < |key|
    requires key[|nodes[a].key|] !in nodes[a].children && nodes' == WithLeaf(nodes, a, x, key)
    requires a != ROOT ==> a in up && up[a] == p
    ensures TopsVia(nodes', x, a, key) == TopsVia(nodes, a, p, key)
    ensures Tops(nodes') == TopsVia(nodes, a, p, key) && (a == ROOT ==> Tops(nodes') != Tops(nodes))
  {
    LeafTops(nodes, up, a, x, key);
    SharedPrefix(key, key);
    assert x != ROOT;
    if a == ROOT {
      ChildTop(nodes, key[0]);
    } else {
      ViaStays(nodes, up, a, p, key);
    }
  }

  /** After a split it goes on at the new node. */
  lemma ViaPrefix(nodes: Nodes, up: Parents, nodes': Nodes, p: nat, x: nat, q: nat, prefix: ByteSeq, key: ByteSeq)
    requires WellFormed(nodes, up) && p in nodes && x in nodes && x != ROOT && q !in nodes && x in up && up[x] == p
    requires |nodes[p].key| < |prefix| < |nodes[x].key| && prefix == Shared(nodes[x].key, key)
    requires nodes' == WithPrefix(nodes, p, x, q, prefix)
    ensures TopsVia(nodes', q, p, key) == TopsVia(nodes, x, p, key)
    ensures Tops(nodes') == TopsVia(nodes, x, p, key) && (p == ROOT ==> Tops(nodes') != Tops(nodes))
  {
    PrefixTops(nodes, up, p, x, q, prefix);
    CommonFacts(nodes[x].key, key);
    assert prefix <= key && prefix[0] == key[0] == nodes[x].key[0];
    SharedPrefix(prefix, key);
    assert q != ROOT;
    if p == ROOT {
      TopAt(nodes, up, x);
      assert Tops(nodes')[key[0]] == prefix && Tops(nodes)[key[0]] == nodes[x].key;
    }
  }
}
