/** Prefix search: which keys it yields, and in which order. */
module TrieSearch {
  import opened Bytes
  import opened NodeCodec
  import opened Options
  import opened Tries

  /** The order in which std::map<char, ...> visits keys, extended to strings: shorter prefixes first. */
  predicate Less(a: ByteSeq, b: ByteSeq) {
    b != [] && (a == [] || Rank(a[0]) < Rank(b[0]) || (a[0] == b[0] && Less(a[1..], b[1..])))
  }

  /** Where two strings part after `n` bytes, the one with the smaller signed byte comes first, or the one that ends. */
  ghost predicate PartsAt(a: ByteSeq, b: ByteSeq, n: nat) {
    && n <= |a| && n < |b| && a[..n] == b[..n]
    && (n == |a| || (a[n] as int + 128) % 256 < (b[n] as int + 128) % 256)
  }

  lemma {:induction false} LessParts(a: ByteSeq, b: ByteSeq)
    ensures Less(a, b) <==> exists n :: PartsAt(a, b, n)
    decreases |a|
  {
    if a == [] || b == [] {
      if b != [] { assert PartsAt(a, b, 0); }
    } else {
      RankIsSigned(a[0], b[0]);
      LessParts(a[1..], b[1..]);
      if a[0] == b[0] {
        if n: nat :| PartsAt(a[1..], b[1..], n) {
          assert a[..n + 1] == [a[0]] + a[1..][..n] && b[..n + 1] == [b[0]] + b[1..][..n];
          assert PartsAt(a, b, n + 1);
        }
        if n: nat :| PartsAt(a, b, n) {
          assert n > 0 && a[1..][..n - 1] == a[..n][1..] && b[1..][..n - 1] == b[..n][1..];
          assert PartsAt(a[1..], b[1..], n - 1);
        }
      } else {
        if n: nat :| PartsAt(a, b, n) { assert n > 0 ==> a[..n][0] == b[..n][0]; }
        if Less(a, b) { assert PartsAt(a, b, 0); }
      }
    }
  }

  ghost predicate Sorted(s: seq<ByteSeq>) {
    forall i, j :: 0 <= i < j < |s| ==> Less(s[i], s[j])
  }

  lemma {:induction false} LessExtends(a: ByteSeq, b: ByteSeq)
    requires a <= b && |a| < |b|
    ensures Less(a, b)
  {
    if a != [] { LessExtends(a[1..], b[1..]); }
  }

  /** Keys that differ first in a character with smaller rank come first. */
  lemma {:induction false} LessDiverge(p: ByteSeq, c: Byte, d: Byte, a: ByteSeq, b: ByteSeq)
    requires p + [c] <= a && p + [d] <= b && Rank(c) < Rank(d)
    ensures Less(a, b)
  {
    if p == [] {
      assert a[0] == c && b[0] == d;
    } else {
      assert a[0] == p[0] == b[0];
      assert p[1..] + [c] <= a[1..] && p[1..] + [d] <= b[1..];
      LessDiverge(p[1..], c, d, a[1..], b[1..]);
    }
  }

  lemma {:induction false} LessIrreflexive(a: ByteSeq)
    ensures !Less(a, a)
  {
    if a != [] { LessIrreflexive(a[1..]); }
  }

  /** The caller's filter: which nodes a search reports. */
  type Keep = Body -> bool

  /** No key is longer than `h`. */
  ghost predicate Bounded(nodes: Nodes, h: nat) {
    forall a :: a in nodes ==> |nodes[a].key| <= h
  }

  /** recursiveGetChilds without a limit, visiting all children: a node's own key when the filter keeps it, then its
      children in order. */
  ghost function Listing(nodes: Nodes, keep: Keep, a: nat, h: nat): seq<ByteSeq>
    requires EdgesOk(nodes) && Bounded(nodes, h) && a in nodes
    decreases h - |nodes[a].key|, 1, 0
  {
    OrderedFacts(nodes[a].children.Keys);
    (if keep(nodes[a]) then [nodes[a].key] else []) + ListingOf(nodes, keep, a, Ordered(nodes[a].children.Keys), h)
  }

  ghost function ListingOf(nodes: Nodes, keep: Keep, a: nat, cs: seq<Byte>, h: nat): seq<ByteSeq>
    requires EdgesOk(nodes) && Bounded(nodes, h) && a in nodes && forall c :: c in cs ==> c in nodes[a].children
    decreases h - |nodes[a].key|, 0, |cs|
  {
    if cs == [] then [] else
    assert EdgeOk(nodes, a, cs[0]);
    Listing(nodes, keep, nodes[a].children[cs[0]], h) + ListingOf(nodes, keep, a, cs[1..], h)
  }

  ghost predicate RanksUp(cs: seq<Byte>) {
    forall i, j :: 0 <= i < j < |cs| ==> Rank(cs[i]) < Rank(cs[j])
  }

  /** A key is listed under a node when it belongs to a kept node at or below it. */
  ghost predicate Belongs(nodes: Nodes, keep: Keep, prefix: ByteSeq, k: ByteSeq) {
    exists b :: b in nodes && keep(nodes[b]) && nodes[b].key == k && prefix <= k
  }

  lemma BelongsShorter(nodes: Nodes, keep: Keep, prefix: ByteSeq, c: Byte, k: ByteSeq)
    requires Belongs(nodes, keep, prefix + [c], k)
    ensures Belongs(nodes, keep, prefix, k)
  {
    assert prefix <= prefix + [c] <= k;
  }

  ghost predicate BelongsVia(nodes: Nodes, keep: Keep, a: nat, cs: seq<Byte>, k: ByteSeq)
    requires a in nodes
  {
    exists c :: c in cs && Belongs(nodes, keep, nodes[a].key + [c], k)
  }

  lemma {:induction false} ListingSound(nodes: Nodes, keep: Keep, a: nat, h: nat)
    requires EdgesOk(nodes) && Bounded(nodes, h) && a in nodes
    ensures forall k :: k in Listing(nodes, keep, a, h) ==> Belongs(nodes, keep, nodes[a].key, k)
    decreases h - |nodes[a].key|, 1, 0
  {
    hide Ordered, ListingOf, EdgesOk, Bounded, Belongs;
    var cs := Ordered(nodes[a].children.Keys);
    OrderedFacts(nodes[a].children.Keys);
    ListingOfSound(nodes, keep, a, cs, h);
    forall k | k in Listing(nodes, keep, a, h) ensures Belongs(nodes, keep, nodes[a].key, k) {
      if k in ListingOf(nodes, keep, a, cs, h) {
        assert BelongsVia(nodes, keep, a, cs, k);
        var c :| c in cs && Belongs(nodes, keep, nodes[a].key + [c], k);
        BelongsShorter(nodes, keep, nodes[a].key, c, k);
      } else {
        BelongsItself(nodes, keep, a);
      }
    }
  }

  lemma BelongsItself(nodes: Nodes, keep: Keep, a: nat)
    requires a in nodes && keep(nodes[a])
    ensures Belongs(nodes, keep, nodes[a].key, nodes[a].key)
  {
  }

  lemma {:induction false} ListingOfSound(nodes: Nodes, keep: Keep, a: nat, cs: seq<Byte>, h: nat)
    requires EdgesOk(nodes) && Bounded(nodes, h) && a in nodes && forall c :: c in cs ==> c in nodes[a].children
    ensures forall k :: k in ListingOf(nodes, keep, a, cs, h) ==> BelongsVia(nodes, keep, a, cs, k)
    decreases h - |nodes[a].key|, 0, |cs|
  {
    if cs != [] {
      assert EdgeOk(nodes, a, cs[0]);
      var b := nodes[a].children[cs[0]];
      ListingSound(nodes, keep, b, h);
      ListingOfSound(nodes, keep, a, cs[1..], h);
      forall k | k in ListingOf(nodes, keep, a, cs, h) ensures BelongsVia(nodes, keep, a, cs, k) {
        if k in Listing(nodes, keep, b, h) {
          assert Belongs(nodes, keep, nodes[b].key, k);
          assert cs[0] in cs && Belongs(nodes, keep, nodes[a].key + [cs[0]], k);
        } else {
          assert BelongsVia(nodes, keep, a, cs[1..], k);
        }
      }
    }
  }

  lemma {:induction false} ListingSorted(nodes: Nodes, keep: Keep, a: nat, h: nat)
    requires EdgesOk(nodes) && Bounded(nodes, h) && a in nodes
    ensures Sorted(Listing(nodes, keep, a, h))
    decreases h - |nodes[a].key|, 1, 0
  {
    hide Ordered, ListingOf, EdgesOk, Bounded, Belongs, Less, Sorted;
    var cs := Ordered(nodes[a].children.Keys);
    OrderedFacts(nodes[a].children.Keys);
    ListingOfSorted(nodes, keep, a, cs, h);
    ListingOfSound(nodes, keep, a, cs, h);
    var l := ListingOf(nodes, keep, a, cs, h);
    forall k | k in l ensures Less(nodes[a].key, k) {
      assert BelongsVia(nodes, keep, a, cs, k);
      var c :| c in cs && Belongs(nodes, keep, nodes[a].key + [c], k);
      BelongsLonger(nodes, keep, nodes[a].key, c, k);
      LessExtends(nodes[a].key, k);
    }
    SortedCons(nodes[a].key, l);
    assert [] + l == l;
  }

  lemma BelongsLonger(nodes: Nodes, keep: Keep, prefix: ByteSeq, c: Byte, k: ByteSeq)
    requires Belongs(nodes, keep, prefix + [c], k)
    ensures prefix <= k && prefix != k
  {
  }

  lemma SortedCons(k: ByteSeq, l: seq<ByteSeq>)
    requires Sorted(l) && forall m :: m in l ==> Less(k, m)
    ensures Sorted([k] + l)
  {
    hide Less;
    forall i, j | 0 <= i < j < |[k] + l| ensures Less(([k] + l)[i], ([k] + l)[j]) {
      if i == 0 { assert l[j - 1] in l; }
    }
  }

  lemma {:induction false} ListingOfSorted(nodes: Nodes, keep: Keep, a: nat, cs: seq<Byte>, h: nat)
    requires EdgesOk(nodes) && Bounded(nodes, h) && a in nodes && forall c :: c in cs ==> c in nodes[a].children
    requires RanksUp(cs)
    ensures Sorted(ListingOf(nodes, keep, a, cs, h))
    decreases h - |nodes[a].key|, 0, |cs|
  {
    if cs != [] {
      assert EdgeOk(nodes, a, cs[0]);
      var b := nodes[a].children[cs[0]];
      ListingSorted(nodes, keep, b, h);
      ListingOfSorted(nodes, keep, a, cs[1..], h);
      ListingSound(nodes, keep, b, h);
      ListingOfSound(nodes, keep, a, cs[1..], h);
      forall k, l | k in Listing(nodes, keep, b, h) && l in ListingOf(nodes, keep, a, cs[1..], h) ensures Less(k, l) {
        assert Belongs(nodes, keep, nodes[b].key, k);
        assert BelongsVia(nodes, keep, a, cs[1..], l);
        var c :| c in cs[1..] && Belongs(nodes, keep, nodes[a].key + [c], l);
        LessDiverge(nodes[a].key, cs[0], c, k, l);
      }
      SortedJoin(Listing(nodes, keep, b, h), ListingOf(nodes, keep, a, cs[1..], h));
    }
  }

  lemma SortedJoin(s: seq<ByteSeq>, t: seq<ByteSeq>)
    requires Sorted(s) && Sorted(t) && forall k, l :: k in s && l in t ==> Less(k, l)
    ensures Sorted(s + t)
  {
    forall i, j | 0 <= i < j < |s + t| ensures Less((s + t)[i], (s + t)[j]) {
      if i < |s| <= j {
        assert s[i] in s && t[j - |s|] in t;
      }
    }
  }

  /** A kept node is listed under every node its search passes through. */
  lemma {:induction false} ListingComplete(nodes: Nodes, keep: Keep, a: nat, b: nat, h: nat)
    requires EdgesOk(nodes) && Bounded(nodes, h) && a in nodes && b in nodes && keep(nodes[b])
    requires Lookup(nodes, a, nodes[b].key) == Some(b)
    ensures nodes[b].key in Listing(nodes, keep, a, h)
    decreases h - |nodes[a].key|
  {
    if nodes[a].key != nodes[b].key {
      var c := nodes[b].key[|nodes[a].key|];
      assert EdgeOk(nodes, a, c);
      ListingComplete(nodes, keep, nodes[a].children[c], b, h);
      OrderedFacts(nodes[a].children.Keys);
      ListingOfHas(nodes, keep, a, Ordered(nodes[a].children.Keys), c, nodes[b].key, h);
    } else {
      assert a == b;
    }
  }

  lemma {:induction false} ListingOfHas(nodes: Nodes, keep: Keep, a: nat, cs: seq<Byte>, c: Byte, k: ByteSeq, h: nat)
    requires EdgesOk(nodes) && Bounded(nodes, h) && a in nodes && (forall d :: d in cs ==> d in nodes[a].children)
        && c in cs
    requires EdgeOk(nodes, a, c) && k in Listing(nodes, keep, nodes[a].children[c], h)
    ensures k in ListingOf(nodes, keep, a, cs, h)
  {
    assert EdgeOk(nodes, a, cs[0]);
    if c != cs[0] {
      ListingOfHas(nodes, keep, a, cs[1..], c, k, h);
    }
  }

  /** Every node whose key starts with `key` lies below the node where the search for `key` stops,
      and then that node's key starts with `key` too. */
  lemma {:induction false} StopsAbove(nodes: Nodes, a: nat, b: nat, key: ByteSeq)
    requires EdgesOk(nodes) && a in nodes && b in nodes && key <= nodes[b].key
    requires Lookup(nodes, a, nodes[b].key) == Some(b)
    ensures var v := LastValid(nodes, a, key); key <= nodes[v].key && Lookup(nodes, v, nodes[b].key) == Some(b)
    decreases |nodes[b].key| - |nodes[a].key|
  {
    LookupFound(nodes, a, nodes[b].key);
    var k := nodes[a].key;
    if key != k && k <= key {
      assert key[|k|] == nodes[b].key[|k|];
      assert EdgeOk(nodes, a, key[|k|]);
      StopsAbove(nodes, nodes[a].children[key[|k|]], b, key);
    }
  }

  /** What searchChilds(key) yields without a limit. */
  ghost function SearchResult(nodes: Nodes, keep: Keep, key: ByteSeq, h: nat): seq<ByteSeq>
    requires EdgesOk(nodes) && Bounded(nodes, h) && ROOT in nodes
  {
    var v := LastValid(nodes, ROOT, key);
    if key <= nodes[v].key then Listing(nodes, keep, v, h) else []
  }

  /** Search yields exactly the keys of the kept nodes that start with the prefix, each once, in order. */
  lemma SearchIsExact(nodes: Nodes, keep: Keep, up: Parents, key: ByteSeq, h: nat)
    requires WellFormed(nodes, up) && Bounded(nodes, h)
    ensures Sorted(SearchResult(nodes, keep, key, h))
    ensures forall k :: k in SearchResult(nodes, keep, key, h) <==> Belongs(nodes, keep, key, k)
  {
    var v, r := LastValid(nodes, ROOT, key), SearchResult(nodes, keep, key, h);
    if key <= nodes[v].key {
      ListingSorted(nodes, keep, v, h);
      ListingSound(nodes, keep, v, h);
    }
    forall k | k in r ensures Belongs(nodes, keep, key, k) {
      assert Belongs(nodes, keep, nodes[v].key, k);
    }
    forall k | Belongs(nodes, keep, key, k) ensures k in r {
      var b :| b in nodes && keep(nodes[b]) && nodes[b].key == k;
      Reachable(nodes, up, b);
      StopsAbove(nodes, ROOT, b, key);
      ListingComplete(nodes, keep, v, b, h);
    }
  }

  /** The filter of prefixtree_cgo.cpp: nodes with data. */
  const WITH_DATA: Keep := (b: Body) => b.data != []

  /** With it the search yields the keys of the map. */
  lemma SearchWithData(nodes: Nodes, up: Parents, key: ByteSeq, k: ByteSeq)
    requires WellFormed(nodes, up)
    ensures Belongs(nodes, WITH_DATA, key, k) <==> k in KeyMap(nodes, up) && key <= k
  {
    if Belongs(nodes, WITH_DATA, key, k) {
      var b :| b in nodes && WITH_DATA(nodes[b]) && nodes[b].key == k;
      ValueAt(nodes, up, b);
    }
    if k in KeyMap(nodes, up) && key <= k {
      var b :| b in nodes && nodes[b].data != [] && nodes[b].key == k;
      assert WITH_DATA(nodes[b]);
    }
  }

  lemma SomeMember(t: seq<ByteSeq>)
    ensures t == [] || exists k :: k in t
  {
    if t != [] { assert t[0] in t; }
  }

  /** Sortedness leaves no freedom: two sorted lists of the same keys are the same list. */
  lemma {:induction false} SortedUnique(s: seq<ByteSeq>, t: seq<ByteSeq>)
    requires Sorted(s) && Sorted(t) && forall k :: k in s <==> k in t
    ensures s == t
  {
    SomeMember(s);
    SomeMember(t);
    if s != [] && t != [] {
      FirstIsSame(s, t);
      TailKeys(s, t);
      TailKeys(t, s);
      SortedUnique(s[1..], t[1..]);
    }
  }

  lemma TailKeys(s: seq<ByteSeq>, t: seq<ByteSeq>)
    requires Sorted(s) && s != [] && t != [] && s[0] == t[0] && forall k :: k in s ==> k in t
    ensures forall k :: k in s[1..] ==> k in t[1..]
  {
    forall k | k in s[1..] ensures k in t[1..] {
      var i :| 0 <= i < |s[1..]| && s[1..][i] == k;
      assert k == s[i + 1] && k in s && Less(s[0], s[i + 1]);
      LessIrreflexive(s[0]);
      var j :| 0 <= j < |t| && t[j] == k;
      assert t[1..][j - 1] == k;
    }
  }

  lemma FirstIsSame(s: seq<ByteSeq>, t: seq<ByteSeq>)
    requires Sorted(s) && Sorted(t) && s != [] && t != [] && forall k :: k in s <==> k in t
    ensures s[0] == t[0]
  {
    assert s[0] in t && t[0] in s;
    var i :| 0 <= i < |t| && t[i] == s[0];
    var j :| 0 <= j < |s| && s[j] == t[0];
    if i > 0 && j > 0 {
      LessAsymmetric(s[0], t[0]);
    }
  }

  lemma {:induction false} LessAsymmetric(a: ByteSeq, b: ByteSeq)
    ensures !(Less(a, b) && Less(b, a))
  {
    if a != [] && b != [] && a[0] == b[0] { LessAsymmetric(a[1..], b[1..]); }
  }
}
