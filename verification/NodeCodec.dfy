/** The stored form of a tree node (sources/misc/prefixtree/prefixtree.h:192-309). */
module NodeCodec {
  import opened Bytes

  /** What a node holds besides its address. */
  datatype Body = Body(key: ByteSeq, data: ByteSeq, children: map<Byte, nat>)

  /** `char` is signed on the targets of the repository: std::map<char, ...> orders its keys by this value. */
  function Rank(c: Byte): int {
    if c < 128 then c else c - 256
  }

  /** Signed order: the bytes from 128 on come first, as the negative numbers that their bits stand for. */
  lemma RankIsSigned(c: Byte, d: Byte)
    ensures Rank(c) < Rank(d) <==> (c as int + 128) % 256 < (d as int + 128) % 256
    ensures c >= 128 && d < 128 ==> Rank(c) < Rank(d)
  {
  }

  ghost predicate IsFirst(c: Byte, keys: set<Byte>) {
    c in keys && forall d :: d in keys ==> Rank(c) <= Rank(d)
  }

  lemma {:induction false} FirstExists(keys: set<Byte>)
    requires keys != {}
    ensures exists c :: IsFirst(c, keys)
    decreases keys
  {
    var d :| d in keys;
    if keys == {d} {
      assert IsFirst(d, keys);
    } else {
      FirstExists(keys - {d});
      var e :| IsFirst(e, keys - {d});
      assert keys == (keys - {d}) + {d};
      assert IsFirst(if Rank(d) <= Rank(e) then d else e, keys);
    }
  }

  function First(keys: set<Byte>): (c: Byte)
    requires keys != {}
    ensures IsFirst(c, keys)
  {
    FirstExists(keys);
    var c :| c in keys && forall d :: d in keys ==> Rank(c) <= Rank(d);
    c
  }

  /** The keys of a std::map<char, ...> in iteration order. */
  function Ordered(keys: set<Byte>): seq<Byte>
    decreases |keys|
  {
    if keys == {} then [] else [First(keys)] + Ordered(keys - {First(keys)})
  }

  lemma {:induction false} OrderedFacts(keys: set<Byte>)
    ensures forall c :: c in Ordered(keys) <==> c in keys
    ensures forall i, j :: 0 <= i < j < |Ordered(keys)| ==> Rank(Ordered(keys)[i]) < Rank(Ordered(keys)[j])
    ensures |Ordered(keys)| == |keys| <= 256
    decreases |keys|
  {
    if keys != {} {
      hide Rank;
      var c := First(keys);
      OrderedFacts(keys - {c});
      OrderedCons(keys, c, Ordered(keys - {c}));
      OrderedLength(Ordered(keys), |keys| - 1);
    }
  }

  lemma OrderedCons(keys: set<Byte>, c: Byte, tail: seq<Byte>)
    requires c in keys && IsFirst(c, keys)
    requires forall d :: d in tail <==> d in keys - {c}
    requires forall i, j :: 0 <= i < j < |tail| ==> Rank(tail[i]) < Rank(tail[j])
    ensures forall d :: d in [c] + tail <==> d in keys
    ensures forall i, j :: 0 <= i < j < |[c] + tail| ==> Rank(([c] + tail)[i]) < Rank(([c] + tail)[j])
  {
    forall j | 0 <= j < |tail| ensures Rank(c) < Rank(tail[j]) { assert tail[j] in tail; }
  }

  /** Strictly increasing character values: at most 256 of them. */
  lemma {:induction false} OrderedLength(ks: seq<Byte>, i: nat)
    requires i < |ks| && forall i, j :: 0 <= i < j < |ks| ==> Rank(ks[i]) < Rank(ks[j])
    ensures Rank(ks[i]) >= i - 128 && i < 256
  {
    if i > 0 { OrderedLength(ks, i - 1); }
  }

  /** sizeof(char) + sizeof(ADDR_TYPE). */
  const CHILD := 9

  function EncodeChildren(children: map<Byte, nat>, keys: seq<Byte>): (r: ByteSeq)
    requires forall c :: c in keys ==> c in children
    ensures |r| == CHILD * |keys|
  {
    if keys == [] then [] else [keys[0]] + ToLE(children[keys[0]], PTR) + EncodeChildren(children, keys[1..])
  }

  lemma Behind(head: ByteSeq, tail: ByteSeq, a: nat, b: nat)
    requires a <= b <= |tail|
    ensures (head + tail)[|head| + a..|head| + b] == tail[a..b]
  {
  }

  /** Child number `i` lies at its place in the encoded table. */
  lemma {:induction false} ChildAt(children: map<Byte, nat>, keys: seq<Byte>, i: nat)
    requires (forall c :: c in keys ==> c in children) && i < |keys|
    ensures var e, p := EncodeChildren(children, keys), CHILD * i;
            e[p] == keys[i] && e[p + 1..p + CHILD] == ToLE(children[keys[i]], PTR)
  {
    var e := EncodeChildren(children, keys);
    var head, tail := [keys[0]] + ToLE(children[keys[0]], PTR), EncodeChildren(children, keys[1..]);
    if i > 0 {
      ChildAt(children, keys[1..], i - 1);
      var q := CHILD * (i - 1);
      assert |head| == CHILD && e == head + tail && CHILD * i == CHILD + q;
      Behind(head, tail, q, q + 1);
      Behind(head, tail, q + 1, q + CHILD);
      assert e[CHILD * i] == e[CHILD * i..CHILD * i + 1][0] == tail[q..q + 1][0];
    } else {
      assert e[1..CHILD] == head[1..] == ToLE(children[keys[0]], PTR);
    }
  }

  function Table(children: map<Byte, nat>): ByteSeq {
    OrderedFacts(children.Keys);
    EncodeChildren(children, Ordered(children.Keys))
  }

  lemma TableIs(children: map<Byte, nat>)
    ensures forall c :: c in Ordered(children.Keys) <==> c in children
    ensures Table(children) == EncodeChildren(children, Ordered(children.Keys))
  {
    OrderedFacts(children.Keys);
  }

  /** keysize | key | children table size | children table | datasize | data. */
  function Encode(b: Body): ByteSeq {
    ToLE(|b.key|, 4) + b.key + ToLE(|Table(b.children)|, 4) + Table(b.children) + ToLE(|b.data|, 4) + b.data
  }

  /** The most bytes any node with this key and data takes: a full table has 256 entries. */
  function MaxSize(key: ByteSeq, data: ByteSeq): nat {
    12 + |key| + CHILD * 256 + |data|
  }

  lemma EncodeSize(b: Body)
    ensures |Table(b.children)| == CHILD * |b.children|
    ensures |Encode(b)| == 12 + |b.key| + CHILD * |b.children| + |b.data| <= MaxSize(b.key, b.data)
    ensures |b.children| == 256 ==> |Encode(b)| == MaxSize(b.key, b.data)
  {
    OrderedFacts(b.children.Keys);
  }

  /** Where each part of the stored form lies: what the offset-advancing partial reads see. */
  lemma EncodeParts(b: Body)
    ensures var e, k, t := Encode(b), |b.key|, |Table(b.children)|;
            && |e| == 12 + k + t + |b.data|
            && e[0..4] == ToLE(k, 4) && e[4..4 + k] == b.key
            && e[4 + k..8 + k] == ToLE(t, 4) && e[8 + k..8 + k + t] == Table(b.children)
            && e[8 + k + t..12 + k + t] == ToLE(|b.data|, 4) && e[12 + k + t..12 + k + t + |b.data|] == b.data
  {
    hide ToLE, Table;
    var t1 := ToLE(|b.key|, 4);
    var t2 := t1 + b.key;
    var t3 := t2 + ToLE(|Table(b.children)|, 4);
    var t4 := t3 + Table(b.children);
    var t5 := t4 + ToLE(|b.data|, 4);
    var e := t5 + b.data;
    LastPart(e, t5, b.data);
    LastPart(e, t4, ToLE(|b.data|, 4));
    LastPart(e, t3, Table(b.children));
    LastPart(e, t2, ToLE(|Table(b.children)|, 4));
    LastPart(e, t1, b.key);
  }

  /** The sizes that the partial reads find in front of each part. */
  lemma EncodeSizes(b: Body)
    requires MaxSize(b.key, b.data) < UINT_LIMIT
    ensures FromLE(ToLE(|b.key|, 4)) == |b.key|
    ensures FromLE(ToLE(|Table(b.children)|, 4)) == |Table(b.children)|
    ensures FromLE(ToLE(|b.data|, 4)) == |b.data|
  {
    Widths();
    TableSmall(b);
    FromToLE(|b.key|, 4);
    FromToLE(|Table(b.children)|, 4);
    FromToLE(|b.data|, 4);
  }

  lemma LastPart(e: ByteSeq, t: ByteSeq, p: ByteSeq)
    requires t + p <= e
    ensures t <= e && e[|t|..|t| + |p|] == p
  {
    assert e[..|t| + |p|] == t + p;
    assert e[|t|..|t| + |p|] == e[..|t| + |p|][|t|..];
  }

  /** Two nodes with the same stored form are the same: nothing is lost in encoding. */
  lemma EncodeInjective(a: Body, b: Body)
    requires Encode(a) == Encode(b)
    requires |a.key| < UINT_LIMIT && |b.key| < UINT_LIMIT && |a.data| < UINT_LIMIT && |b.data| < UINT_LIMIT
    requires (forall c :: c in a.children ==> a.children[c] < ADDR_LIMIT)
        && (forall c :: c in b.children ==> b.children[c] < ADDR_LIMIT)
    ensures a == b
  {
    hide Encode, Table, ToLE;
    EncodeParts(a);
    EncodeParts(b);
    Widths();
    FromToLE(|a.key|, 4);
    FromToLE(|b.key|, 4);
    TableSmall(a);
    TableSmall(b);
    FromToLE(|Table(a.children)|, 4);
    FromToLE(|Table(b.children)|, 4);
    FromToLE(|a.data|, 4);
    FromToLE(|b.data|, 4);
    TableInjective(a.children, b.children);
  }

  lemma TableSmall(b: Body)
    ensures |Table(b.children)| <= CHILD * 256 < UINT_LIMIT
  {
    OrderedFacts(b.children.Keys);
  }

  lemma TableInjective(m: map<Byte, nat>, n: map<Byte, nat>)
    requires Table(m) == Table(n)
    requires (forall c :: c in m ==> m[c] < ADDR_LIMIT) && (forall c :: c in n ==> n[c] < ADDR_LIMIT)
    ensures m == n
  {
    hide ToLE, Ordered, EncodeChildren, Rank;
    var ks, ls := Ordered(m.Keys), Ordered(n.Keys);
    OrderedFacts(m.Keys);
    OrderedFacts(n.Keys);
    Widths();
    forall i | 0 <= i < |ks| ensures ks[i] == ls[i] && m[ks[i]] == n[ls[i]] {
      ChildAt(m, ks, i);
      ChildAt(n, ls, i);
      FromToLE(m[ks[i]], PTR);
      FromToLE(n[ls[i]], PTR);
    }
    assert ks == ls;
    assert m.Keys == n.Keys by {
      assert forall c :: c in m.Keys <==> c in ks;
    }
    forall c | c in m ensures m[c] == n[c] {
      assert c in ks;
      var i :| 0 <= i < |ks| && ks[i] == c;
    }
  }

  // ----- The loops of writeNodeToStorage -----

  /** One of the copying loops: `buffer[currIndex++] = bytes[c]`, behind the bytes `done` already there. */
  method PutBytes(buffer: array<Byte>, currIndex: nat, bytes: ByteSeq, ghost done: ByteSeq) returns (next: nat)
    requires currIndex + |bytes| <= buffer.Length && buffer[..currIndex] == done
    modifies buffer
    ensures next == currIndex + |bytes|
    ensures buffer[..next] == done + bytes
  {
    next := currIndex;
    for c := 0 to |bytes|
      invariant next == currIndex + c
      invariant buffer[..next] == done + bytes[..c]
    {
      buffer[next] := bytes[c];
      next := next + 1;
      assert bytes[..c + 1] == bytes[..c] + [bytes[c]];
    }
  }

  /** The loop over node.children, which std::map visits in key order. */
  method PutChildren(buffer: array<Byte>, currIndex: nat, children: map<Byte, nat>, ghost done: ByteSeq)
      returns (next: nat)
    requires currIndex + |Table(children)| <= buffer.Length && buffer[..currIndex] == done
    modifies buffer
    ensures next == currIndex + |Table(children)|
    ensures buffer[..next] == done + Table(children)
  {
    hide ToLE, Ordered, Rank, Table;
    var keys := Ordered(children.Keys);
    TableIs(children);
    next := currIndex;
    for i := 0 to |keys|
      invariant next == currIndex + CHILD * i
      invariant buffer[..next] == done + EncodeChildren(children, keys[..i])
    {
      ghost var sofar := done + EncodeChildren(children, keys[..i]);
      buffer[next] := keys[i];
      assert buffer[..next + 1] == sofar + [keys[i]];
      next := PutBytes(buffer, next + 1, ToLE(children[keys[i]], PTR), sofar + [keys[i]]);
      EncodeSnoc(children, keys, i);
    }
    assert keys[..|keys|] == keys;
  }

  lemma EncodeNone(children: map<Byte, nat>)
    ensures EncodeChildren(children, []) == []
  {
  }

  lemma EncodeCons(children: map<Byte, nat>, keys: seq<Byte>)
    requires (forall c :: c in keys ==> c in children) && keys != []
    ensures EncodeChildren(children, keys)
         == [keys[0]] + ToLE(children[keys[0]], PTR) + EncodeChildren(children, keys[1..])
  {
    hide ToLE;
  }

  lemma {:induction false} EncodeSnoc(children: map<Byte, nat>, keys: seq<Byte>, i: nat)
    requires (forall c :: c in keys ==> c in children) && i < |keys|
    ensures EncodeChildren(children, keys[..i + 1])
         == EncodeChildren(children, keys[..i]) + ([keys[i]] + ToLE(children[keys[i]], PTR))
  {
    hide ToLE, EncodeChildren;
    EncodeCons(children, keys[..i + 1]);
    if i == 0 {
      assert keys[..1][1..] == keys[..0] == [];
      EncodeNone(children);
    } else {
      EncodeCons(children, keys[..i]);
      EncodeSnoc(children, keys[1..], i - 1);
      assert keys[..i + 1][1..] == keys[1..][..i];
      assert keys[..i][1..] == keys[1..][..i - 1];
      assert keys[1..][i - 1] == keys[i] && keys[..i + 1][0] == keys[..i][0] == keys[0];
      var first, last := [keys[0]] + ToLE(children[keys[0]], PTR), [keys[i]] + ToLE(children[keys[i]], PTR);
      var between := EncodeChildren(children, keys[1..][..i - 1]);
      assert first + (between + last) == (first + between) + last;
    }
  }

  /** The buffer that writeNodeToStorage hands to the storage. */
  method BuildBuffer(b: Body) returns (bytes: ByteSeq)
    requires MaxSize(b.key, b.data) < UINT_LIMIT
    ensures bytes == Encode(b)
  {
    hide ToLE, Table, U32;
    EncodeSize(b);
    U32Small(|b.key|);
    U32Small(CHILD * |b.children|);
    U32Small(|b.data|);
    U32Small(4 + |b.key| + 4 + CHILD * |b.children| + 4 + |b.data|);
    var keySize := U32(|b.key|);
    var childrenStorageSize := U32(CHILD * |b.children|);
    var dataSize := U32(|b.data|);
    var bufferSize := U32(4 + keySize + 4 + childrenStorageSize + 4 + dataSize);
    var buffer := new Byte[bufferSize](_ => 0);
    var at := PutBytes(buffer, 0, ToLE(keySize, 4), []);
    ghost var t1 := ToLE(|b.key|, 4);
    assert [] + t1 == t1;
    at := PutBytes(buffer, at, b.key, t1);
    ghost var t2 := t1 + b.key;
    at := PutBytes(buffer, at, ToLE(childrenStorageSize, 4), t2);
    ghost var t3 := t2 + ToLE(|Table(b.children)|, 4);
    at := PutChildren(buffer, at, b.children, t3);
    ghost var t4 := t3 + Table(b.children);
    at := PutBytes(buffer, at, ToLE(dataSize, 4), t4);
    ghost var t5 := t4 + ToLE(|b.data|, 4);
    at := PutBytes(buffer, at, b.data, t5);
    assert buffer[..] == buffer[..at];
    bytes := buffer[..];
  }

  /** The loop that reads the children table back into a map. */
  method ReadChildren(buffer: ByteSeq, base: map<Byte, nat>, ghost m: map<Byte, nat>) returns (children: map<Byte, nat>)
    requires buffer == Table(m) && forall c :: c in m ==> m[c] < ADDR_LIMIT
    ensures children == base + m && (base == map[] ==> children == m)
  {
    hide ToLE, Ordered, Rank, FromLE, EncodeChildren, Table, Entries;
    ghost var keys := Ordered(m.Keys);
    TableIs(m);
    EntriesAll(base, m, keys);
    children := base;
    var c := 0;
    ghost var i := 0;
    while c < |buffer|
      invariant i <= |keys| && c == CHILD * i
      invariant children == base + Entries(m, keys[..i])
    {
      ChildEntry(buffer, m, keys, i);
      var key := buffer[c];
      c := c + 1;
      var address := FromLE(buffer[c..c + PTR]);
      c := c + PTR;
      children := children[key := address];
      EntriesSnoc(base, m, keys, i);
      i := i + 1;
    }
    assert keys[..i] == keys;
    assert map[] + m == m;
  }

  lemma ChildEntry(buffer: ByteSeq, m: map<Byte, nat>, keys: seq<Byte>, i: nat)
    requires (forall c :: c in keys ==> c in m) && (forall c :: c in m ==> m[c] < ADDR_LIMIT) && i < |keys|
    requires buffer == EncodeChildren(m, keys)
    ensures var p := CHILD * i; buffer[p] == keys[i] && FromLE(buffer[p + 1..p + 1 + PTR]) == m[keys[i]]
  {
    ChildAt(m, keys, i);
    Widths();
    FromToLE(m[keys[i]], PTR);
  }

  ghost function Entries(m: map<Byte, nat>, keys: seq<Byte>): map<Byte, nat> {
    map k | k in keys && k in m :: m[k]
  }

  lemma EntriesSnoc(base: map<Byte, nat>, m: map<Byte, nat>, keys: seq<Byte>, i: nat)
    requires i < |keys| && keys[i] in m
    ensures base + Entries(m, keys[..i + 1]) == (base + Entries(m, keys[..i]))[keys[i] := m[keys[i]]]
  {
    assert keys[..i + 1] == keys[..i] + [keys[i]];
  }

  lemma EntriesAll(base: map<Byte, nat>, m: map<Byte, nat>, keys: seq<Byte>)
    requires forall c :: c in keys <==> c in m
    ensures base + Entries(m, keys) == base + m && base + Entries(m, keys[..0]) == base
  {
    assert Entries(m, keys) == m;
  }
}
