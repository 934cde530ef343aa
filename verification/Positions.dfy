/** Positions inside a sequence: the chain of blocks seen as one flat byte string. */
module Positions {
  import opened Bytes
  import opened Disk

  /** The number of payload bytes of a sequence that lie before offset `o` of its block number `i`. */
  ghost function Pos(B: nat, i: nat, o: nat): int
    requires B > FIRST
  {
    i * (B - PTR) + o - FIRST
  }

  /** A place in a sequence that payload may occupy: not in a next pointer, not in the total size. */
  ghost predicate InPayload(B: nat, i: nat, o: nat) {
    (if i == 0 then FIRST else PTR) <= o <= B
  }

  lemma PosFacts(B: nat, i: nat, o: nat)
    requires B > FIRST && InPayload(B, i, o)
    ensures 0 <= Pos(B, i, o)
    ensures Pos(B, i, B) == Pos(B, i + 1, PTR)
  {
    PosStep(B, i, o);
    PosStep(B, i, B);
  }

  lemma PosStep(B: nat, i: nat, o: nat)
    requires B > FIRST
    ensures Pos(B, 0, o) == o - FIRST
    ensures Pos(B, i + 1, o) == Pos(B, i, o) + (B - PTR)
    ensures 0 <= Pos(B, i, FIRST)
  {
    assert (i + 1) * (B - PTR) == i * (B - PTR) + (B - PTR);
  }

  lemma PosAdd(B: nat, i: nat, o: nat, k: nat)
    requires B > FIRST
    ensures Pos(B, i, o + k) == Pos(B, i, o) + k
  {
  }

  lemma RawLength(f: ByteSeq, B: nat, chain: seq<nat>)
    requires B > FIRST && InFile(f, B, chain) && |chain| > 0
    ensures |Raw(f, B, chain)| == Pos(B, |chain|, PTR)
  {
    InFileDrop(f, B, chain, 1);
    TailLength(f, B, chain[1..]);
    assert |chain| * (B - PTR) == (|chain| - 1) * (B - PTR) + (B - PTR);
  }

  /** Block `i` ends within the room of the sequence, and only the last one ends it. */
  lemma PosInRoom(f: ByteSeq, B: nat, chain: seq<nat>, i: nat)
    requires B > FIRST && InFile(f, B, chain) && i < |chain|
    ensures Pos(B, i, B) <= |Raw(f, B, chain)|
    ensures i + 1 == |chain| ==> Pos(B, i, B) == |Raw(f, B, chain)|
    ensures i + 1 < |chain| ==> Pos(B, i, B) + (B - PTR) <= |Raw(f, B, chain)|
  {
    RawLength(f, B, chain);
    PosFacts(B, i, B);
    if i + 1 < |chain| {
      MulMono(i + 2, |chain|, B - PTR);
      assert (i + 2) * (B - PTR) == (i + 1) * (B - PTR) + (B - PTR);
    }
  }

  lemma MulMono(a: nat, b: nat, c: nat)
    requires a <= b
    ensures a * c <= b * c
  {
    assert b * c == a * c + (b - a) * c;
  }

  lemma {:induction false} RestIsDrop(f: ByteSeq, B: nat, chain: seq<nat>, i: nat)
    requires B > FIRST && InFile(f, B, chain) && i < |chain|
    ensures 0 <= Pos(B, i, PTR) + PTR <= |Raw(f, B, chain)| + PTR
    ensures Rest(f, B, chain, i, PTR) == Rest(f, B, chain, 0, PTR)[Pos(B, i, PTR) + PTR..]
  {
    RawLength(f, B, chain);
    RestSkip(f, B, chain, 0, PTR, FIRST);
    if i > 0 {
      RestIsDrop(f, B, chain, i - 1);
      PosFacts(B, i - 1, B);
      RestAdvance(f, B, chain, i - 1, PTR);
      PosInRoom(f, B, chain, i - 1);
    }
  }

  lemma RestSkip(f: ByteSeq, B: nat, chain: seq<nat>, i: nat, o: nat, o': nat)
    requires B > FIRST && InFile(f, B, chain) && i < |chain| && PTR <= o <= o' <= B
    ensures o' - o <= |Rest(f, B, chain, i, o)|
    ensures Rest(f, B, chain, i, o') == Rest(f, B, chain, i, o)[o' - o..]
  {
    SubSlice(f, chain[i] + o, chain[i] + B, o' - o, B - o);
  }

  /** Where a piece of the flat byte string lies in the file. */
  lemma RawSlice(f: ByteSeq, B: nat, chain: seq<nat>, i: nat, o: nat, n: nat)
    requires B > FIRST && InFile(f, B, chain) && i < |chain| && InPayload(B, i, o) && o + n <= B
    ensures 0 <= Pos(B, i, o) && Pos(B, i, o) + n <= |Raw(f, B, chain)|
    ensures f[chain[i] + o..chain[i] + o + n] == Raw(f, B, chain)[Pos(B, i, o)..Pos(B, i, o) + n]
  {
    hide Tail;
    PosFacts(B, i, o);
    PosInRoom(f, B, chain, i);
    RestIsDrop(f, B, chain, i);
    RestSkip(f, B, chain, 0, PTR, FIRST);
    RestSkip(f, B, chain, i, PTR, o);
    RestHead(f, B, chain, i, o, n);
    var whole := Rest(f, B, chain, 0, PTR);
    DropDrop(whole, FIRST - PTR, Pos(B, i, o), n);
    DropDrop(whole, Pos(B, i, PTR) + PTR, o - PTR, n);
  }

  lemma RestHead(f: ByteSeq, B: nat, chain: seq<nat>, i: nat, o: nat, n: nat)
    requires B > FIRST && InFile(f, B, chain) && i < |chain| && PTR <= o && o + n <= B
    ensures n <= |Rest(f, B, chain, i, o)|
    ensures f[chain[i] + o..chain[i] + o + n] == Rest(f, B, chain, i, o)[..n]
  {
    SubSlice(f, chain[i] + o, chain[i] + B, 0, n);
  }

  lemma DropDrop(s: ByteSeq, a: nat, b: nat, n: nat)
    requires a + b + n <= |s|
    ensures s[a..][b..b + n] == s[a + b..a + b + n]
    ensures s[a..][b..][..n] == s[a + b..a + b + n]
  {
  }

  lemma RestPokeHere(f: ByteSeq, f': ByteSeq, B: nat, chain: seq<nat>, i: nat, o: nat, data: ByteSeq)
    requires B > FIRST && InFile(f, B, chain) && InFile(f', B, chain) && i < |chain| && PTR <= o && o + |data| <= B
    requires f' == Poke(f, chain[i] + o, data)
    requires forall j :: 0 <= j < |chain| && j != i ==> SamePayload(f, f', B, chain[j])
    ensures o - PTR <= |Rest(f, B, chain, i, PTR)|
    ensures Rest(f', B, chain, i, PTR) == Poke(Rest(f, B, chain, i, PTR), o - PTR, data)
  {
    BlockPoke(f, B, chain[i], o, data);
    var tail := chain[i + 1..];
    forall j | 0 <= j < |tail| ensures SamePayload(f, f', B, tail[j]) { assert tail[j] == chain[j + i + 1]; }
    TailFrame(f, f', B, tail);
    PokeLeft(f[chain[i] + PTR..chain[i] + B], Tail(f, B, tail), o - PTR, data);
  }

  /** Writing inside block `i` is writing at the corresponding position of the flat byte string. */
  lemma {:induction false} RestPoke(f: ByteSeq, f': ByteSeq, B: nat, chain: seq<nat>, k: nat, i: nat, o: nat,
      data: ByteSeq)
    requires B > FIRST && InFile(f, B, chain) && InFile(f', B, chain) && k <= i < |chain| && PTR <= o && o + |data| <= B
    requires f' == Poke(f, chain[i] + o, data)
    requires forall j :: 0 <= j < |chain| && j != i ==> SamePayload(f, f', B, chain[j])
    ensures 0 <= Pos(B, i - k, o) + PTR <= |Rest(f, B, chain, k, PTR)|
    ensures Rest(f', B, chain, k, PTR) == Poke(Rest(f, B, chain, k, PTR), Pos(B, i - k, o) + PTR, data)
    decreases i - k
  {
    hide Pos, Rest;
    PosStep(B, 0, o);
    if k == i {
      RestPokeHere(f, f', B, chain, i, o, data);
    } else {
      RestPoke(f, f', B, chain, k + 1, i, o, data);
      RestAdvance(f, B, chain, k, PTR);
      RestAdvance(f', B, chain, k, PTR);
      assert SamePayload(f, f', B, chain[k]);
      PosStep(B, i - k - 1, o);
      PokeRight(f[chain[k] + PTR..chain[k] + B], Rest(f, B, chain, k + 1, PTR), Pos(B, i - (k + 1), o) + PTR, data);
    }
  }

  lemma BlockPoke(f: ByteSeq, B: nat, a: nat, o: nat, data: ByteSeq)
    requires a + B <= |f| && PTR <= o && o + |data| <= B
    ensures Poke(f, a + o, data)[a + PTR..a + B] == Poke(f[a + PTR..a + B], o - PTR, data)
  {
  }

  lemma RawPoke(f: ByteSeq, f': ByteSeq, B: nat, chain: seq<nat>, i: nat, o: nat, data: ByteSeq)
    requires B > FIRST && InFile(f, B, chain) && InFile(f', B, chain) && i < |chain| && InPayload(B, i, o)
        && o + |data| <= B
    requires f' == Poke(f, chain[i] + o, data)
    requires forall j :: 0 <= j < |chain| && j != i ==> SamePayload(f, f', B, chain[j])
    ensures 0 <= Pos(B, i, o) <= |Raw(f, B, chain)|
    ensures Raw(f', B, chain) == Poke(Raw(f, B, chain), Pos(B, i, o), data)
  {
    hide Rest, SamePayload;
    PosFacts(B, i, o);
    PosInRoom(f, B, chain, i);
    RestPoke(f, f', B, chain, 0, i, o, data);
    RestSkip(f, B, chain, 0, PTR, FIRST);
    RestSkip(f', B, chain, 0, PTR, FIRST);
    PokeDrop(Rest(f, B, chain, 0, PTR), Pos(B, i, o) + PTR, data, FIRST - PTR);
  }
}
