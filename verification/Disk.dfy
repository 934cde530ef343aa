/** What the bytes of a FileStorage file mean: a 16-byte header and whole blocks, each block
    starting with the address of the next one, every block on exactly one zero-terminated chain. */
module Disk {
  import opened Bytes

  /** sizeof(FileHeader), also the address of the first block. */
  const HEADER := 16
  /** Offset of the first payload byte in the first block of a sequence (next pointer, total size). */
  const FIRST := 16

  /** Where a block is: on the chain with key `head`, at position `index`. */
  datatype Place = Place(head: nat, index: nat)

  /** `chains[0]` is the free chain; every other key is the address of a live sequence.
      `place` is the inverse of `chains`: it says where each block of the file is. */
  datatype Layout = Layout(chains: map<nat, seq<nat>>, place: map<nat, Place>, count: nat)

  /** The length of `n` blocks. */
  ghost function Span(B: nat, n: nat): nat {
    if n == 0 then 0 else Span(B, n - 1) + B
  }

  /** The addresses of the first `n` blocks of a file. */
  ghost function Grid(B: nat, n: nat): set<nat> {
    if n == 0 then {} else Grid(B, n - 1) + {HEADER + Span(B, n - 1)}
  }

  lemma {:induction false} SpanIs(B: nat, n: nat)
    ensures Span(B, n) == n * B
  {
    if n != 0 {
      SpanIs(B, n - 1);
      assert (n - 1) * B + B == n * B;
    }
  }

  lemma {:induction false} GridApart(B: nat, n: nat)
    ensures forall a :: a in Grid(B, n) ==> HEADER <= a && a + B <= HEADER + Span(B, n)
    ensures forall a, b :: a in Grid(B, n) && b in Grid(B, n) && a != b ==> a + B <= b || b + B <= a
  {
    if n != 0 { GridApart(B, n - 1); }
  }

  /** Every byte after the header belongs to exactly one block of the grid. */
  lemma {:induction false} GridTiles(B: nat, n: nat, p: nat)
    requires HEADER <= p < HEADER + n * B
    ensures exists a :: a in Grid(B, n) && a <= p < a + B
    ensures forall a, b :: a in Grid(B, n) && b in Grid(B, n) && a <= p < a + B && b <= p < b + B ==> a == b
  {
    SpanIs(B, n);
    GridApart(B, n);
    if n != 0 {
      SpanIs(B, n - 1);
      if p < HEADER + Span(B, n - 1) {
        GridTiles(B, n - 1, p);
        var a :| a in Grid(B, n - 1) && a <= p < a + B;
        assert a in Grid(B, n);
      } else {
        assert HEADER + Span(B, n - 1) in Grid(B, n);
      }
    }
  }

  ghost predicate PlacedAt(L: Layout, h: nat, i: nat)
    requires h in L.chains && i < |L.chains[h]|
  {
    L.chains[h][i] in L.place && L.place[L.chains[h][i]] == Place(h, i)
  }

  ghost predicate ChainsPlaced(L: Layout) {
    forall h, i :: h in L.chains && 0 <= i < |L.chains[h]| ==> PlacedAt(L, h, i)
  }

  ghost predicate FoundAt(L: Layout, a: nat)
    requires a in L.place
  {
    var p := L.place[a];
    p.head in L.chains && p.index < |L.chains[p.head]| && L.chains[p.head][p.index] == a
  }

  ghost predicate PlacesFound(L: Layout) {
    forall a :: a in L.place ==> FoundAt(L, a)
  }

  /** Every block of the file is at exactly one position of exactly one chain. */
  ghost predicate Shape(B: nat, L: Layout) {
    && 0 in L.chains
    && L.place.Keys == Grid(B, L.count)
    && ChainsPlaced(L)
    && PlacesFound(L)
    && (forall h :: h in L.chains && h != 0 ==> |L.chains[h]| > 0 && L.chains[h][0] == h)
  }

  ghost predicate InFile(f: ByteSeq, B: nat, chain: seq<nat>) {
    forall i :: 0 <= i < |chain| ==> chain[i] + B <= |f|
  }

  ghost function NextIn(chain: seq<nat>, i: nat): nat {
    if i + 1 < |chain| then chain[i + 1] else 0
  }

  /** Each block's first word is the address of the next block; the last one holds 0. */
  ghost predicate Linked(f: ByteSeq, B: nat, chain: seq<nat>)
    requires B > FIRST
  {
    && InFile(f, B, chain)
    && forall i {:trigger NextIn(chain, i)} :: 0 <= i < |chain| ==> Word(f, chain[i]) == NextIn(chain, i)
  }

  /** The payload bytes of a run of continuation blocks. */
  ghost function Tail(f: ByteSeq, B: nat, chain: seq<nat>): ByteSeq
    requires B > FIRST && InFile(f, B, chain)
  {
    if chain == [] then [] else
    assert InFile(f, B, chain[1..]) by { assert forall i :: 0 <= i < |chain[1..]| ==> chain[1..][i] == chain[i + 1]; }
    f[chain[0] + PTR..chain[0] + B] + Tail(f, B, chain[1..])
  }

  lemma InFileDrop(f: ByteSeq, B: nat, chain: seq<nat>, i: nat)
    requires InFile(f, B, chain) && i <= |chain|
    ensures InFile(f, B, chain[i..]) && InFile(f, B, chain[..i])
  {
    assert forall j :: 0 <= j < |chain[i..]| ==> chain[i..][j] == chain[i + j];
  }

  /** The bytes reachable from offset `o` of block number `i` of a chain to the chain's end. */
  ghost function Rest(f: ByteSeq, B: nat, chain: seq<nat>, i: nat, o: nat): ByteSeq
    requires B > FIRST && InFile(f, B, chain) && i < |chain| && PTR <= o <= B
  {
    InFileDrop(f, B, chain, i + 1);
    f[chain[i] + o..chain[i] + B] + Tail(f, B, chain[i + 1..])
  }

  /** The whole room of a sequence, used or not. */
  ghost function Raw(f: ByteSeq, B: nat, chain: seq<nat>): ByteSeq
    requires B > FIRST && InFile(f, B, chain) && |chain| > 0
  {
    Rest(f, B, chain, 0, FIRST)
  }

  lemma {:induction false} TailLength(f: ByteSeq, B: nat, chain: seq<nat>)
    requires B > FIRST && InFile(f, B, chain)
    ensures |Tail(f, B, chain)| == |chain| * (B - PTR)
  {
    if chain != [] {
      InFileDrop(f, B, chain, 1);
      TailLength(f, B, chain[1..]);
      assert |chain| * (B - PTR) == (|chain| - 1) * (B - PTR) + (B - PTR);
    }
  }

  /** At the very end of a block the rest of the chain starts in the next one. */
  lemma RestAdvance(f: ByteSeq, B: nat, chain: seq<nat>, i: nat, o: nat)
    requires B > FIRST && InFile(f, B, chain) && i < |chain| && PTR <= o <= B
    ensures i + 1 < |chain| ==> Rest(f, B, chain, i, o) == f[chain[i] + o..chain[i] + B] + Rest(f, B, chain, i + 1, PTR)
    ensures i + 1 == |chain| ==> Rest(f, B, chain, i, o) == f[chain[i] + o..chain[i] + B]
  {
    InFileDrop(f, B, chain, i + 1);
    if i + 1 < |chain| {
      assert chain[i + 1..][1..] == chain[i + 2..];
      assert chain[i + 1..][0] == chain[i + 1];
    }
  }

  ghost predicate Same(f: ByteSeq, f': ByteSeq, B: nat, a: nat) {
    a + B <= |f| && a + B <= |f'| && f[a..a + B] == f'[a..a + B]
  }

  /** The part of a block behind its next pointer is unchanged. */
  ghost predicate SamePayload(f: ByteSeq, f': ByteSeq, B: nat, a: nat) {
    PTR <= B && a + B <= |f| && a + B <= |f'| && f[a + PTR..a + B] == f'[a + PTR..a + B]
  }

  lemma SameIsSamePayload(f: ByteSeq, f': ByteSeq, B: nat, a: nat)
    requires Same(f, f', B, a) && PTR <= B
    ensures SamePayload(f, f', B, a)
  {
    SliceFrame(f, f', B, a, PTR, B);
  }

  lemma {:induction false} TailFrame(f: ByteSeq, f': ByteSeq, B: nat, chain: seq<nat>)
    requires B > FIRST
    requires forall i :: 0 <= i < |chain| ==> SamePayload(f, f', B, chain[i])
    ensures InFile(f, B, chain) && InFile(f', B, chain)
    ensures Tail(f, B, chain) == Tail(f', B, chain)
  {
    if chain != [] {
      assert forall j :: 0 <= j < |chain[1..]| ==> chain[1..][j] == chain[j + 1];
      TailFrame(f, f', B, chain[1..]);
      assert SamePayload(f, f', B, chain[0]);
    }
  }

  lemma SliceFrame(f: ByteSeq, f': ByteSeq, B: nat, a: nat, lo: nat, hi: nat)
    requires Same(f, f', B, a) && lo <= hi <= B
    ensures f[a + lo..a + hi] == f'[a + lo..a + hi]
  {
    SubSlice(f, a, a + B, lo, hi);
    SubSlice(f', a, a + B, lo, hi);
  }

  lemma WordFrame(f: ByteSeq, f': ByteSeq, B: nat, a: nat, o: nat)
    requires Same(f, f', B, a) && o + PTR <= B
    ensures Word(f, a + o) == Word(f', a + o)
  {
    SliceFrame(f, f', B, a, o, o + PTR);
  }

  lemma LinksFrame(f: ByteSeq, f': ByteSeq, B: nat, chain: seq<nat>)
    requires B > FIRST && Linked(f, B, chain)
    requires forall i :: 0 <= i < |chain| ==> Same(f, f', B, chain[i])
    ensures Linked(f', B, chain)
  {
    forall i | 0 <= i < |chain| ensures chain[i] + B <= |f'| && Word(f', chain[i]) == NextIn(chain, i) {
      assert Same(f, f', B, chain[i]);
      WordFrame(f, f', B, chain[i], 0);
    }
  }

  lemma RestFrame(f: ByteSeq, f': ByteSeq, B: nat, chain: seq<nat>, i: nat, o: nat)
    requires B > FIRST && i < |chain| && PTR <= o <= B
    requires forall j :: i <= j < |chain| ==> SamePayload(f, f', B, chain[j])
    requires InFile(f, B, chain) && InFile(f', B, chain)
    ensures Rest(f', B, chain, i, o) == Rest(f, B, chain, i, o)
  {
    var a := chain[i];
    assert SamePayload(f, f', B, a);
    SubSlice(f, a + PTR, a + B, o - PTR, B - PTR);
    SubSlice(f', a + PTR, a + B, o - PTR, B - PTR);
    var tail := chain[i + 1..];
    forall j | 0 <= j < |tail| ensures SamePayload(f, f', B, tail[j]) {
      assert tail[j] == chain[j + i + 1];
    }
    TailFrame(f, f', B, tail);
  }

  lemma ChainFrame(f: ByteSeq, f': ByteSeq, B: nat, chain: seq<nat>)
    requires B > FIRST && |chain| > 0 && InFile(f, B, chain)
    requires forall i :: 0 <= i < |chain| ==> Same(f, f', B, chain[i])
    ensures InFile(f', B, chain)
    ensures Raw(f', B, chain) == Raw(f, B, chain) && Word(f', chain[0] + PTR) == Word(f, chain[0] + PTR)
  {
    forall i | 0 <= i < |chain| ensures chain[i] + B <= |f'| && SamePayload(f, f', B, chain[i]) {
      assert Same(f, f', B, chain[i]);
      SameIsSamePayload(f, f', B, chain[i]);
    }
    RestFrame(f, f', B, chain, 0, FIRST);
    WordFrame(f, f', B, chain[0], PTR);
  }

  /** FileHeader as stored at the start of the file. */
  function HeaderBytes(firstBlock: nat, deleted: nat): (r: ByteSeq)
    ensures |r| == HEADER
  {
    ToLE(firstBlock, PTR) + ToLE(deleted, PTR)
  }

  ghost predicate HeaderOk(f: ByteSeq, L: Layout)
    requires 0 in L.chains
  {
    && |f| >= HEADER
    && Word(f, 0) == HEADER
    && Word(f, PTR) == (if L.chains[0] == [] then 0 else L.chains[0][0])
  }

  /** A live sequence: linked, and its stored total size fits in the room of its chain. */
  ghost predicate LiveOk(f: ByteSeq, B: nat, chain: seq<nat>) {
    && B > FIRST && |chain| > 0
    && Linked(f, B, chain)
    && Word(f, chain[0] + PTR) <= |Raw(f, B, chain)|
  }

  /** A sequence as its users see it: the room its blocks offer, and how much of it is in use. */
  datatype Stored = Stored(room: ByteSeq, size: nat) {
    ghost predicate Fits() { size <= |room| }

    ghost function Data(): ByteSeq
      requires Fits()
    {
      room[..size]
    }
  }

  ghost function Held(f: ByteSeq, B: nat, chain: seq<nat>): (s: Stored)
    requires LiveOk(f, B, chain)
    ensures s.Fits()
  {
    Stored(Raw(f, B, chain), Word(f, chain[0] + PTR))
  }

  /** A sequence of one zeroed block. */
  ghost function EmptySeq(B: nat): (s: Stored)
    ensures s.Fits()
  {
    Stored(if B > FIRST then Zeros(B - FIRST) else [], 0)
  }

  ghost function ChainOf(L: Layout, h: nat): seq<nat> {
    if h in L.chains then L.chains[h] else []
  }

  ghost function Free(L: Layout): seq<nat> {
    ChainOf(L, 0)
  }

  ghost predicate ChainsOk(f: ByteSeq, B: nat, L: Layout) {
    forall h :: h in L.chains && h != 0 ==> LiveOk(f, B, L.chains[h])
  }

  ghost predicate FreeOk(f: ByteSeq, B: nat, L: Layout) {
    B > FIRST && 0 in L.chains && Linked(f, B, L.chains[0])
  }

  /** The invariant of every reachable file. */
  ghost predicate DiskOk(f: ByteSeq, B: nat, L: Layout) {
    && B > FIRST
    && |f| == HEADER + Span(B, L.count)
    && |f| <= ADDR_LIMIT
    && Shape(B, L)
    && HeaderOk(f, L)
    && FreeOk(f, B, L)
    && ChainsOk(f, B, L)
  }

  /** The live sequences of a file, by address. */
  ghost function View(f: ByteSeq, B: nat, L: Layout): map<nat, Stored> {
    map h | h in L.chains && h != 0 && LiveOk(f, B, L.chains[h]) :: Held(f, B, L.chains[h])
  }

  /** Blocks lie inside the file, clear of the header and of each other. */
  ghost predicate Apart(f: ByteSeq, B: nat, blocks: set<nat>) {
    && (forall a :: a in blocks ==> HEADER <= a && a + B <= |f|)
    && (forall a, b :: a in blocks && b in blocks && a != b ==> a + B <= b || b + B <= a)
  }

  lemma BlocksApart(f: ByteSeq, B: nat, L: Layout)
    requires DiskOk(f, B, L)
    ensures Apart(f, B, L.place.Keys)
  {
    GridApart(B, L.count);
  }

  /** Writing inside one block leaves all other blocks as they were. */
  lemma PokeInBlock(f: ByteSeq, B: nat, blocks: set<nat>, a: nat, o: nat, data: ByteSeq)
    requires Apart(f, B, blocks) && a in blocks && o + |data| <= B
    ensures a + o <= |f|
    ensures var f' := Poke(f, a + o, data);
            && |f'| == |f| && (|f| >= HEADER ==> f'[..HEADER] == f[..HEADER])
            && forall b :: b in blocks && b != a ==> Same(f, f', B, b)
  {
    var f' := Poke(f, a + o, data);
    if |f| >= HEADER {
      PokeFrame(f, a + o, data, 0, HEADER);
    }
    forall b | b in blocks && b != a ensures Same(f, f', B, b) {
      assert a + B <= b || b + B <= a;
      PokeFrame(f, a + o, data, b, b + B);
    }
  }

  /** A header that is not written is not changed. */
  lemma HeaderFrame(f: ByteSeq, f': ByteSeq, L: Layout)
    requires 0 in L.chains && HeaderOk(f, L) && |f'| >= HEADER && f'[..HEADER] == f[..HEADER]
    ensures HeaderOk(f', L)
  {
    assert f'[0..PTR] == f'[..HEADER][0..PTR] == f[..HEADER][0..PTR] == f[0..PTR];
    assert f'[PTR..PTR + PTR] == f'[..HEADER][PTR..HEADER] == f[..HEADER][PTR..HEADER] == f[PTR..PTR + PTR];
  }

  lemma HeaderWrite(f: ByteSeq, deleted: nat)
    requires |f| >= HEADER && deleted < ADDR_LIMIT
    ensures var f' := Poke(f, 0, HeaderBytes(HEADER, deleted));
            |f'| == |f| && Word(f', 0) == HEADER && Word(f', PTR) == deleted && f'[HEADER..] == f[HEADER..]
  {
    var f' := Poke(f, 0, HeaderBytes(HEADER, deleted));
    assert f'[0..PTR] == ToLE(HEADER, PTR);
    assert f'[PTR..PTR + PTR] == ToLE(deleted, PTR);
    Widths();
    FromToLE(HEADER, PTR);
    FromToLE(deleted, PTR);
  }
}
