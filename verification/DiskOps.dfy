/** What each elementary file update does to the invariant and to the bytes of the live sequences. */
module DiskOps {
  import opened Bytes
  import opened Disk
  import opened Layouts
  import opened Positions

  /** Every block outside `changed` is byte for byte as before. */
  ghost predicate KeepsBlocks(f: ByteSeq, f': ByteSeq, B: nat, blocks: set<nat>, changed: set<nat>) {
    forall b :: b in blocks && b !in changed ==> Same(f, f', B, b)
  }

  ghost predicate Avoids(chain: seq<nat>, changed: set<nat>) {
    forall i :: 0 <= i < |chain| ==> chain[i] !in changed
  }

  lemma BlocksKept(f: ByteSeq, f': ByteSeq, B: nat, L: Layout, g: nat, changed: set<nat>)
    requires g in L.chains && ChainsPlaced(L) && Avoids(L.chains[g], changed)
    requires KeepsBlocks(f, f', B, L.place.Keys, changed)
    ensures forall i :: 0 <= i < |L.chains[g]| ==> Same(f, f', B, L.chains[g][i])
  {
    forall i | 0 <= i < |L.chains[g]| ensures Same(f, f', B, L.chains[g][i]) {
      assert PlacedAt(L, g, i);
    }
  }

  /** A chain none of whose blocks changed is still linked, and still holds the same bytes. */
  lemma FreeKept(f: ByteSeq, f': ByteSeq, B: nat, L: Layout, changed: set<nat>)
    requires FreeOk(f, B, L) && ChainsPlaced(L) && Avoids(L.chains[0], changed)
    requires KeepsBlocks(f, f', B, L.place.Keys, changed)
    ensures FreeOk(f', B, L)
  {
    BlocksKept(f, f', B, L, 0, changed);
    LinksFrame(f, f', B, L.chains[0]);
  }

  lemma DataKept(f: ByteSeq, f': ByteSeq, B: nat, chain: seq<nat>)
    requires LiveOk(f, B, chain) && forall i :: 0 <= i < |chain| ==> Same(f, f', B, chain[i])
    ensures LiveOk(f', B, chain) && Held(f', B, chain) == Held(f, B, chain)
  {
    LinksFrame(f, f', B, chain);
    ChainFrame(f, f', B, chain);
  }

  /** The sequences of `M` other than those in `touched` are sequences of `L` with the same blocks. */
  ghost predicate KeepsChains(L: Layout, M: Layout, touched: set<nat>) {
    forall g :: g in M.chains && g != 0 && g !in touched ==> g in L.chains && M.chains[g] == L.chains[g]
  }

  lemma OthersKept(f: ByteSeq, f': ByteSeq, B: nat, L: Layout, M: Layout, touched: set<nat>, changed: set<nat>)
    requires ChainsOk(f, B, L) && ChainsPlaced(L)
    requires KeepsChains(L, M, touched)
    requires KeepsBlocks(f, f', B, L.place.Keys, changed)
    requires forall g :: g in L.chains && g != 0 && g !in touched ==> Avoids(L.chains[g], changed)
    ensures forall g :: g in M.chains && g != 0 && g !in touched ==>
              LiveOk(f', B, M.chains[g]) && Held(f', B, M.chains[g]) == Held(f, B, L.chains[g])
  {
    hide LiveOk, Held, KeepsBlocks, ChainsPlaced;
    forall g | g in M.chains && g != 0 && g !in touched
      ensures LiveOk(f', B, M.chains[g]) && Held(f', B, M.chains[g]) == Held(f, B, L.chains[g])
    {
      BlocksKept(f, f', B, L, g, changed);
      DataKept(f, f', B, L.chains[g]);
    }
  }

  /** A zeroed block is a sequence of one block that holds nothing. */
  lemma ZeroBlock(f: ByteSeq, B: nat, a: nat)
    requires B > FIRST && a + B <= |f| && f[a..a + B] == Zeros(B)
    ensures LiveOk(f, B, [a]) && Held(f, B, [a]) == EmptySeq(B)
  {
    hide Word;
    ZeroWords(f, B, a);
    SubSlice(f, a, a + B, FIRST, B);
    assert Zeros(B)[FIRST..B] == Zeros(B - FIRST);
    assert Raw(f, B, [a]) == Zeros(B - FIRST);
  }

  lemma ZeroWords(f: ByteSeq, B: nat, a: nat)
    requires B > FIRST && a + B <= |f| && f[a..a + B] == Zeros(B)
    ensures Word(f, a) == 0 && Word(f, a + PTR) == 0
  {
    SubSlice(f, a, a + B, 0, PTR);
    SubSlice(f, a, a + B, PTR, PTR + PTR);
    assert Zeros(B)[0..PTR] == Zeros(PTR);
    assert Zeros(B)[PTR..PTR + PTR] == Zeros(PTR);
    ZerosAreZero(PTR);
  }

  ghost predicate IsNewSequence(L: Layout, M: Layout, a: nat) {
    && a != 0 && a !in L.chains && 0 in M.chains
    && M.chains.Keys == L.chains.Keys + {a} && M.chains[a] == [a]
    && KeepsChains(L, M, {a})
  }

  /** Once the links, the header and the new block are in place, the file is in order again. */
  lemma NewSequenceOk(f: ByteSeq, f': ByteSeq, B: nat, L: Layout, M: Layout, a: nat)
    requires B > FIRST && 0 in L.chains && ChainsOk(f, B, L) && ChainsPlaced(L) && IsNewSequence(L, M, a)
    requires KeepsBlocks(f, f', B, L.place.Keys, {a})
    requires forall g :: g in L.chains && g != 0 ==> Avoids(L.chains[g], {a})
    requires a + B <= |f'| && f'[a..a + B] == Zeros(B)
    ensures ChainsOk(f', B, M)
    ensures View(f', B, M) == View(f, B, L)[a := EmptySeq(B)]
  {
    hide LiveOk, Held, KeepsBlocks, ChainsPlaced;
    ZeroBlock(f', B, a);
    OthersKept(f, f', B, L, M, {a}, {a});
  }

  lemma GrowDisk(f: ByteSeq, B: nat, L: Layout)
    requires DiskOk(f, B, L) && |f| + B <= ADDR_LIMIT
    ensures var f', M := Poke(f, |f|, Zeros(B)), Grown(L, |f|);
            && |f| !in L.chains && |f'| == |f| + B
            && DiskOk(f', B, M) && View(f', B, M) == View(f, B, L)[|f| := EmptySeq(B)]
            && KeepsBlocks(f, f', B, L.place.Keys, {})
  {
    hide LiveOk, Held, Linked, Word, KeepsBlocks, PlacesFound, FoundAt;
    var a := |f|;
    var f', M := Poke(f, a, Zeros(B)), Grown(L, a);
    GrownShape(B, L);
    BlocksApart(f, B, L);
    GrowBytes(f, B, L.place.Keys);
    HeaderFrame(f, f', L);
    forall g | g in L.chains ensures Avoids(L.chains[g], {a}) {
      forall i | 0 <= i < |L.chains[g]| ensures L.chains[g][i] !in {a} { assert PlacedAt(L, g, i); }
    }
    FreeKept(f, f', B, L, {a});
    NewSequenceOk(f, f', B, L, M, a);
  }

  lemma GrowBytes(f: ByteSeq, B: nat, blocks: set<nat>)
    requires |f| >= HEADER && Apart(f, B, blocks)
    ensures var f' := Poke(f, |f|, Zeros(B));
            && |f'| == |f| + B && f'[|f|..|f| + B] == Zeros(B) && f'[..HEADER] == f[..HEADER]
            && KeepsBlocks(f, f', B, blocks, {}) && KeepsBlocks(f, f', B, blocks, {|f|})
  {
    forall b | b in blocks ensures Same(f, Poke(f, |f|, Zeros(B)), B, b) {
      PokeFrame(f, |f|, Zeros(B), b, b + B);
    }
    PokeHit(f, |f|, Zeros(B));
    PokeFrame(f, |f|, Zeros(B), 0, HEADER);
  }

  /** The address of a block that exists: positive and representable. */
  lemma BlockAddress(f: ByteSeq, B: nat, L: Layout, h: nat, i: nat)
    requires DiskOk(f, B, L) && h in L.chains && i < |L.chains[h]|
    ensures HEADER <= L.chains[h][i] && L.chains[h][i] + B <= |f|
  {
    hide LiveOk, Linked;
    assert PlacedAt(L, h, i);
    GridApart(B, L.count);
  }

  /** Blocks on other chains than `h`, or at other positions, are other blocks. */
  lemma OtherBlock(L: Layout, g: nat, i: nat, h: nat, j: nat)
    requires ChainsPlaced(L) && g in L.chains && h in L.chains && i < |L.chains[g]| && j < |L.chains[h]|
    requires g != h || i != j
    ensures L.chains[g][i] != L.chains[h][j]
  {
    assert PlacedAt(L, g, i) && PlacedAt(L, h, j);
  }

  lemma ChainAvoids(L: Layout, g: nat, h: nat, j: nat)
    requires ChainsPlaced(L) && g in L.chains && h in L.chains && j < |L.chains[h]| && g != h
    ensures Avoids(L.chains[g], {L.chains[h][j]})
  {
    forall i | 0 <= i < |L.chains[g]| ensures L.chains[g][i] !in {L.chains[h][j]} {
      OtherBlock(L, g, i, h, j);
    }
  }

  /** getAddrForANewBlock on a nonempty free chain, followed by initBlock: the head block is unlinked
      and zeroed, and the header names the next one. */
  ghost function PopFile(f: ByteSeq, B: nat): ByteSeq
    requires |f| >= HEADER && Word(f, PTR) + B <= |f| && B > FIRST
  {
    var a := Word(f, PTR);
    var f1 := Poke(f, a, ToLE(0, PTR));
    var f2 := Poke(f1, 0, HeaderBytes(HEADER, Word(f, a)));
    Poke(f2, a, Zeros(B))
  }

  lemma PopBytes(f: ByteSeq, B: nat, blocks: set<nat>, a: nat)
    requires B > FIRST && |f| >= HEADER && Word(f, PTR) == a && Apart(f, B, blocks) && a in blocks
        && Word(f, a) < ADDR_LIMIT
    ensures var f' := PopFile(f, B);
            && |f'| == |f| && KeepsBlocks(f, f', B, blocks, {a})
            && f'[a..a + B] == Zeros(B) && Word(f', 0) == HEADER && Word(f', PTR) == Word(f, a)
  {
    hide Word, Same;
    var h := HeaderBytes(HEADER, Word(f, a));
    var f1 := Poke(f, a, ToLE(0, PTR));
    var f2 := Poke(f1, 0, h);
    var f3 := Poke(f2, a, Zeros(B));
    PokeInBlock(f, B, blocks, a, 0, ToLE(0, PTR));
    HeaderWrite(f1, Word(f, a));
    PokeInBlock(f2, B, blocks, a, 0, Zeros(B));
    PokeHit(f2, a, Zeros(B));
    HeaderWordsKept(f2, f3);
    forall b | b in blocks && b != a ensures Same(f, f3, B, b) {
      assert Same(f, f1, B, b) && Same(f2, f3, B, b);
      SameOverHeader(f1, h, B, b);
      SameTrans(f, f1, f2, B, b);
      SameTrans(f, f2, f3, B, b);
    }
  }

  lemma SameOverHeader(f: ByteSeq, h: ByteSeq, B: nat, b: nat)
    requires |h| == HEADER <= b && b + B <= |f|
    ensures Same(f, Poke(f, 0, h), B, b)
  {
    PokeFrame(f, 0, h, b, b + B);
  }

  lemma SameTrans(f: ByteSeq, f1: ByteSeq, f2: ByteSeq, B: nat, b: nat)
    requires Same(f, f1, B, b) && Same(f1, f2, B, b)
    ensures Same(f, f2, B, b)
  {
  }

  lemma FreeHead(f: ByteSeq, B: nat, L: Layout)
    requires DiskOk(f, B, L) && L.chains[0] != []
    ensures var a := L.chains[0][0];
            && a == Word(f, PTR) && HEADER <= a && a + B <= |f| && a in L.place
            && Word(f, a) == NextIn(L.chains[0], 0) < ADDR_LIMIT
  {
    hide LiveOk;
    BlockAddress(f, B, L, 0, 0);
    if |L.chains[0]| > 1 { BlockAddress(f, B, L, 0, 1); }
    assert PlacedAt(L, 0, 0);
  }

  lemma PopDisk(f: ByteSeq, B: nat, L: Layout)
    requires DiskOk(f, B, L) && L.chains[0] != []
    ensures var a := L.chains[0][0];
            && a == Word(f, PTR) && a != 0 && a + B <= |f| && a !in L.chains
            && Word(f, a) == NextIn(L.chains[0], 0)
            && |PopFile(f, B)| == |f|
            && DiskOk(PopFile(f, B), B, Popped(L))
            && View(PopFile(f, B), B, Popped(L)) == View(f, B, L)[a := EmptySeq(B)]
            && KeepsBlocks(f, PopFile(f, B), B, L.place.Keys, {a})
  {
    hide LiveOk, Held, Linked, Word, PopFile, ChainsOk, View, KeepsBlocks, ChainsPlaced, PlacesFound, Grid;
    var a, M := L.chains[0][0], Popped(L);
    FreeHead(f, B, L);
    PoppedShape(B, L);
    BlocksApart(f, B, L);
    PopBytes(f, B, L.place.Keys, a);
    PopLinks(f, PopFile(f, B), B, L, a);
    forall g | g in L.chains && g != 0 ensures Avoids(L.chains[g], {a}) { ChainAvoids(L, g, 0, 0); }
    NewSequenceOk(f, PopFile(f, B), B, L, M, a);
  }

  lemma PopLinks(f: ByteSeq, f': ByteSeq, B: nat, L: Layout, a: nat)
    requires FreeOk(f, B, L) && ChainsPlaced(L) && L.chains[0] != [] && L.chains[0][0] == a
    requires KeepsBlocks(f, f', B, L.place.Keys, {a})
    ensures Linked(f', B, L.chains[0][1..])
  {
    var free, tail := L.chains[0], L.chains[0][1..];
    forall i | 0 <= i < |tail| ensures tail[i] + B <= |f'| && Word(f', tail[i]) == NextIn(tail, i) {
      assert tail[i] == free[i + 1] && PlacedAt(L, 0, i + 1) && PlacedAt(L, 0, 0);
      assert Same(f, f', B, free[i + 1]);
      WordFrame(f, f', B, free[i + 1], 0);
      assert NextIn(tail, i) == NextIn(free, i + 1);
    }
  }

  lemma {:induction false} TailAppend(f: ByteSeq, B: nat, chain: seq<nat>, more: seq<nat>)
    requires B > FIRST && InFile(f, B, chain) && InFile(f, B, more)
    ensures InFile(f, B, chain + more)
    ensures Tail(f, B, chain + more) == Tail(f, B, chain) + Tail(f, B, more)
  {
    if chain == [] {
      assert chain + more == more;
    } else {
      InFileDrop(f, B, chain, 1);
      TailAppend(f, B, chain[1..], more);
      InFileJoin(f, B, chain, more);
      TailCons(f, B, chain, more);
    }
  }

  lemma TailCons(f: ByteSeq, B: nat, chain: seq<nat>, more: seq<nat>)
    requires B > FIRST && |chain| > 0 && InFile(f, B, chain) && InFile(f, B, chain + more)
    requires InFile(f, B, chain[1..]) && InFile(f, B, chain[1..] + more)
    ensures Tail(f, B, chain) == f[chain[0] + PTR..chain[0] + B] + Tail(f, B, chain[1..])
    ensures Tail(f, B, chain + more) == f[chain[0] + PTR..chain[0] + B] + Tail(f, B, chain[1..] + more)
  {
    assert (chain + more)[1..] == chain[1..] + more;
    assert (chain + more)[0] == chain[0];
  }

  lemma InFileJoin(f: ByteSeq, B: nat, chain: seq<nat>, more: seq<nat>)
    requires InFile(f, B, chain) && InFile(f, B, more)
    ensures InFile(f, B, chain + more)
  {
  }

  /** Lengthening a chain adds the new blocks' payload at its end. */
  lemma RestAppend(f: ByteSeq, B: nat, chain: seq<nat>, more: seq<nat>, i: nat, o: nat)
    requires B > FIRST && InFile(f, B, chain) && InFile(f, B, more) && i < |chain| && PTR <= o <= B
    ensures InFile(f, B, chain + more)
    ensures Rest(f, B, chain + more, i, o) == Rest(f, B, chain, i, o) + Tail(f, B, more)
  {
    hide Tail;
    InFileJoin(f, B, chain, more);
    InFileDrop(f, B, chain, i + 1);
    TailAppend(f, B, chain[i + 1..], more);
    assert (chain + more)[i + 1..] == chain[i + 1..] + more;
  }

  /** linkBlocks inside a sequence: only the next pointer of one block changes. */
  lemma LinkBytes(f: ByteSeq, B: nat, blocks: set<nat>, b: nat, next: nat)
    requires B > FIRST && |f| >= HEADER && Apart(f, B, blocks) && b in blocks && next < ADDR_LIMIT
    ensures var f' := Poke(f, b, ToLE(next, PTR));
            && |f'| == |f| && f'[..HEADER] == f[..HEADER] && KeepsBlocks(f, f', B, blocks, {b})
            && Word(f', b) == next && SamePayload(f, f', B, b)
            && f'[b + PTR..b + FIRST] == f[b + PTR..b + FIRST]
  {
    hide Poke, ToLE, Word;
    PokeInBlock(f, B, blocks, b, 0, ToLE(next, PTR));
    PokeWord(f, b, next);
    PokeFrame(f, b, ToLE(next, PTR), b + PTR, b + B);
    PokeFrame(f, b, ToLE(next, PTR), b + PTR, b + FIRST);
  }

  ghost predicate KeepsPayload(f: ByteSeq, f': ByteSeq, B: nat, chain: seq<nat>) {
    forall i :: 0 <= i < |chain| ==> SamePayload(f, f', B, chain[i])
  }

  lemma PayloadKept(f: ByteSeq, f': ByteSeq, B: nat, L: Layout, g: nat, b: nat)
    requires B >= PTR && g in L.chains && ChainsPlaced(L)
    requires KeepsBlocks(f, f', B, L.place.Keys, {b}) && SamePayload(f, f', B, b)
    ensures KeepsPayload(f, f', B, L.chains[g])
  {
    forall i | 0 <= i < |L.chains[g]| ensures SamePayload(f, f', B, L.chains[g][i]) {
      assert PlacedAt(L, g, i);
      if L.chains[g][i] != b { SameIsSamePayload(f, f', B, L.chains[g][i]); }
    }
  }

  /** Two chains become one when the last block of the first is linked to the first block of the second. */
  lemma Joined(f: ByteSeq, f': ByteSeq, B: nat, one: seq<nat>, two: seq<nat>)
    requires B > FIRST && |one| > 0 && |two| > 0 && Linked(f, B, one) && Linked(f, B, two)
    requires forall i :: 0 <= i < |one| - 1 ==> Same(f, f', B, one[i])
    requires forall i :: 0 <= i < |two| ==> Same(f, f', B, two[i])
    requires one[|one| - 1] + B <= |f'| && Word(f', one[|one| - 1]) == two[0]
    ensures Linked(f', B, one + two)
  {
    var all, n := one + two, |one|;
    forall i | 0 <= i < |all| ensures all[i] + B <= |f'| && Word(f', all[i]) == NextIn(all, i) {
      if i < n - 1 {
        assert all[i] == one[i] && Same(f, f', B, one[i]);
        WordFrame(f, f', B, one[i], 0);
        assert NextIn(all, i) == NextIn(one, i);
      } else if i >= n {
        assert all[i] == two[i - n] && Same(f, f', B, two[i - n]);
        WordFrame(f, f', B, two[i - n], 0);
        assert NextIn(all, i) == NextIn(two, i - n);
      }
    }
  }

  /** A sequence after block `a` was added at its end. */
  ghost function Extended(f: ByteSeq, B: nat, chain: seq<nat>, a: nat): Stored {
    if LiveOk(f, B, chain) && a + B <= |f| then Stored(Raw(f, B, chain) + f[a + PTR..a + B], Held(f, B, chain).size)
    else EmptySeq(B)
  }

  lemma SameFreeChain(f: ByteSeq, B: nat, L: Layout, M: Layout)
    requires 0 in L.chains && 0 in M.chains && M.chains[0] == L.chains[0] && HeaderOk(f, L) && FreeOk(f, B, L)
    ensures HeaderOk(f, M) && FreeOk(f, B, M)
  {
  }

  lemma AttachChain(f: ByteSeq, f': ByteSeq, B: nat, L: Layout, h: nat, a: nat)
    requires B > FIRST && ChainsPlaced(L) && h in L.chains && a in L.chains && a != h && L.chains[a] == [a]
    requires LiveOk(f, B, L.chains[h]) && LiveOk(f, B, [a])
    requires var last := L.chains[h][|L.chains[h]| - 1];
             && last + B <= |f'| && KeepsBlocks(f, f', B, L.place.Keys, {last})
             && Word(f', last) == a && SamePayload(f, f', B, last)
    ensures var chain := L.chains[h];
            && LiveOk(f', B, chain + [a]) && Held(f', B, chain + [a]) == Extended(f, B, chain, a)
  {
    hide KeepsBlocks;
    var chain, last := L.chains[h], L.chains[h][|L.chains[h]| - 1];
    forall i | 0 <= i < |chain| - 1 ensures Same(f, f', B, chain[i]) {
      assert PlacedAt(L, h, i) && PlacedAt(L, h, |chain| - 1);
      KeptOne(f, f', B, L.place.Keys, last, chain[i]);
    }
    assert PlacedAt(L, a, 0) && PlacedAt(L, h, |chain| - 1);
    KeptOne(f, f', B, L.place.Keys, last, a);
    Joined(f, f', B, chain, [a]);
    PayloadKept(f, f', B, L, h, last);
    ExtendedHeld(f, f', B, chain, a);
    SliceFrame(f, f', B, a, PTR, B);
  }

  lemma KeptOne(f: ByteSeq, f': ByteSeq, B: nat, blocks: set<nat>, last: nat, b: nat)
    requires KeepsBlocks(f, f', B, blocks, {last}) && b in blocks && b != last
    ensures Same(f, f', B, b)
  {
  }

  /** The total size lies behind the next pointer of the first block. */
  lemma SizeKept(f: ByteSeq, f': ByteSeq, B: nat, c: nat)
    requires B >= FIRST && SamePayload(f, f', B, c)
    ensures Word(f', c + PTR) == Word(f, c + PTR)
  {
    SubSlice(f, c + PTR, c + B, 0, PTR);
    SubSlice(f', c + PTR, c + B, 0, PTR);
  }

  lemma InFileParts(f: ByteSeq, B: nat, chain: seq<nat>, more: seq<nat>)
    requires InFile(f, B, chain + more)
    ensures InFile(f, B, chain) && InFile(f, B, more)
  {
    forall i | 0 <= i < |chain| ensures chain[i] + B <= |f| { assert (chain + more)[i] == chain[i]; }
    forall i | 0 <= i < |more| ensures more[i] + B <= |f| { assert (chain + more)[|chain| + i] == more[i]; }
  }

  lemma ExtendedHeld(f: ByteSeq, f': ByteSeq, B: nat, chain: seq<nat>, a: nat)
    requires LiveOk(f, B, chain) && KeepsPayload(f, f', B, chain) && Linked(f', B, chain + [a])
    requires a + B <= |f'|
    ensures LiveOk(f', B, chain + [a])
    ensures Held(f', B, chain + [a]) == Stored(Raw(f, B, chain) + f'[a + PTR..a + B], Held(f, B, chain).size)
  {
    hide Rest, Word;
    InFileParts(f', B, chain, [a]);
    RestFrame(f, f', B, chain, 0, FIRST);
    RestAppend(f', B, chain, [a], 0, FIRST);
    SizeKept(f, f', B, chain[0]);
    assert (chain + [a])[0] == chain[0];
    assert Tail(f', B, [a]) == f'[a + PTR..a + B] + Tail(f', B, []);
  }

  lemma AttachBytes(f: ByteSeq, B: nat, L: Layout, h: nat, a: nat)
    requires DiskOk(f, B, L) && h in L.chains && h != 0 && a in L.chains && a != 0 && a != h && L.chains[a] == [a]
    ensures |L.chains[h]| > 0
    ensures var last := L.chains[h][|L.chains[h]| - 1];
            && last + B <= |f| && a + B <= |f|
            && var f' := Poke(f, last, ToLE(a, PTR));
            && |f'| == |f| && HeaderOk(f', L) && FreeOk(f', B, L)
            && KeepsBlocks(f, f', B, L.place.Keys, {last}) && SamePayload(f, f', B, last) && Word(f', last) == a
  {
    hide Linked, Held, LiveOk, KeepsBlocks, PlacesFound, Grid, Word, SamePayload, ChainsPlaced;
    var n := |L.chains[h]| - 1;
    BlockAddress(f, B, L, h, n);
    BlockAddress(f, B, L, a, 0);
    var last := L.chains[h][n];
    BlocksApart(f, B, L);
    InPlace(L, h, n);
    LinkBytes(f, B, L.place.Keys, last, a);
    HeaderFrame(f, Poke(f, last, ToLE(a, PTR)), L);
    ChainAvoids(L, 0, h, n);
    FreeKept(f, Poke(f, last, ToLE(a, PTR)), B, L, {last});
  }

  lemma AttachDisk(f: ByteSeq, B: nat, L: Layout, h: nat, a: nat)
    requires DiskOk(f, B, L) && h in L.chains && h != 0 && a in L.chains && a != 0 && a != h && L.chains[a] == [a]
    ensures |L.chains[h]| > 0
    ensures var chain, M := L.chains[h], Attached(L, h, a);
            var last := chain[|chain| - 1];
            && last + B <= |f|
            && var f' := Poke(f, last, ToLE(a, PTR));
            && |f'| == |f| && DiskOk(f', B, M)
            && a + B <= |f| && View(f', B, M) == (View(f, B, L) - {a})[h := Extended(f, B, chain, a)]
  {
    hide Linked, Held, LiveOk, KeepsBlocks, PlacesFound, Grid, Word, SamePayload, ChainsPlaced, Extended, Poke, FreeOk,
        HeaderOk, ChainsOk, View;
    AttachBytes(f, B, L, h, a);
    AttachedShape(B, L, h, a);
    var f' := Poke(f, L.chains[h][|L.chains[h]| - 1], ToLE(a, PTR));
    AttachView(f, f', B, L, h, a);
    SameFreeChain(f', B, L, Attached(L, h, a));
  }

  lemma AttachView(f: ByteSeq, f': ByteSeq, B: nat, L: Layout, h: nat, a: nat)
    requires B > FIRST && ChainsPlaced(L) && ChainsOk(f, B, L)
    requires h in L.chains && h != 0 && a in L.chains && a != 0 && a != h && L.chains[a] == [a] && a + B <= |f|
    requires |L.chains[h]| > 0
    requires var last := L.chains[h][|L.chains[h]| - 1];
             && last + B <= |f'| && KeepsBlocks(f, f', B, L.place.Keys, {last})
             && Word(f', last) == a && SamePayload(f, f', B, last)
    ensures ChainsOk(f', B, Attached(L, h, a))
    ensures View(f', B, Attached(L, h, a)) == (View(f, B, L) - {a})[h := Extended(f, B, L.chains[h], a)]
  {
    hide Linked, Held, LiveOk, KeepsBlocks, Word, SamePayload, ChainsPlaced, Extended;
    var last, M := L.chains[h][|L.chains[h]| - 1], Attached(L, h, a);
    AttachChain(f, f', B, L, h, a);
    forall g | g in L.chains && g != h ensures Avoids(L.chains[g], {last}) { ChainAvoids(L, g, h, |L.chains[h]| - 1); }
    OthersKept(f, f', B, L, M, {h}, {last});
  }

  lemma InPlace(L: Layout, h: nat, i: nat)
    requires ChainsPlaced(L) && h in L.chains && i < |L.chains[h]|
    ensures L.chains[h][i] in L.place
  {
    assert PlacedAt(L, h, i);
  }

  /** internalDeleteBlockSq: the chain starting at `first` is hung behind the last free block,
      or becomes the free chain when there was none. */
  ghost function FreeFile(f: ByteSeq, free: seq<nat>, first: nat): (r: ByteSeq)
    requires |f| >= HEADER && (free != [] ==> free[|free| - 1] + PTR <= |f|)
    ensures |r| == |f|
  {
    if free == [] then Poke(f, 0, HeaderBytes(HEADER, first)) else Poke(f, free[|free| - 1], ToLE(first, PTR))
  }

  ghost function LastOf(free: seq<nat>): set<nat> {
    if free == [] then {} else {free[|free| - 1]}
  }

  lemma FreeBytes(f: ByteSeq, B: nat, blocks: set<nat>, free: seq<nat>, first: nat)
    requires B > FIRST && |f| >= HEADER && Apart(f, B, blocks) && first < ADDR_LIMIT
    requires Word(f, 0) == HEADER && Word(f, PTR) == NextIn([0] + free, 0)
    requires free != [] ==> free[|free| - 1] in blocks && free[|free| - 1] + PTR <= |f|
    ensures var f' := FreeFile(f, free, first);
            && KeepsBlocks(f, f', B, blocks, LastOf(free))
            && (free != [] ==> Word(f', free[|free| - 1]) == first)
            && Word(f', 0) == HEADER && Word(f', PTR) == if free == [] then first else free[0]
  {
    var f' := FreeFile(f, free, first);
    if free == [] {
      var h := HeaderBytes(HEADER, first);
      HeaderWrite(f, first);
      forall b | b in blocks ensures Same(f, f', B, b) {
        PokeFrame(f, 0, h, b, b + B);
      }
    } else {
      LinkBytes(f, B, blocks, free[|free| - 1], first);
      SubSlice(f, 0, HEADER, 0, PTR);
      SubSlice(f', 0, HEADER, 0, PTR);
      SubSlice(f, 0, HEADER, PTR, HEADER);
      SubSlice(f', 0, HEADER, PTR, HEADER);
    }
  }

  /** The free chain after part of sequence `h`, from block `j` on, was hung behind it. */
  lemma FreeLinks(f: ByteSeq, f': ByteSeq, B: nat, L: Layout, h: nat, j: nat)
    requires B > FIRST && ChainsPlaced(L) && 0 in L.chains && h in L.chains && h != 0 && j < |L.chains[h]|
    requires Linked(f, B, L.chains[0]) && Linked(f, B, L.chains[h])
    requires KeepsBlocks(f, f', B, L.place.Keys, LastOf(L.chains[0]))
    requires L.chains[0] != [] ==> var last := L.chains[0][|L.chains[0]| - 1];
                                   last + B <= |f'| && Word(f', last) == L.chains[h][j]
    ensures Linked(f', B, L.chains[0] + L.chains[h][j..])
  {
    hide Linked, Word;
    var free, tail := L.chains[0], L.chains[h][j..];
    TailLinked(f, B, L.chains[h], j);
    forall i | 0 <= i < |tail| ensures Same(f, f', B, tail[i]) {
      assert tail[i] == L.chains[h][i + j] && PlacedAt(L, h, i + j);
      assert free != [] ==> PlacedAt(L, 0, |free| - 1);
    }
    if free == [] {
      assert free + tail == tail;
      LinksFrame(f, f', B, tail);
    } else {
      forall i | 0 <= i < |free| - 1 ensures Same(f, f', B, free[i]) {
        assert PlacedAt(L, 0, i) && PlacedAt(L, 0, |free| - 1);
      }
      Joined(f, f', B, free, tail);
    }
  }

  lemma TailLinked(f: ByteSeq, B: nat, chain: seq<nat>, j: nat)
    requires B > FIRST && Linked(f, B, chain) && j <= |chain|
    ensures Linked(f, B, chain[j..])
  {
    var tail := chain[j..];
    forall i | 0 <= i < |tail| ensures tail[i] + B <= |f| && Word(f, tail[i]) == NextIn(tail, i) {
      assert tail[i] == chain[i + j] && NextIn(tail, i) == NextIn(chain, i + j);
    }
  }

  /** linkBlocks(block j - 1, 0) ends a chain there. */
  lemma CutLinked(f: ByteSeq, f': ByteSeq, B: nat, chain: seq<nat>, j: nat)
    requires B > FIRST && Linked(f, B, chain) && 0 < j <= |chain|
    requires forall i :: 0 <= i < j - 1 ==> Same(f, f', B, chain[i])
    requires chain[j - 1] + B <= |f'| && Word(f', chain[j - 1]) == 0
    ensures Linked(f', B, chain[..j])
  {
    hide Word;
    var cut := chain[..j];
    forall i | 0 <= i < |cut| ensures cut[i] + B <= |f'| && Word(f', cut[i]) == NextIn(cut, i) {
      assert cut[i] == chain[i];
      if i < j - 1 {
        assert Same(f, f', B, chain[i]);
        WordFrame(f, f', B, chain[i], 0);
        assert NextIn(cut, i) == NextIn(chain, i);
      }
    }
  }

  /** A sequence after the blocks from number `j` on are gone. */
  ghost function CutAt(f: ByteSeq, B: nat, chain: seq<nat>, j: nat): Stored {
    if LiveOk(f, B, chain) && 0 < j <= |chain| then
      InFileDrop(f, B, chain, j);
      Stored(Raw(f, B, chain[..j]), Held(f, B, chain).size)
    else EmptySeq(B)
  }

  lemma CutHeld(f: ByteSeq, f': ByteSeq, B: nat, chain: seq<nat>, j: nat)
    requires LiveOk(f, B, chain) && 0 < j <= |chain|
    requires KeepsPayload(f, f', B, chain[..j]) && Linked(f', B, chain[..j])
    requires InFile(f, B, chain[..j]) && Word(f, chain[0] + PTR) <= |Raw(f, B, chain[..j])|
    ensures LiveOk(f', B, chain[..j]) && Held(f', B, chain[..j])
        == Stored(Raw(f, B, chain[..j]), Held(f, B, chain).size)
  {
    hide Rest, Tail, Word;
    InFileDrop(f, B, chain, j);
    assert chain[..j] + chain[j..] == chain;
    RestFrame(f, f', B, chain[..j], 0, FIRST);
    RestAppend(f, B, chain[..j], chain[j..], 0, FIRST);
    assert chain[..j][0] == chain[0];
    assert SamePayload(f, f', B, chain[..j][0]);
    SizeKept(f, f', B, chain[0]);
  }

  lemma DropDisk(f: ByteSeq, B: nat, L: Layout, h: nat)
    requires DiskOk(f, B, L) && h in L.chains && h != 0
    ensures L.chains[0] != [] ==> L.chains[0][|L.chains[0]| - 1] + PTR <= |f|
    ensures var f', M := FreeFile(f, L.chains[0], h), Dropped(L, h);
            DiskOk(f', B, M) && View(f', B, M) == View(f, B, L) - {h}
  {
    hide Held, LiveOk, KeepsBlocks, PlacesFound, Grid, Word, ChainsPlaced;
    var free, chain, M := L.chains[0], L.chains[h], Dropped(L, h);
    if free != [] {
      BlockAddress(f, B, L, 0, |free| - 1);
      InPlace(L, 0, |free| - 1);
    }
    BlockAddress(f, B, L, h, 0);
    DroppedShape(B, L, h);
    BlocksApart(f, B, L);
    var f' := FreeFile(f, free, h);
    FreeBytes(f, B, L.place.Keys, free, h);
    LiveIsLinked(f, B, chain);
    assert chain[0..] == chain;
    FreeLinks(f, f', B, L, h, 0);
    forall g | g in L.chains && g != 0 ensures Avoids(L.chains[g], LastOf(free)) {
      if free != [] { ChainAvoids(L, g, 0, |free| - 1); }
    }
    OthersKept(f, f', B, L, M, {}, LastOf(free));
  }

  lemma LiveIsLinked(f: ByteSeq, B: nat, chain: seq<nat>)
    requires LiveOk(f, B, chain)
    ensures |chain| > 0 && B > FIRST && Linked(f, B, chain)
  {
  }

  /** The file after the tail of sequence `h`, from block `j` on, was released: hung behind the free chain,
      then cut off from block `j - 1`. */
  ghost function ReleaseFile(f: ByteSeq, free: seq<nat>, chain: seq<nat>, j: nat): (r: ByteSeq)
    requires |f| >= HEADER && (free != [] ==> free[|free| - 1] + PTR <= |f|)
    requires 0 < j < |chain| && chain[j - 1] + PTR <= |f|
    ensures |r| == |f|
  {
    Poke(FreeFile(f, free, chain[j]), chain[j - 1], ToLE(0, PTR))
  }

  lemma ReleaseBytes(f: ByteSeq, B: nat, blocks: set<nat>, free: seq<nat>, chain: seq<nat>, j: nat)
    requires B > FIRST && |f| >= HEADER && Apart(f, B, blocks) && 0 < j < |chain| && chain[j] < ADDR_LIMIT
    requires Word(f, 0) == HEADER && Word(f, PTR) == NextIn([0] + free, 0)
    requires free != [] ==>
               free[|free| - 1] in blocks && free[|free| - 1] + PTR <= |f| && free[|free| - 1] != chain[j - 1]
    requires chain[j - 1] in blocks && chain[j - 1] + PTR <= |f|
    ensures var f' := ReleaseFile(f, free, chain, j);
            && KeepsBlocks(FreeFile(f, free, chain[j]), f', B, blocks, {chain[j - 1]})
            && KeepsBlocks(f, f', B, blocks, LastOf(free) + {chain[j - 1]})
            && KeepsBlocks(f, FreeFile(f, free, chain[j]), B, blocks, LastOf(free))
            && (free != [] ==> Word(FreeFile(f, free, chain[j]), free[|free| - 1]) == chain[j])
            && chain[j - 1] + B <= |f'| && Word(f', chain[j - 1]) == 0 && SamePayload(f, f', B, chain[j - 1])
            && Word(f', 0) == HEADER && Word(f', PTR) == if free == [] then chain[j] else free[0]
  {
    hide HeaderBytes, Word;
    var b := chain[j - 1];
    var f1 := FreeFile(f, free, chain[j]);
    FreeBytes(f, B, blocks, free, chain[j]);
    assert Same(f, f1, B, b);
    LinkBytes(f1, B, blocks, b, 0);
    var f' := ReleaseFile(f, free, chain, j);
    SameIsSamePayload(f, f1, B, b);
    HeaderWordsKept(f1, f');
    forall c | c in blocks && c !in LastOf(free) + {b} ensures Same(f, f', B, c) {
      assert Same(f, f1, B, c) && Same(f1, f', B, c);
    }
  }

  lemma HeaderWordsKept(f: ByteSeq, f': ByteSeq)
    requires |f| >= HEADER && |f'| >= HEADER && f'[..HEADER] == f[..HEADER]
    ensures Word(f', 0) == Word(f, 0) && Word(f', PTR) == Word(f, PTR)
  {
    SubSlice(f, 0, HEADER, 0, PTR);
    SubSlice(f', 0, HEADER, 0, PTR);
    SubSlice(f, 0, HEADER, PTR, HEADER);
    SubSlice(f', 0, HEADER, PTR, HEADER);
  }

  /** Both halves of the released chain are linked chains again. */
  lemma ReleaseLinks(f: ByteSeq, f1: ByteSeq, f': ByteSeq, B: nat, L: Layout, h: nat, j: nat)
    requires B > FIRST && ChainsPlaced(L) && 0 in L.chains && h in L.chains && h != 0 && 0 < j < |L.chains[h]|
    requires LiveOk(f, B, L.chains[h]) && Linked(f, B, L.chains[0])
    requires InFile(f, B, L.chains[h][..j]) && Word(f, L.chains[h][0] + PTR) <= |Raw(f, B, L.chains[h][..j])|
    requires KeepsBlocks(f, f1, B, L.place.Keys, LastOf(L.chains[0]))
    requires L.chains[0] != [] ==> var last := L.chains[0][|L.chains[0]| - 1];
                                   last + B <= |f1| && Word(f1, last) == L.chains[h][j]
    requires KeepsBlocks(f1, f', B, L.place.Keys, {L.chains[h][j - 1]})
    requires KeepsBlocks(f, f', B, L.place.Keys, LastOf(L.chains[0]) + {L.chains[h][j - 1]})
    requires L.chains[h][j - 1] + B <= |f'| && Word(f', L.chains[h][j - 1]) == 0
    requires SamePayload(f, f', B, L.chains[h][j - 1])
    ensures Linked(f', B, L.chains[0] + L.chains[h][j..])
    ensures LiveOk(f', B, L.chains[h][..j]) && Held(f', B, L.chains[h][..j]) == CutAt(f, B, L.chains[h], j)
  {
    hide Linked, LiveOk, Held, Word, SamePayload, Same;
    var free, chain := L.chains[0], L.chains[h];
    LiveIsLinked(f, B, chain);
    FreeLinks(f, f1, B, L, h, j);
    var all := free + chain[j..];
    forall i | 0 <= i < |all| ensures Same(f1, f', B, all[i]) {
      if i < |free| {
        assert PlacedAt(L, 0, i) && PlacedAt(L, h, j - 1);
      } else {
        assert all[i] == chain[i - |free| + j] && PlacedAt(L, h, i - |free| + j) && PlacedAt(L, h, j - 1);
      }
    }
    LinksFrame(f1, f', B, all);
    forall i | 0 <= i < j - 1 ensures Same(f, f', B, chain[i]) {
      assert PlacedAt(L, h, i) && PlacedAt(L, h, j - 1);
      assert free != [] ==> PlacedAt(L, 0, |free| - 1);
    }
    CutLinked(f, f', B, chain, j);
    forall i | 0 <= i < |chain[..j]| ensures SamePayload(f, f', B, chain[..j][i]) {
      if i < j - 1 { SameIsSamePayload(f, f', B, chain[i]); }
    }
    CutHeld(f, f', B, chain, j);
  }

  lemma ReleaseFacts(f: ByteSeq, B: nat, L: Layout, h: nat, j: nat)
    requires DiskOk(f, B, L) && h in L.chains && h != 0 && 0 < j < |L.chains[h]|
    requires InFile(f, B, L.chains[h][..j]) && h + FIRST <= |f| && Word(f, h + PTR) <= |Raw(f, B, L.chains[h][..j])|
    ensures L.chains[0] != [] ==> L.chains[0][|L.chains[0]| - 1] + PTR <= |f|
    ensures L.chains[h][j - 1] + PTR <= |f|
    ensures var f', chain := ReleaseFile(f, L.chains[0], L.chains[h], j), L.chains[h];
            && |f'| == |f| && HeaderOk(f', Released(L, h, j)) && Linked(f', B, L.chains[0] + chain[j..])
            && LiveOk(f', B, chain[..j]) && chain[0] == h && Held(f', B, chain[..j]) == CutAt(f, B, chain, j)
            && KeepsBlocks(f, f', B, L.place.Keys, LastOf(L.chains[0]) + {chain[j - 1]})
  {
    hide Linked, Held, LiveOk, KeepsBlocks, PlacesFound, Grid, Word, ChainsPlaced, SamePayload, Raw, ReleaseFile,
        FreeFile, CutAt;
    var free, chain := L.chains[0], L.chains[h];
    if free != [] {
      BlockAddress(f, B, L, 0, |free| - 1);
      InPlace(L, 0, |free| - 1);
      OtherBlock(L, 0, |free| - 1, h, j - 1);
    }
    BlockAddress(f, B, L, h, j - 1);
    BlockAddress(f, B, L, h, j);
    InPlace(L, h, j - 1);
    BlocksApart(f, B, L);
    ReleaseBytes(f, B, L.place.Keys, free, chain, j);
    ReleaseLinks(f, FreeFile(f, free, chain[j]), ReleaseFile(f, free, chain, j), B, L, h, j);
  }

  lemma ReleaseDisk(f: ByteSeq, B: nat, L: Layout, h: nat, j: nat)
    requires DiskOk(f, B, L) && h in L.chains && h != 0 && 0 < j < |L.chains[h]|
    requires InFile(f, B, L.chains[h][..j]) && h + FIRST <= |f| && Word(f, h + PTR) <= |Raw(f, B, L.chains[h][..j])|
    ensures L.chains[0] != [] ==> L.chains[0][|L.chains[0]| - 1] + PTR <= |f|
    ensures L.chains[h][j - 1] + PTR <= |f|
    ensures var f', M := ReleaseFile(f, L.chains[0], L.chains[h], j), Released(L, h, j);
            DiskOk(f', B, M) && View(f', B, M) == View(f, B, L)[h := CutAt(f, B, L.chains[h], j)]
  {
    hide Linked, Held, LiveOk, KeepsBlocks, PlacesFound, Grid, Word, ChainsPlaced, Raw, ReleaseFile, FreeFile,
        HeaderOk, CutAt;
    var free, chain, M := L.chains[0], L.chains[h], Released(L, h, j);
    ReleaseFacts(f, B, L, h, j);
    ReleasedShape(B, L, h, j);
    var f' := ReleaseFile(f, free, chain, j);
    forall g | g in L.chains && g != 0 && g != h ensures Avoids(L.chains[g], LastOf(free) + {chain[j - 1]}) {
      if free != [] { ChainAvoids(L, g, 0, |free| - 1); }
      ChainAvoids(L, g, h, j - 1);
    }
    OthersKept(f, f', B, L, M, {h}, LastOf(free) + {chain[j - 1]});
  }

  /** What a write inside one block of sequence `h` leaves alone. */
  lemma BlockWriteFrame(f: ByteSeq, f': ByteSeq, B: nat, L: Layout, h: nat, i: nat)
    requires DiskOk(f, B, L) && h in L.chains && h != 0 && i < |L.chains[h]|
    requires |f'| == |f| && f'[..HEADER] == f[..HEADER]
    requires KeepsBlocks(f, f', B, L.place.Keys, {L.chains[h][i]})
    requires LiveOk(f', B, L.chains[h])
    ensures DiskOk(f', B, L) && View(f', B, L) == View(f, B, L)[h := Held(f', B, L.chains[h])]
  {
    hide Linked, Held, LiveOk, KeepsBlocks, PlacesFound, Grid, Word, ChainsPlaced;
    var b := L.chains[h][i];
    HeaderFrame(f, f', L);
    forall g | g in L.chains && g != h ensures Avoids(L.chains[g], {b}) { ChainAvoids(L, g, h, i); }
    FreeKept(f, f', B, L, {b});
    OthersKept(f, f', B, L, L, {h}, {b});
  }

  /** A write inside block `i` behind its next pointer keeps all links. */
  lemma BlockWriteLinks(f: ByteSeq, f': ByteSeq, B: nat, L: Layout, h: nat, i: nat, o: nat, data: ByteSeq)
    requires B > FIRST && ChainsPlaced(L) && h in L.chains && i < |L.chains[h]| && PTR <= o && o + |data| <= B
    requires Linked(f, B, L.chains[h]) && Apart(f, B, L.place.Keys)
    requires f' == Poke(f, L.chains[h][i] + o, data)
    ensures Linked(f', B, L.chains[h])
    ensures KeepsBlocks(f, f', B, L.place.Keys, {L.chains[h][i]})
    ensures |f'| == |f| && (|f| >= HEADER ==> f'[..HEADER] == f[..HEADER])
    ensures forall j :: 0 <= j < |L.chains[h]| && j != i ==> SamePayload(f, f', B, L.chains[h][j])
  {
    hide SamePayload, Same, Word, Poke;
    var chain := L.chains[h];
    var b := chain[i];
    assert PlacedAt(L, h, i);
    PokeInBlock(f, B, L.place.Keys, b, o, data);
    forall j | 0 <= j < |chain| && j != i ensures Same(f, f', B, chain[j]) && SamePayload(f, f', B, chain[j]) {
      assert PlacedAt(L, h, j);
      SameIsSamePayload(f, f', B, chain[j]);
    }
    forall j | 0 <= j < |chain| ensures chain[j] + B <= |f'| && Word(f', chain[j]) == NextIn(chain, j) {
      if j != i {
        WordFrame(f, f', B, chain[j], 0);
      } else {
        LinkUntouched(f, b, o, data);
      }
    }
  }

  lemma LinkUntouched(f: ByteSeq, b: nat, o: nat, data: ByteSeq)
    requires b + o <= |f| && PTR <= o && b + PTR <= |f|
    ensures |Poke(f, b + o, data)| >= b + PTR && Word(Poke(f, b + o, data), b) == Word(f, b)
  {
    PokeFrame(f, b + o, data, b, b + PTR);
  }

  /** Writing payload bytes into block `i` of sequence `h`. */
  lemma PayloadWrite(f: ByteSeq, B: nat, L: Layout, h: nat, i: nat, o: nat, data: ByteSeq)
    requires DiskOk(f, B, L) && h in L.chains && h != 0 && i < |L.chains[h]| && InPayload(B, i, o) && o + |data| <= B
    ensures L.chains[h][i] + B <= |f| && 0 <= Pos(B, i, o) <= |View(f, B, L)[h].room|
    ensures var f' := Poke(f, L.chains[h][i] + o, data);
            && |f'| == |f| && DiskOk(f', B, L)
            && View(f', B, L) == View(f, B, L)[h := Stored(Poke(View(f, B, L)[h].room, Pos(B, i, o), data),
                View(f, B, L)[h].size)]
  {
    hide Linked, KeepsBlocks, PlacesFound, Grid, ChainsPlaced, Pos, Rest, SamePayload, Word;
    BlockAddress(f, B, L, h, i);
    var chain := L.chains[h];
    var f' := Poke(f, chain[i] + o, data);
    BlocksApart(f, B, L);
    assert LiveOk(f, B, chain);
    BlockWriteLinks(f, f', B, L, h, i, o, data);
    LinkedInFile(f, B, chain);
    LinkedInFile(f', B, chain);
    RawPoke(f, f', B, chain, i, o, data);
    SizeUntouched(f, f', B, L, h, i, o, data);
    BlockWriteFrame(f, f', B, L, h, i);
  }

  lemma LinkedInFile(f: ByteSeq, B: nat, chain: seq<nat>)
    requires B > FIRST && Linked(f, B, chain)
    ensures InFile(f, B, chain)
  {
  }

  lemma SizeUntouched(f: ByteSeq, f': ByteSeq, B: nat, L: Layout, h: nat, i: nat, o: nat, data: ByteSeq)
    requires B > FIRST && h in L.chains && i < |L.chains[h]| && InPayload(B, i, o) && o + |data| <= B
    requires L.chains[h][0] + B <= |f| && L.chains[h][i] + B <= |f| && f' == Poke(f, L.chains[h][i] + o, data)
    requires i != 0 ==> SamePayload(f, f', B, L.chains[h][0])
    ensures |f'| == |f| && Word(f', L.chains[h][0] + PTR) == Word(f, L.chains[h][0] + PTR)
  {
    var c := L.chains[h][0];
    if i == 0 {
      PokeFrame(f, c + o, data, c + PTR, c + PTR + PTR);
    } else {
      SizeKept(f, f', B, c);
    }
  }

  /** Updating the total size in the first block of sequence `h`. */
  lemma SizeWrite(f: ByteSeq, B: nat, L: Layout, h: nat, n: nat)
    requires DiskOk(f, B, L) && h in L.chains && h != 0 && n <= |View(f, B, L)[h].room| && n < ADDR_LIMIT
    ensures h + FIRST <= |f|
    ensures var f' := Poke(f, h + PTR, ToLE(n, PTR));
            && |f'| == |f| && DiskOk(f', B, L)
            && View(f', B, L) == View(f, B, L)[h := Stored(View(f, B, L)[h].room, n)]
  {
    hide Linked, KeepsBlocks, PlacesFound, Grid, ChainsPlaced, Rest, SamePayload, Word;
    BlockAddress(f, B, L, h, 0);
    var chain, data := L.chains[h], ToLE(n, PTR);
    var f' := Poke(f, h + PTR, data);
    BlocksApart(f, B, L);
    assert LiveOk(f, B, chain);
    BlockWriteLinks(f, f', B, L, h, 0, PTR, data);
    LinkedInFile(f, B, chain);
    LinkedInFile(f', B, chain);
    PokeWord(f, h + PTR, n);
    SizeOutsideRoom(f, B, chain, data);
    BlockWriteFrame(f, f', B, L, h, 0);
  }

  /** The total size is not part of the sequence's room. */
  lemma SizeOutsideRoom(f: ByteSeq, B: nat, chain: seq<nat>, data: ByteSeq)
    requires B > FIRST && InFile(f, B, chain) && |chain| > 0 && |data| == PTR
    requires var f' := Poke(f, chain[0] + PTR, data);
             InFile(f', B, chain) && forall j :: 1 <= j < |chain| ==> SamePayload(f, f', B, chain[j])
    ensures Raw(Poke(f, chain[0] + PTR, data), B, chain) == Raw(f, B, chain)
  {
    var f' := Poke(f, chain[0] + PTR, data);
    PokeFrame(f, chain[0] + PTR, data, chain[0] + FIRST, chain[0] + B);
    var tail := chain[1..];
    forall j | 0 <= j < |tail| ensures SamePayload(f, f', B, tail[j]) { assert tail[j] == chain[j + 1]; }
    TailFrame(f, f', B, tail);
  }

  // ----- Where a block is -----

  /** Block `a` is at position `i` of the chain with key `h`. */
  ghost predicate On(L: Layout, a: nat, h: nat, i: nat) {
    h in L.chains && i < |L.chains[h]| && L.chains[h][i] == a
  }

  /** The first word of a block is the address of the next block of its chain, or 0. */
  lemma LinkAt(f: ByteSeq, B: nat, L: Layout, h: nat, i: nat)
    requires DiskOk(f, B, L) && h in L.chains && i < |L.chains[h]|
    ensures Word(f, L.chains[h][i]) == NextIn(L.chains[h], i)
    ensures L.chains[h][i] in L.place && L.place[L.chains[h][i]] == Place(h, i)
    ensures i + 1 < |L.chains[h]| ==> NextIn(L.chains[h], i) != 0
  {
    hide Word, Shape, HeaderOk;
    if i + 1 < |L.chains[h]| { BlockAddress(f, B, L, h, i + 1); }
    if h != 0 { assert LiveOk(f, B, L.chains[h]); }
    PlaceOf(B, L, h, i);
  }

  lemma PlaceOf(B: nat, L: Layout, h: nat, i: nat)
    requires Shape(B, L) && h in L.chains && i < |L.chains[h]|
    ensures L.chains[h][i] in L.place && L.place[L.chains[h][i]] == Place(h, i)
  {
    assert PlacedAt(L, h, i);
  }
}
