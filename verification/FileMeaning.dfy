/** The bytes of a file alone determine its chains, its nodes and the map they stand for; and how the blocks of a file
    are accounted for. */
module FileMeaning {
  import opened Bytes
  import opened Disk
  import opened DiskOps
  import opened NodeCodec
  import opened Tries
  import opened PrefixTrees

  // ----- Every block once -----

  /** Every block of the file is at exactly one place of exactly one chain, and the chains hold no other addresses. */
  lemma EachBlockOnce(f: ByteSeq, B: nat, L: Layout, a: nat)
    requires DiskOk(f, B, L)
    ensures a in Grid(B, L.count) <==> exists h, i: nat :: On(L, a, h, i)
    ensures forall h, i: nat, g, j: nat :: On(L, a, h, i) && On(L, a, g, j) ==> h == g && i == j
  {
    hide LiveOk, Linked, HeaderOk;
    if a in Grid(B, L.count) {
      assert FoundAt(L, a);
      assert On(L, a, L.place[a].head, L.place[a].index);
    }
    forall h, i: nat | On(L, a, h, i) ensures a in L.place && L.place[a] == Place(h, i) { assert PlacedAt(L, h, i); }
  }

  ghost function LiveBlocks(L: Layout): set<nat> {
    set a | a in L.place && L.place[a].head != 0
  }

  lemma {:induction false} GridSize(B: nat, n: nat)
    requires B > 0
    ensures |Grid(B, n)| == n
  {
    if n != 0 {
      GridSize(B, n - 1);
      GridApart(B, n - 1);
      assert HEADER + Span(B, n - 1) !in Grid(B, n - 1);
    }
  }

  lemma {:induction false} DistinctSize(s: seq<nat>, blocks: set<nat>)
    requires (forall i, j :: 0 <= i < j < |s| ==> s[i] != s[j]) && forall a :: a in s <==> a in blocks
    ensures |blocks| == |s|
  {
    if s == [] {
      assert blocks == {};
    } else {
      var rest := s[..|s| - 1];
      var last := s[|s| - 1];
      assert s == rest + [last];
      assert last !in rest;
      DistinctSize(rest, blocks - {last});
    }
  }

  /** The blocks in use and the free blocks add up to the blocks of the file. */
  lemma BlocksAddUp(f: ByteSeq, B: nat, L: Layout)
    requires DiskOk(f, B, L)
    ensures |f| == HEADER + L.count * B
    ensures |LiveBlocks(L)| + |Free(L)| == L.count
  {
    hide LiveOk, Linked, HeaderOk;
    var free := set a | a in L.place && L.place[a].head == 0;
    forall i, j | 0 <= i < j < |L.chains[0]| ensures L.chains[0][i] != L.chains[0][j] {
      assert PlacedAt(L, 0, i) && PlacedAt(L, 0, j);
    }
    forall a ensures a in L.chains[0] <==> a in free {
      if a in L.chains[0] {
        var i :| 0 <= i < |L.chains[0]| && L.chains[0][i] == a;
        assert PlacedAt(L, 0, i);
      }
      if a in free { assert FoundAt(L, a); }
    }
    DistinctSize(L.chains[0], free);
    GridSize(B, L.count);
    SpanIs(B, L.count);
    assert LiveBlocks(L) + free == L.place.Keys && LiveBlocks(L) !! free;
  }

  // ----- One layout -----

  /** From a common block on, two chains are the same. */
  lemma {:induction false} Follow(f: ByteSeq, B: nat, L: Layout, M: Layout, h: nat, i: nat, g: nat, j: nat)
    requires DiskOk(f, B, L) && DiskOk(f, B, M)
    requires h in L.chains && i < |L.chains[h]| && On(M, L.chains[h][i], g, j)
    ensures L.chains[h][i..] == M.chains[g][j..]
    decreases |L.chains[h]| - i
  {
    hide DiskOk, Word;
    LinkAt(f, B, L, h, i);
    LinkAt(f, B, M, g, j);
    var l, m := L.chains[h], M.chains[g];
    if i + 1 < |l| {
      assert j + 1 < |m|;
      Follow(f, B, L, M, h, i + 1, g, j + 1);
      assert l[i..] == [l[i]] + l[i + 1..] && m[j..] == [m[j]] + m[j + 1..];
    } else {
      assert j + 1 == |m|;
    }
  }

  lemma SameCount(B: nat, m: nat, n: nat)
    requires B > 0 && Span(B, m) == Span(B, n)
    ensures m == n
  {
    SpanIs(B, m);
    SpanIs(B, n);
  }

  lemma HeadOk(f: ByteSeq, B: nat, L: Layout)
    requires DiskOk(f, B, L)
    ensures 0 in L.chains && Word(f, PTR) == (if L.chains[0] == [] then 0 else L.chains[0][0])
    ensures L.chains[0] != [] ==> L.chains[0][0] != 0
    ensures forall h :: h in L.chains && h != 0 ==> |L.chains[h]| > 0 && L.chains[h][0] == h
    ensures L.place.Keys == Grid(B, L.count) && B > 0 && |f| == HEADER + Span(B, L.count)
  {
    hide Word, LiveOk, Linked;
    if L.chains[0] != [] { BlockAddress(f, B, L, 0, 0); }
  }

  lemma SameFree(f: ByteSeq, B: nat, L: Layout, M: Layout)
    requires DiskOk(f, B, L) && DiskOk(f, B, M)
    ensures 0 in L.chains && 0 in M.chains && L.chains[0] == M.chains[0]
  {
    hide DiskOk, Word;
    HeadOk(f, B, L);
    HeadOk(f, B, M);
    if L.chains[0] != [] {
      Follow(f, B, L, M, 0, 0, 0, 0);
    }
  }

  lemma SamePlaces(f: ByteSeq, B: nat, L: Layout, M: Layout)
    requires DiskOk(f, B, L) && DiskOk(f, B, M)
    ensures L.count == M.count && L.place.Keys == M.place.Keys
  {
    hide DiskOk, Word;
    HeadOk(f, B, L);
    HeadOk(f, B, M);
    SameCount(B, L.count, M.count);
  }

  lemma WhereIs(B: nat, L: Layout, a: nat)
    requires Shape(B, L) && a in L.place
    ensures On(L, a, L.place[a].head, L.place[a].index)
  {
    assert FoundAt(L, a);
  }

  lemma ShapeOf(f: ByteSeq, B: nat, L: Layout)
    requires DiskOk(f, B, L)
    ensures Shape(B, L)
  {
  }

  /** The head of a live sequence has no block before it, so it is one in every reading of the file. */
  lemma SameLive(f: ByteSeq, B: nat, L: Layout, M: Layout, h: nat)
    requires DiskOk(f, B, L) && DiskOk(f, B, M) && h in L.chains && h != 0
    ensures h in M.chains && M.chains[h] == L.chains[h]
  {
    hide DiskOk, Word, Shape;
    HeadOk(f, B, L);
    HeadOk(f, B, M);
    LinkAt(f, B, L, h, 0);
    SamePlaces(f, B, L, M);
    SameFree(f, B, L, M);
    ShapeOf(f, B, L);
    ShapeOf(f, B, M);
    WhereIs(B, M, h);
    var g, j := M.place[h].head, M.place[h].index;
    if g == 0 {
      LinkAt(f, B, L, 0, j);
    }
    if j > 0 { NoBlockBefore(f, B, L, M, h, g, j); }
    Follow(f, B, L, M, h, 0, g, j);
    assert L.chains[h][0..] == L.chains[h] && M.chains[g][0..] == M.chains[g];
  }

  lemma NoBlockBefore(f: ByteSeq, B: nat, L: Layout, M: Layout, h: nat, g: nat, j: nat)
    requires DiskOk(f, B, L) && DiskOk(f, B, M) && On(M, h, g, j) && h in L.chains && h != 0 && j > 0
    ensures h in L.place && L.place[h].index > 0
  {
    hide DiskOk, Word, Shape;
    var b := M.chains[g][j - 1];
    LinkAt(f, B, M, g, j - 1);
    SamePlaces(f, B, L, M);
    ShapeOf(f, B, L);
    WhereIs(B, L, b);
    var x, y := L.place[b].head, L.place[b].index;
    LinkAt(f, B, L, x, y);
    PlaceOf(B, L, x, y + 1);
  }

  /** Two readings of the same bytes find the same chains. */
  lemma LayoutUnique(f: ByteSeq, B: nat, L: Layout, M: Layout)
    requires DiskOk(f, B, L) && DiskOk(f, B, M)
    ensures L == M
  {
    hide DiskOk, Word, Shape;
    SamePlaces(f, B, L, M);
    SameFree(f, B, L, M);
    ShapeOf(f, B, L);
    ShapeOf(f, B, M);
    forall h ensures h in L.chains <==> h in M.chains {
      if h in L.chains && h != 0 { SameLive(f, B, L, M, h); }
      if h in M.chains && h != 0 { SameLive(f, B, M, L, h); }
    }
    forall h | h in L.chains ensures L.chains[h] == M.chains[h] {
      if h != 0 { SameLive(f, B, L, M, h); }
    }
    assert L.chains == M.chains;
    forall a | a in L.place ensures L.place[a] == M.place[a] {
      WhereIs(B, L, a);
      PlaceOf(B, M, L.place[a].head, L.place[a].index);
    }
    assert L.place == M.place;
  }

  // ----- A size beyond the room -----

  lemma {:induction false} ToFromLE(s: ByteSeq)
    ensures ToLE(FromLE(s), |s|) == s
  {
    if s != [] {
      ToFromLE(s[1..]);
      Digits(s[0], FromLE(s[1..]));
      assert s == [s[0]] + s[1..];
    }
  }

  lemma Digits(b: Byte, rest: nat)
    ensures (b + 256 * rest) % 256 == b && (b + 256 * rest) / 256 == rest
  {
  }

  /** Writing into a free block behind its next pointer keeps a file in order. */
  lemma FreeWrite(f: ByteSeq, B: nat, L: Layout, i: nat, o: nat, data: ByteSeq)
    requires DiskOk(f, B, L) && i < |L.chains[0]| && PTR <= o && o + |data| <= B
    ensures L.chains[0][i] + B <= |f| && DiskOk(Poke(f, L.chains[0][i] + o, data), B, L)
  {
    hide Linked, LiveOk, KeepsBlocks, PlacesFound, Grid, ChainsPlaced, SamePayload, Word, Held;
    BlockAddress(f, B, L, 0, i);
    BlocksApart(f, B, L);
    var b := L.chains[0][i];
    var f' := Poke(f, b + o, data);
    BlockWriteLinks(f, f', B, L, 0, i, o, data);
    HeaderFrame(f, f', L);
    forall g | g in L.chains && g != 0 ensures Avoids(L.chains[g], {b}) { ChainAvoids(L, g, 0, i); }
    OthersKept(f, f', B, L, L, {0}, {b});
  }

  /** A file in order stays so, with the same chains, when the word behind a block's next pointer is set to a smaller
      one. */
  lemma SmallerWord(f: ByteSeq, B: nat, L: Layout, a: nat, n: nat)
    requires DiskOk(f, B, L) && a in Grid(B, L.count)
    ensures a + FIRST <= |f| && (n <= Word(f, a + PTR) < ADDR_LIMIT ==> DiskOk(Poke(f, a + PTR, ToLE(n, PTR)), B, L))
  {
    hide Linked, LiveOk, Grid, Word;
    EachBlockOnce(f, B, L, a);
    var h, i: nat :| On(L, a, h, i);
    BlockAddress(f, B, L, h, i);
    if n <= Word(f, a + PTR) < ADDR_LIMIT {
      if h == 0 {
        FreeWrite(f, B, L, i, PTR, ToLE(n, PTR));
      } else if i > 0 {
        PayloadWrite(f, B, L, h, i, PTR, ToLE(n, PTR));
      } else {
        SizeFits(f, B, L, h);
        SizeWrite(f, B, L, h, n);
      }
    }
  }

  lemma SizeFits(f: ByteSeq, B: nat, L: Layout, h: nat)
    requires DiskOk(f, B, L) && h in L.chains && h != 0
    ensures |L.chains[h]| > 0 && L.chains[h][0] == h && h + FIRST <= |f|
    ensures Word(f, h + PTR) == View(f, B, L)[h].size <= |View(f, B, L)[h].room|
  {
    hide Word, Linked;
    BlockAddress(f, B, L, h, 0);
  }

  /** A total size beyond the room of its sequence leaves a file that is in order under no reading at all.  That is what
      a write far behind the end of a sequence stores (filestorage.cpp:148-167). */
  lemma SizePastRoom(f: ByteSeq, B: nat, L: Layout, h: nat, n: nat, M: Layout)
    requires DiskOk(f, B, L) && h in L.chains && h != 0 && |View(f, B, L)[h].room| < n < ADDR_LIMIT
    ensures h + FIRST <= |f| && !DiskOk(Poke(f, h + PTR, ToLE(n, PTR)), B, M)
  {
    hide DiskOk, View, Word, Shape, Grid, LiveOk;
    SizeFits(f, B, L, h);
    HeadOk(f, B, L);
    var s, f' := Word(f, h + PTR), Poke(f, h + PTR, ToLE(n, PTR));
    Widths();
    PokeWord(f, h + PTR, n);
    PokeBack(f, h + PTR, n);
    if DiskOk(f', B, M) {
      HeadOk(f', B, M);
      SameCount(B, L.count, M.count);
      InGrid(f, B, L, h);
      SmallerWord(f', B, M, h, s);
      LayoutUnique(f, B, L, M);
      SizeFits(f', B, L, h);
      RoomLength(f, f', B, L, h);
      assert false;
    }
  }

  lemma InGrid(f: ByteSeq, B: nat, L: Layout, h: nat)
    requires DiskOk(f, B, L) && h in L.chains && h != 0
    ensures h in Grid(B, L.count)
  {
    hide LiveOk, Linked, Grid, HeaderOk;
    assert PlacedAt(L, h, 0);
  }

  lemma PokeBack(f: ByteSeq, p: nat, n: nat)
    requires p + PTR <= |f|
    ensures Poke(Poke(f, p, ToLE(n, PTR)), p, ToLE(Word(f, p), PTR)) == f
  {
    ToFromLE(f[p..p + PTR]);
  }

  /** The room of a sequence is as long as its chain makes it. */
  lemma RoomLength(f: ByteSeq, f': ByteSeq, B: nat, L: Layout, h: nat)
    requires DiskOk(f, B, L) && DiskOk(f', B, L) && h in L.chains && h != 0
    ensures |View(f, B, L)[h].room| == |View(f', B, L)[h].room|
  {
    hide Word;
    var chain := L.chains[h];
    assert LiveOk(f, B, chain) && LiveOk(f', B, chain);
    assert forall i :: 0 <= i < |chain[1..]| ==> chain[1..][i] == chain[i + 1];
    TailLength(f, f', B, chain[1..]);
  }

  lemma {:induction false} TailLength(f: ByteSeq, f': ByteSeq, B: nat, chain: seq<nat>)
    requires B > FIRST && InFile(f, B, chain) && InFile(f', B, chain)
    ensures |Tail(f, B, chain)| == |Tail(f', B, chain)|
  {
    if chain != [] { TailLength(f, f', B, chain[1..]); }
  }

  // ----- One tree -----

  /** Two readings of the same sequences find the same nodes. */
  lemma NodesUnique(seqs: map<nat, Stored>, nodes: Nodes, up: Parents, nodes': Nodes, up': Parents, B: nat)
    requires TreeStored(seqs, nodes, up, B) && TreeStored(seqs, nodes', up', B)
    ensures nodes == nodes'
  {
    hide Encode, EdgesOk, ParentsOk, MaxSize, TreeStored;
    StoredNodes(seqs, nodes, up, B);
    StoredNodes(seqs, nodes', up', B);
    forall a | a in nodes ensures nodes[a] == nodes'[a] {
      assert StoredAs(seqs, a, nodes[a]) && StoredAs(seqs, a, nodes'[a]);
      ChildrenFit(nodes, B, a);
      ChildrenFit(nodes', B, a);
      NodeSizes(nodes[a].key, nodes[a].data, B);
      NodeSizes(nodes'[a].key, nodes'[a].data, B);
      EncodeInjective(nodes[a], nodes'[a]);
    }
  }

  lemma NodeSizes(key: ByteSeq, data: ByteSeq, B: nat)
    requires Fits(key, data, B)
    ensures |key| < UINT_LIMIT && |data| < UINT_LIMIT
  {
  }

  /** A file stands for one map of keys to values, however it is read. */
  lemma FileDeterminesMap(f: ByteSeq, B: nat, L: Layout, nodes: Nodes, up: Parents, L': Layout, nodes': Nodes,
      up': Parents)
    requires DiskOk(f, B, L) && TreeStored(View(f, B, L), nodes, up, B)
    requires DiskOk(f, B, L') && TreeStored(View(f, B, L'), nodes', up', B)
    ensures L == L' && nodes == nodes' && KeyMap(nodes, up) == KeyMap(nodes', up')
  {
    hide DiskOk, View, Encode, EdgesOk, ParentsOk, MaxSize;
    LayoutUnique(f, B, L, L');
    NodesUnique(View(f, B, L), nodes, up, nodes', up', B);
    SameMap(nodes, up, nodes', up');
  }
}
