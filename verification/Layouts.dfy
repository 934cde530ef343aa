/** The five ways block ownership changes, and that each keeps every block on exactly one chain. */
module Layouts {
  import opened Disk

  /** A block is taken from the head of the free chain and becomes a sequence of its own. */
  ghost function Popped(L: Layout): Layout
    requires 0 in L.chains && L.chains[0] != []
  {
    var a := L.chains[0][0];
    Layout(L.chains[0 := L.chains[0][1..]][a := [a]],
           map b | b in L.place :: if b == a then Place(a, 0)
                                   else if L.place[b].head == 0 && L.place[b].index > 0
                                       then Place(0, L.place[b].index - 1)
                                   else L.place[b],
           L.count)
  }

  /** A block is added at the end of the file. */
  ghost function Grown(L: Layout, a: nat): Layout {
    Layout(L.chains[a := [a]], L.place[a := Place(a, 0)], L.count + 1)
  }

  /** The one-block sequence `a` becomes the last block of sequence `h`. */
  ghost function Attached(L: Layout, h: nat, a: nat): Layout
    requires h in L.chains
  {
    Layout((L.chains - {a})[h := L.chains[h] + [a]], L.place[a := Place(h, |L.chains[h]|)], L.count)
  }

  /** The places after the blocks of `h` from number `j` on went to the end of a free chain of length `n`. */
  ghost function Freed(place: map<nat, Place>, h: nat, j: nat, n: nat): map<nat, Place> {
    map a | a in place :: if place[a].head == h && place[a].index >= j then Place(0, n + (place[a].index - j))
        else place[a]
  }

  ghost function Released(L: Layout, h: nat, j: nat): Layout
    requires 0 in L.chains && h in L.chains && j <= |L.chains[h]|
  {
    Layout(L.chains[h := L.chains[h][..j]][0 := L.chains[0] + L.chains[h][j..]],
           Freed(L.place, h, j, |L.chains[0]|), L.count)
  }

  /** All blocks of `h` go to the end of the free chain. */
  ghost function Dropped(L: Layout, h: nat): Layout
    requires 0 in L.chains && h in L.chains && h != 0
  {
    Layout((L.chains - {h})[0 := L.chains[0] + L.chains[h]], Freed(L.place, h, 0, |L.chains[0]|), L.count)
  }

  lemma PoppedShape(B: nat, L: Layout)
    requires Shape(B, L) && L.chains[0] != [] && L.chains[0][0] != 0
    ensures L.chains[0][0] !in L.chains
    ensures Shape(B, Popped(L))
  {
    var a := L.chains[0][0];
    assert PlacedAt(L, 0, 0);
    assert a in L.chains ==> PlacedAt(L, a, 0);
    var M := Popped(L);
    assert M.place.Keys == L.place.Keys;
    forall h, i | h in M.chains && 0 <= i < |M.chains[h]| ensures PlacedAt(M, h, i) {
      if h == 0 {
        assert PlacedAt(L, 0, i + 1);
      } else if h != a {
        assert PlacedAt(L, h, i);
      }
    }
    forall b | b in M.place ensures FoundAt(M, b) {
      assert FoundAt(L, b);
    }
  }

  lemma GridGrows(B: nat, n: nat)
    ensures Grid(B, n + 1) == Grid(B, n) + {HEADER + Span(B, n)}
    ensures B > 0 ==> HEADER + Span(B, n) !in Grid(B, n)
  {
    GridApart(B, n);
  }

  lemma GrownShape(B: nat, L: Layout)
    requires Shape(B, L) && B > 0
    ensures var a := HEADER + Span(B, L.count); a !in L.chains && a !in L.place && Shape(B, Grown(L, a))
  {
    hide Grid, Span;
    var a := HEADER + Span(B, L.count);
    GridGrows(B, L.count);
    assert a in L.chains ==> PlacedAt(L, a, 0);
    var M := Grown(L, a);
    assert M.place.Keys == L.place.Keys + {a};
    forall h, i | h in M.chains && 0 <= i < |M.chains[h]| ensures PlacedAt(M, h, i) {
      assert h == a || PlacedAt(L, h, i);
    }
    forall b | b in M.place ensures FoundAt(M, b) {
      assert b == a || FoundAt(L, b);
    }
  }

  lemma AttachedShape(B: nat, L: Layout, h: nat, a: nat)
    requires Shape(B, L) && h in L.chains && h != 0 && a in L.chains && a != 0 && a != h && L.chains[a] == [a]
    ensures Shape(B, Attached(L, h, a))
  {
    assert PlacedAt(L, a, 0);
    var M := Attached(L, h, a);
    assert M.place.Keys == L.place.Keys;
    forall g, i | g in M.chains && 0 <= i < |M.chains[g]| ensures PlacedAt(M, g, i) {
      assert (g == h && i == |L.chains[h]|) || PlacedAt(L, g, i);
    }
    forall b | b in M.place ensures FoundAt(M, b) {
      assert FoundAt(L, b);
    }
  }

  lemma ReleasedShape(B: nat, L: Layout, h: nat, j: nat)
    requires Shape(B, L) && h in L.chains && h != 0 && 0 < j <= |L.chains[h]|
    ensures Shape(B, Released(L, h, j))
  {
    var M := Released(L, h, j);
    assert M.place.Keys == L.place.Keys;
    forall g, i | g in M.chains && 0 <= i < |M.chains[g]| ensures PlacedAt(M, g, i) {
      if g == 0 && i >= |L.chains[0]| {
        assert PlacedAt(L, h, i - |L.chains[0]| + j);
      } else {
        assert PlacedAt(L, g, i);
      }
    }
    forall b | b in M.place ensures FoundAt(M, b) {
      assert FoundAt(L, b);
    }
  }

  lemma DroppedShape(B: nat, L: Layout, h: nat)
    requires Shape(B, L) && h in L.chains && h != 0
    ensures Shape(B, Dropped(L, h))
  {
    var M := Dropped(L, h);
    assert M.place.Keys == L.place.Keys;
    forall g, i | g in M.chains && 0 <= i < |M.chains[g]| ensures PlacedAt(M, g, i) {
      if g == 0 && i >= |L.chains[0]| {
        assert PlacedAt(L, h, i - |L.chains[0]|);
      } else {
        assert PlacedAt(L, g, i);
      }
    }
    forall b | b in M.place ensures FoundAt(M, b) {
      assert FoundAt(L, b);
    }
  }
}
