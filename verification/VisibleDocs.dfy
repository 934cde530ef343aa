/** Paths whose segments a listing shows, where their variables are kept, and documents of such paths
    (sources/controller/controller_varhelper.go:70-81, 247-260). */
module VisibleDocs {
  import opened DotPaths
  import opened Options
  import opened Variables
  import opened NestedNames

  // ----- Paths of visible segments -----

  /** Where the variable with these segments is kept. */
  function Kept(r: Path): Path {
    if |r| >= 2 && r[0] == VARS then r else [VARS] + r
  }

  lemma KeptIs(r: Path)
    requires Visibles(r)
    ensures VarPath(FullName(r)) == Kept(r)
  {
    hide FullName, PathOf, SplitOn, Join;
    var name := FullName(r);
    NameOfPath(r);
    if r == [] {
      assert "vars." + name == VARS + ".";
      PathOfOne(VARS);
    } else {
      JoinFirst(r);
      if "vars." <= name {
        var rest := name[5..];
        assert name == VARS + "." + rest by { assert name == name[..5] + rest; }
        if rest == "" {
          assert name == VARS + ".";
          PathOfOne(VARS);
        } else {
          PathOfCons(VARS, rest);
          assert PathOf(rest) != [];
        }
      } else {
        assert "vars." + name == VARS + "." + name;
        PathOfCons(VARS, name);
      }
    }
  }

  /** A name of two segments or more begins with its first segment and a dot; one of one segment has no dot. */
  lemma JoinFirst(r: Path)
    requires r != [] && Visibles(r)
    ensures |r| == 1 ==> FullName(r) == r[0] && '.' !in FullName(r)
    ensures |r| >= 2 ==> |FullName(r)| > |r[0]| && FullName(r)[..|r[0]| + 1] == r[0] + "."
  {
    hide FullName;
    NameOfPath(r);
    assert r[0] in r;
  }

  /** A visible name passes the filter as it is and stands for itself alone. */
  lemma VisibleName(r: Path)
    requires r != [] && Visibles(r)
    ensures Simple(FullName(r)) && Only(FullName(r)) == FullName(r) && Storable(FullName(r))
  {
    hide FullName, Only;
    NameOfPath(r);
    JoinChars(r);
    OnlyFacts(FullName(r));
    NoIncrement(FullName(r));
  }

  lemma NoIncrement(name: string)
    requires forall ch :: ch in name ==> ch != '$'
    ensures !HasIncrement(name)
  {
    forall i | 0 <= i <= |name| - 3 ensures name[i] != '$' { assert name[i] in name; }
  }

  lemma {:induction false} JoinChars(r: Path)
    requires r != [] && Visibles(r)
    ensures Storable(Join(r)) && forall ch :: ch in Join(r) ==> ch != '$'
  {
    var a := r[0];
    assert a in r && Visible(a);
    if |r| > 1 {
      var rest := Join(r[1..]);
      JoinChars(r[1..]);
      var x := Join(r);
      assert x == a + "." + rest;
      forall i | 0 <= i < |x| - 1 ensures !(x[i] == '.' && x[i + 1] == '_') {
        if i < |a| {
          assert x[i] == a[i] && x[i] in a;
        } else if i > |a| {
          assert x[i] == rest[i - |a| - 1] && x[i + 1] == rest[i - |a|];
        } else {
          assert x[i + 1] == rest[0];
        }
      }
    } else {
      assert forall i :: 0 <= i < |a| ==> a[i] in a;
    }
  }

  /** A name whose last segment is "_value" is refused. */
  lemma ValueRefused(limits: Limits, r: Path, text: string)
    requires Visibles(r)
    ensures Simple(FullName(r + [VALUE])) && !Accepted(limits, Only(FullName(r + [VALUE])), text)
  {
    hide FullName, Only;
    FullNameSnoc(r, VALUE);
    NameOfPath(r);
    var name := FullName(r + [VALUE]);
    assert forall ch :: ch in VALUE ==> Allowed(ch) && ch != '*' && ch != '$';
    if r == [] {
      assert name == "" + VALUE == VALUE;
    } else {
      JoinChars(r);
      var up := FullName(r);
      assert name == up + "." + VALUE;
      assert name[|up|] == '.' && name[|up| + 1] == '_';
    }
    assert forall ch :: ch in name ==> Allowed(ch) && ch != '*' && ch != '$';
    OnlyFacts(name);
    NoIncrement(name);
  }

  // ----- Documents -----

  /** Every member's name is a visible segment, and no object below the root is empty. */
  ghost predicate VisibleDoc(j: Json)
    decreases j
  {
    j.Obj? ==> forall k :: k in j.members ==>
                 Visible(k) && VisibleDoc(j.members[k]) && j.members[k] != Obj(map[])
  }

  lemma {:induction false} VisiblePlain(j: Json)
    requires VisibleDoc(j)
    ensures Plain(j)
    decreases j
  {
    if j.Obj? {
      forall k | k in j.members ensures Plain(j.members[k]) { VisiblePlain(j.members[k]); }
    }
  }

  lemma {:induction false} VisibleSub(j: Json, p: Path)
    requires VisibleDoc(j) && Sub(j, p).Some?
    ensures Visibles(p) && VisibleDoc(Sub(j, p).value) && (p != [] ==> Sub(j, p).value != Obj(map[]))
    decreases |p|
  {
    if p != [] {
      VisibleSub(j.members[p[0]], p[1..]);
      assert forall s :: s in p ==> s == p[0] || s in p[1..];
    }
  }

  /** Below every member there is a value. */
  lemma {:induction false} HasLeaf(j: Json) returns (p: Path)
    requires VisibleDoc(j) && j != Obj(map[])
    ensures Leaf(j, p).Some?
    decreases j
  {
    p := [];
    if j.Obj? {
      var k :| k in j.members;
      var rest := HasLeaf(j.members[k]);
      p := [k] + rest;
      assert p[1..] == rest;
    }
  }

  lemma {:induction false} SubAppend(j: Json, p: Path, q: Path)
    ensures Sub(j, p + q) == if Sub(j, p).Some? then Sub(Sub(j, p).value, q) else None
    decreases |p|
  {
    if p == [] {
      assert p + q == q;
    } else {
      assert (p + q)[1..] == p[1..] + q;
      if j.Obj? && p[0] in j.members { SubAppend(j.members[p[0]], p[1..], q); }
    }
  }

  /** What lies above a value or a further name is an object. */
  lemma SubAbove(j: Json, p: Path, q: Path)
    requires p <= q && Sub(j, q).Some?
    ensures Sub(j, p).Some? && Sub(Sub(j, p).value, q[|p|..]) == Sub(j, q)
    ensures p != q ==> Sub(j, p).value.Obj? && q[|p|] in Sub(j, p).value.members
  {
    assert q == p + q[|p|..];
    SubAppend(j, p, q[|p|..]);
  }

  /** Two documents with the same values at the same places are the same. */
  lemma SameLeaves(a: Json, b: Json)
    requires VisibleDoc(a) && VisibleDoc(b) && a != Obj(map[]) && b != Obj(map[])
    requires forall p :: Leaf(a, p) == Leaf(b, p)
    ensures a == b
  {
    VisiblePlain(a);
    VisiblePlain(b);
    PlainNormal(a);
    PlainNormal(b);
    forall q | Good(q) ensures At(a, q) == At(b, q) {
      PlainLeaf(a, q);
      PlainLeaf(b, q);
    }
    SameJson(a, b);
  }
}
