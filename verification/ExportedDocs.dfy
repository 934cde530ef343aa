/** What the export of a stored document shows, and when that is the document
    (sources/controller/controller.go:271-317, sources/services/apis/httpapi/httpapi.go:206-263). */
module ExportedDocs {
  import opened DotPaths
  import opened Options
  import opened Numerals
  import opened Variables
  import opened NestedNames
  import opened NumberedObjects
  import opened VisibleDocs

  // ----- What the export of a stored document shows, and when that is the document -----

  /** There is a node at `q` when all values of the document have been stored. */
  ghost predicate InTree(obj: Json, q: Path) {
    exists p :: Leaf(obj, p).Some? && q <= Kept(p)
  }

  ghost predicate ListedHere(obj: Json, r: Path) {
    forall i {:trigger r[i]} :: 0 <= i < |r| ==> InTree(obj, Kept(r[..i]) + [r[i]])
  }

  /** A value of the document that is kept where the variable `r` is. */
  ghost predicate Source(obj: Json, r: Path, x: Json) {
    exists p :: Leaf(obj, p) == Some(x) && Kept(p) == Kept(r)
  }

  ghost predicate Sourced(obj: Json, r: Path) {
    exists x :: Source(obj, r, x)
  }

  /** The entries of the export: one for every listed name that some value is kept for. */
  ghost predicate Exports(obj: Json, es: Entries) {
    && Distinct(es) && AllNamed(es)
    && (forall r, x :: (r, x) in es ==> r != [] && Visibles(r) && ListedHere(obj, r) && Source(obj, r, x))
    && (forall r :: r != [] && Visibles(r) && ListedHere(obj, r) && Sourced(obj, r) ==> exists x :: (r, x) in es)
    && (forall r, x, r', x' :: (r, x) in es && (r', x') in es && Kept(r) == Kept(r') ==> x == x')
  }

  /** With an object named "vars" at the root, names and places no longer agree. The document comes back nonetheless
      if that object has a member "vars" that is an object with all its names, and repeats, of the other members of
      the root, exactly those with these names. */
  predicate VarsOk(o: Members) {
    VARS in o && o[VARS].Obj? ==>
      var v := o[VARS].members;
      && VARS in v && v[VARS].Obj?
      && var w := v[VARS].members;
         && v.Keys <= w.Keys
         && forall k :: k in w && k != VARS ==> (k in v <==> k in o) && (k in v ==> v[k] == o[k])
  }

  /** A node three levels deep below "vars.vars" comes from a document that repeats "vars". */
  lemma DoubleVars(obj: Json, k: string)
    requires obj.Obj? && InTree(obj, [VARS, VARS, k])
    ensures VARS in obj.members && obj.members[VARS].Obj?
    ensures var v := obj.members[VARS].members; VARS in v && v[VARS].Obj? && k in v[VARS].members
  {
    var p :| Leaf(obj, p).Some? && [VARS, VARS, k] <= Kept(p);
    assert Kept(p)[0] == VARS && Kept(p)[1] == VARS && Kept(p)[2] == k;
    assert p == Kept(p) && p == [VARS, VARS, k] + p[3..];
    SubAbove(obj, [VARS], p);
    SubAbove(obj, [VARS, VARS], p);
    SubOne(obj, VARS);
    SubTwo(obj, VARS, VARS);
  }

  lemma SubOne(j: Json, k: string)
    ensures Sub(j, [k]) == if j.Obj? && k in j.members then Some(j.members[k]) else None
  {
    assert [k][1..] == [];
  }

  lemma SubTwo(j: Json, k: string, l: string)
    ensures Sub(j, [k, l]) == if Sub(j, [k]).Some? then Sub(Sub(j, [k]).value, [l]) else None
    ensures Sub(j, [k, l]).Some? ==>
              && j.Obj? && k in j.members && j.members[k].Obj? && l in j.members[k].members
              && j.members[k].members[l] == Sub(j, [k, l]).value
  {
    assert [k, l] == [k] + [l] && [k, l][1..] == [l];
    SubAppend(j, [k], [l]);
    if Sub(j, [k]).Some? { SubOne(Sub(j, [k]).value, l); }
  }

  /** A member of the object "vars.vars" is a node there. */
  lemma DoubleVarsBack(obj: Json, k: string)
    requires obj.Obj? && VisibleDoc(obj) && VARS in obj.members && obj.members[VARS].Obj?
    requires var v := obj.members[VARS].members; VARS in v && v[VARS].Obj? && k in v[VARS].members
    ensures InTree(obj, [VARS, VARS, k]) && InTree(obj, [VARS, VARS])
  {
    var w := obj.members[VARS].members[VARS];
    assert VisibleDoc(obj.members[VARS]) && VisibleDoc(w);
    var s := HasLeaf(w.members[k]);
    var p := [VARS, VARS, k] + s;
    assert p == [VARS] + ([VARS] + ([k] + s));
    MemberLeaf(w, k, s);
    MemberLeaf(obj.members[VARS], VARS, [k] + s);
    MemberLeaf(obj, VARS, [VARS] + ([k] + s));
    assert Kept(p) == p;
  }

  lemma MemberLeaf(j: Json, k: string, s: Path)
    requires j.Obj? && k in j.members
    ensures Leaf(j, [k] + s) == Leaf(j.members[k], s)
  {
    assert ([k] + s)[1..] == s;
  }

  /** A value is kept at another name only if the names differ by a leading "vars". */
  lemma KeptTwice(p: Path, r: Path)
    requires Kept(p) == Kept(r) && p != r && p != [] && r != []
    ensures (p == [VARS] + r && |p| >= 2) || (r == [VARS] + p && |r| >= 2)
    ensures p == [VARS] + r ==> r[0] != VARS || r == [VARS]
    ensures r == [VARS] + p ==> p[0] != VARS || p == [VARS]
  {
    assert ([VARS] + p)[1..] == p && ([VARS] + r)[1..] == r;
  }

  /** What the object "vars" has under a name that is listed without "vars" is at the root too. */
  lemma VarsAtRoot(obj: Json, r: Path)
    requires obj.Obj? && VarsOk(obj.members) && r != [] && Leaf(obj, [VARS] + r).Some?
    requires r[0] != VARS || r == [VARS]
    ensures Leaf(obj, r) == Leaf(obj, [VARS] + r)
  {
    MemberLeaf(obj, VARS, r);
    var v := obj.members[VARS];
    assert v.Obj? && r[0] in v.members && r == [r[0]] + r[1..];
    MemberLeaf(v, r[0], r[1..]);
    if r[0] != VARS { MemberLeaf(obj, r[0], r[1..]); }
  }

  /** What the root has under a name that is also listed with "vars" in front is in the object "vars" too. */
  lemma RootAtVars(obj: Json, p: Path)
    requires obj.Obj? && VarsOk(obj.members) && p != [] && Leaf(obj, p).Some? && ListedHere(obj, [VARS] + p)
    requires p[0] != VARS || p == [VARS]
    ensures Leaf(obj, [VARS] + p) == Leaf(obj, p)
  {
    hide InTree;
    var r := [VARS] + p;
    assert r[..1] == [VARS] && r[1] == p[0];
    assert Kept(r[..1]) + [r[1]] == [VARS, VARS, p[0]];
    DoubleVars(obj, p[0]);
    assert p == [p[0]] + p[1..];
    MemberLeaf(obj, p[0], p[1..]);
    MemberLeaf(obj, VARS, p);
    if p[0] != VARS { MemberLeaf(obj.members[VARS], p[0], p[1..]); }
  }

  /** An exported value is the document's own. */
  lemma ExportedIsLeaf(obj: Json, es: Entries, r: Path, x: Json)
    requires obj.Obj? && VisibleDoc(obj) && VarsOk(obj.members) && Exports(obj, es) && (r, x) in es
    ensures Leaf(obj, r) == Some(x)
  {
    hide ListedHere, VarsOk, VisibleDoc;
    var p :| Leaf(obj, p) == Some(x) && Kept(p) == Kept(r);
    assert p != [];
    if p != r {
      KeptTwice(p, r);
      if p == [VARS] + r { VarsAtRoot(obj, r); } else { RootAtVars(obj, p); }
    }
  }

  /** A value of the document is listed under its name. */
  lemma LeafListed(obj: Json, r: Path)
    requires obj.Obj? && VisibleDoc(obj) && VarsOk(obj.members) && Leaf(obj, r).Some?
    ensures ListedHere(obj, r)
  {
    hide InTree, VarsOk, VisibleDoc;
    forall i | 0 <= i < |r| ensures InTree(obj, Kept(r[..i]) + [r[i]]) {
      if r[0] != VARS {
        KeptPlain(r, i);
        Above(obj, r, Kept(r[..i]) + [r[i]]);
      } else if |r| == 1 {
        assert Kept(r[..i]) + [r[i]] == Kept(r);
        Above(obj, r, Kept(r));
      } else if i >= 2 {
        KeptVars(r, i);
        Above(obj, r, Kept(r[..i]) + [r[i]]);
      } else {
        VarsListed(obj, r, i);
      }
    }
  }

  /** The first two steps of the listing of a name that begins with "vars". */
  lemma VarsListed(obj: Json, r: Path, i: nat)
    requires obj.Obj? && VisibleDoc(obj) && VarsOk(obj.members) && Leaf(obj, r).Some?
    requires |r| >= 2 && r[0] == VARS && i <= 1
    ensures InTree(obj, Kept(r[..i]) + [r[i]])
  {
    hide InTree, VisibleDoc;
    assert r == [VARS] + r[1..] && r[1..] == [r[1]] + r[2..];
    MemberLeaf(obj, VARS, r[1..]);
    assert r[1] in obj.members[VARS].members;
    DoubleVarsBack(obj, r[1]);
    assert Kept(r[..i]) + [r[i]] == if i == 0 then [VARS, VARS] else [VARS, VARS, r[1]];
  }

  /** The export shows exactly the document's values where names and places agree as they must. */
  lemma VarsOkLists(obj: Json, es: Entries)
    requires obj.Obj? && VisibleDoc(obj) && VarsOk(obj.members) && Exports(obj, es)
    ensures Lists(obj, es)
  {
    forall r, x ensures (r, x) in es <==> Leaf(obj, r) == Some(x) {
      if (r, x) in es { ExportedIsLeaf(obj, es, r, x); }
      if Leaf(obj, r) == Some(x) {
        LeafListed(obj, r);
        VisibleSub(obj, r);
        assert Source(obj, r, x);
        var y :| (r, y) in es;
        ExportedIsLeaf(obj, es, r, y);
      }
    }
  }

  /** In a document that is exported as it is, a name in the object "vars" is a name in "vars.vars" too. */
  lemma VarsInVars(obj: Json, es: Entries, k: string)
    requires obj.Obj? && VisibleDoc(obj) && Exports(obj, es) && Lists(obj, es)
    requires VARS in obj.members && obj.members[VARS].Obj? && k in obj.members[VARS].members
    ensures var v := obj.members[VARS].members; VARS in v && v[VARS].Obj? && k in v[VARS].members
  {
    hide Lists, Exports;
    var v := obj.members[VARS];
    assert VisibleDoc(v);
    var s := HasLeaf(v.members[k]);
    MemberLeaf(v, k, s);
    MemberLeaf(obj, VARS, [k] + s);
    var p := [VARS] + ([k] + s);
    LeafExported(obj, es, p);
    assert p[..1] == [VARS] && p[1] == k && Kept(p[..1]) + [p[1]] == [VARS, VARS, k];
    DoubleVars(obj, k);
  }

  lemma LeafExported(obj: Json, es: Entries, p: Path)
    requires obj.Obj? && Exports(obj, es) && Lists(obj, es) && Leaf(obj, p).Some?
    ensures ListedHere(obj, p) && (p, Leaf(obj, p).value) in es
  {
    assert (p, Leaf(obj, p).value) in es;
  }

  /** A value below such a name in the object "vars" is also listed without "vars". */
  lemma ListedWithout(obj: Json, k: string, s: Path)
    requires k != VARS && Leaf(obj, [VARS] + ([k] + s)).Some?
    ensures ListedHere(obj, [k] + s) && Kept([k] + s) == Kept([VARS] + ([k] + s))
  {
    hide InTree;
    var r := [k] + s;
    var p := [VARS] + r;
    assert r[0] == k && Kept(p) == p == Kept(r);
    forall i | 0 <= i < |r| ensures InTree(obj, Kept(r[..i]) + [r[i]]) {
      KeptPlain(r, i);
      Above(obj, p, Kept(r[..i]) + [r[i]]);
    }
  }

  lemma Above(obj: Json, p: Path, q: Path)
    requires Leaf(obj, p).Some? && q <= Kept(p)
    ensures InTree(obj, q)
  {
  }

  /** The steps of a listing that does not begin with "vars", and of one that does. */
  lemma KeptPlain(r: Path, i: nat)
    requires i < |r| && r[0] != VARS
    ensures Kept(r[..i]) + [r[i]] == [VARS] + r[..i + 1] <= Kept(r)
  {
    assert r[..i] + [r[i]] == r[..i + 1];
  }

  lemma KeptVars(r: Path, i: nat)
    requires 2 <= i < |r| && r[0] == VARS
    ensures Kept(r[..i]) + [r[i]] == r[..i + 1] <= Kept(r)
  {
  }

  /** A value below such a name at the root is also listed with "vars" in front. */
  lemma ListedWith(obj: Json, k: string, s: Path)
    requires k != VARS && InTree(obj, [VARS, VARS]) && InTree(obj, [VARS, VARS, k]) && Leaf(obj, [k] + s).Some?
    ensures ListedHere(obj, [VARS] + ([k] + s)) && Kept([k] + s) == Kept([VARS] + ([k] + s))
  {
    hide InTree;
    var r := [k] + s;
    var p := [VARS] + r;
    assert r[0] == k && Kept(p) == p == Kept(r) && p[0] == VARS && p[1] == k;
    forall i | 0 <= i < |p| ensures InTree(obj, Kept(p[..i]) + [p[i]]) {
      if i == 0 {
        assert Kept(p[..i]) + [p[i]] == [VARS, VARS];
      } else if i == 1 {
        assert Kept(p[..i]) + [p[i]] == [VARS, VARS, k];
      } else {
        KeptVars(p, i);
        Above(obj, r, Kept(p[..i]) + [p[i]]);
      }
    }
  }

  /** Below such a name, what the root has the object "vars" has, and the other way round. */
  lemma VarsAgree(obj: Json, es: Entries, k: string, s: Path)
    requires obj.Obj? && VisibleDoc(obj) && Exports(obj, es) && Lists(obj, es)
    requires VARS in obj.members && obj.members[VARS].Obj? && k != VARS
    requires var v := obj.members[VARS].members; VARS in v && v[VARS].Obj? && k in v[VARS].members
    ensures Leaf(obj, [k] + s) == Leaf(obj, [VARS] + ([k] + s))
  {
    hide ListedHere, InTree, VisibleDoc, Exports, Lists, Kept, Visible;
    var r := [k] + s;
    var p := [VARS] + r;
    DoubleVarsBack(obj, k);
    if Leaf(obj, p).Some? {
      VisibleSub(obj, p);
      assert forall t :: t in r ==> t in p;
      ListedWithout(obj, k, s);
      AlsoExported(obj, es, p, r);
    }
    if Leaf(obj, r).Some? {
      VisibleSub(obj, r);
      VarsVisible();
      assert forall t :: t in p ==> t == VARS || t in r;
      ListedWith(obj, k, s);
      AlsoExported(obj, es, r, p);
    }
  }

  lemma VarsVisible()
    ensures Visible(VARS)
  {
  }

  /** A listed name whose variable is kept where a value of the document is has that value in the document. */
  lemma AlsoExported(obj: Json, es: Entries, p: Path, r: Path)
    requires obj.Obj? && Exports(obj, es) && Lists(obj, es) && Leaf(obj, p).Some?
    requires r != [] && Visibles(r) && ListedHere(obj, r) && Kept(r) == Kept(p)
    ensures Leaf(obj, r) == Leaf(obj, p)
  {
    hide ListedHere;
    var x := Leaf(obj, p).value;
    assert (p, x) in es;
    assert Source(obj, r, x);
    var y :| (r, y) in es;
  }

  lemma ListsVarsOk(obj: Json, es: Entries)
    requires obj.Obj? && VisibleDoc(obj) && Exports(obj, es) && Lists(obj, es)
    ensures VarsOk(obj.members)
  {
    hide Lists, Exports;
    var o := obj.members;
    if VARS in o && o[VARS].Obj? {
      var v := o[VARS].members;
      assert v != map[] && VisibleDoc(o[VARS]);
      var k0 :| k0 in v;
      VarsInVars(obj, es, k0);
      var w := v[VARS].members;
      forall k | k in v ensures k in w { VarsInVars(obj, es, k); }
      forall k | k in w && k != VARS ensures (k in v <==> k in o) && (k in v ==> v[k] == o[k]) {
        forall s ensures Leaf(obj, [k] + s) == Leaf(obj, [VARS] + ([k] + s)) {
          VarsAgree(obj, es, k, s);
        }
        VarsMember(obj, k);
      }
    }
  }

  lemma VarsMember(obj: Json, k: string)
    requires obj.Obj? && VisibleDoc(obj) && VARS in obj.members && obj.members[VARS].Obj?
    requires forall s :: Leaf(obj, [k] + s) == Leaf(obj, [VARS] + ([k] + s))
    ensures var o, v := obj.members, obj.members[VARS].members; (k in v <==> k in o) && (k in v ==> v[k] == o[k])
  {
    var o, v := obj.members, obj.members[VARS].members;
    assert VisibleDoc(obj.members[VARS]);
    forall s ensures Leaf(obj, [k] + s) == if k in o then Leaf(o[k], s) else None {
      assert ([k] + s)[1..] == s;
    }
    forall s ensures Leaf(obj, [VARS] + ([k] + s)) == if k in v then Leaf(v[k], s) else None {
      MemberLeaf(obj, VARS, [k] + s);
      assert ([k] + s)[1..] == s;
    }
    if k in o { var s := HasLeaf(o[k]); assert Leaf(obj, [k] + s).Some?; }
    if k in v { var s := HasLeaf(v[k]); assert Leaf(obj, [VARS] + ([k] + s)).Some?; }
    if k in v && k in o {
      forall s ensures Leaf(v[k], s) == Leaf(o[k], s) {
        assert Leaf(obj, [k] + s) == Leaf(obj, [VARS] + ([k] + s));
      }
      SameLeaves(v[k], o[k]);
    }
  }

  // ----- An export that settles as the document shows the document -----

  /** What is left as an object has the same members. */
  lemma {:induction false} SettledSub(j: Json, p: Path)
    requires Sub(Settled(j), p).Some?
    ensures Sub(j, p).Some? && Settled(Sub(j, p).value) == Sub(Settled(j), p).value
    decreases |p|
  {
    hide Settled;
    if p != [] {
      if j.Obj? {
        SettledObject(j.members);
        SettledSub(j.members[p[0]], p[1..]);
      } else {
        SettledKind(j);
      }
    }
  }

  lemma SettledKind(j: Json)
    ensures !j.Obj? ==> !Settled(j).Obj? && (j.Arr? <==> Settled(j).Arr?)
    ensures j.Text? || j.Atom? ==> Settled(j) == j
  {
  }

  /** An object with a value of its own stays an object. */
  lemma OwnValueStays(m: Members)
    requires VALUE in m
    ensures Settled(Obj(m)).Obj? && VALUE in Settled(Obj(m)).members
  {
    hide Settled, Atoi;
    SettledObject(m);
    ValueNoNumber();
    forall order | Orders(m.Keys, order) ensures !Counts(order) {
      assert VALUE in order;
      var i :| 0 <= i < |order| && order[i] == VALUE;
      assert Atoi(order[i]) != Some(i);
    }
  }

  lemma ValueNoNumber()
    ensures Atoi(VALUE) == None
  {
    assert !IsDigit(VALUE[0]) && VALUE[0] in VALUE;
  }

  lemma {:induction false} AtSub(j: Json, p: Path)
    ensures At(j, p) == if Sub(j, p).Some? then At(Sub(j, p).value, []) else None
    decreases |p|
  {
    if p != [] && j.Obj? && p[0] in j.members { AtSub(j.members[p[0]], p[1..]); }
  }

  lemma {:induction false} NormalSub(j: Json, p: Path)
    requires (j.Obj? ==> NormalRoot(j)) && Sub(j, p).Some?
    ensures p != [] ==> Normal(Sub(j, p).value)
    decreases |p|
  {
    if p != [] {
      assert Normal(j.members[p[0]]);
      NormalSub(j.members[p[0]], p[1..]);
    }
  }

  /** Every place in a built document lies above an inserted name. */
  lemma NameAbove(es: Entries, p: Path) returns (e: (Path, Json))
    requires AllNamed(es) && Good(p) && p != [] && Sub(Obj(Built(es)), p).Some?
    ensures e in es && p <= Meaning(e.0)
  {
    var root := Obj(Built(es));
    BuiltAt(es, []);
    NormalSub(root, p);
    var q := Inhabited(Sub(root, p).value);
    assert Good(p + q);
    SubAppend(root, p, q);
    AtSub(root, p + q);
    AtSub(Sub(root, p).value, q);
    BuiltAt(es, p + q);
    e := LastEntry(es, p + q);
  }

  lemma {:induction false} LastEntry(es: Entries, q: Path) returns (e: (Path, Json))
    requires LastFor(es, q).Some?
    ensures e in es && Meaning(e.0) == q && LastFor(es, q) == Some(e.1)
    decreases |es|
  {
    e := es[|es| - 1];
    if Meaning(e.0) != q { e := LastEntry(es[..|es| - 1], q); }
  }

  lemma VisiblesGood(p: Path)
    requires Visibles(p)
    ensures Good(p) && VALUE !in p
  {
    assert VALUE[0] == '_' && !Visible(VALUE);
  }

  lemma ListedPrefix(obj: Json, p: Path, r: Path)
    requires p <= r && ListedHere(obj, r)
    ensures ListedHere(obj, p)
  {
    forall i | 0 <= i < |p| ensures InTree(obj, Kept(p[..i]) + [p[i]]) {
      assert p[..i] == r[..i] && p[i] == r[i];
    }
  }

  /** A value of the document is exported under its name, as what settles as it. */
  lemma LeafSettles(obj: Json, es: Entries, p: Path) returns (x: Json)
    requires obj.Obj? && VisibleDoc(obj) && Exports(obj, es) && Settled(Obj(Built(es))) == obj && Leaf(obj, p).Some?
    ensures (p, x) in es && !x.Obj? && Sub(Obj(Built(es)), p) == Some(x) && Settled(x) == Leaf(obj, p).value
  {
    hide Settled, ListedHere, Built, LastFor;
    var root := Obj(Built(es));
    VisibleSub(obj, p);
    VisiblesGood(p);
    SettledSub(root, p);
    x := Sub(root, p).value;
    var e := NameAbove(es, p);
    assert e == (e.0, e.1);
    VisiblesGood(e.0);
    assert VALUE in [VALUE];
    ListedPrefix(obj, p, e.0);
    assert Source(obj, p, Leaf(obj, p).value);
    var y :| (p, y) in es;
    ExportGives(obj, es, p, y);
    AtSub(root, p);
    if x.Obj? { OwnValueStays(x.members); }
  }

  lemma ExportGives(obj: Json, es: Entries, p: Path, y: Json)
    requires Exports(obj, es) && (p, y) in es
    ensures At(Obj(Built(es)), p) == Some(y) && !y.Obj?
  {
    hide ListedHere;
    forall e | e in es ensures Meaning(e.0) == e.0 {
      assert e == (e.0, e.1);
      VisiblesGood(e.0);
      assert VALUE in [VALUE];
    }
    VisiblesGood(p);
    BuiltGives(es, p, y);
    assert (p, y) in es && !(p, y).1.Obj?;
  }

  /** It is exported as itself. */
  lemma LeafShown(obj: Json, es: Entries, p: Path)
    requires obj.Obj? && VisibleDoc(obj) && Exports(obj, es) && Settled(Obj(Built(es))) == obj && Leaf(obj, p).Some?
    ensures (p, Leaf(obj, p).value) in es && Sub(Obj(Built(es)), p) == Leaf(obj, p)
  {
    hide Settled, ListedHere, Built;
    var x := LeafSettles(obj, es, p);
    var q :| Leaf(obj, q) == Some(x) && Kept(q) == Kept(p);
    var y := LeafSettles(obj, es, q);
    assert y == x;
  }

  /** Nothing in the built document that is above a visible name becomes an array. */
  lemma {:induction false} StaysInPlace(obj: Json, es: Entries, q: Path)
    requires obj.Obj? && VisibleDoc(obj) && Exports(obj, es) && Settled(Obj(Built(es))) == obj
    requires Sub(Obj(Built(es)), q).Some?
    ensures Sub(obj, q) == Some(Settled(Sub(Obj(Built(es)), q).value))
    decreases |q|
  {
    hide Settled, Built, ListedHere;
    var root := Obj(Built(es));
    if q != [] {
      var up, k := q[..|q| - 1], q[|q| - 1];
      assert q == up + [k];
      SubAppend(root, up, [k]);
      SubAppend(obj, up, [k]);
      StaysInPlace(obj, es, up);
      var x := Sub(root, up).value;
      SubOne(x, k);
      SettledObject(x.members);
      SubOne(Settled(x), k);
      if !Settled(x).Obj? { LeafShown(obj, es, up); }
    }
  }

  lemma NoOwnValue(j: Json)
    requires VisibleDoc(j)
    ensures j.Obj? ==> VALUE !in j.members
  {
    assert VALUE[0] == '_' && !Visible(VALUE);
  }

  lemma SettledLists(obj: Json, es: Entries)
    requires obj.Obj? && VisibleDoc(obj) && Exports(obj, es) && Settled(Obj(Built(es))) == obj
    ensures Lists(obj, es)
  {
    hide Settled, Built, ListedHere;
    var root := Obj(Built(es));
    forall r, y ensures (r, y) in es <==> Leaf(obj, r) == Some(y) {
      if Leaf(obj, r) == Some(y) { LeafShown(obj, es, r); }
      if (r, y) in es {
        ExportGives(obj, es, r, y);
        AtSub(root, r);
        var x := Sub(root, r).value;
        StaysInPlace(obj, es, r);
        VisibleSub(obj, r);
        NoOwnValue(Sub(obj, r).value);
        if x.Obj? { OwnValueStays(x.members); }
        SettledKind(x);
        LeafShown(obj, es, r);
        SameEntry(es, r, y, Leaf(obj, r).value);
      }
    }
  }

  lemma SameEntry(es: Entries, r: Path, x: Json, y: Json)
    requires Distinct(es) && (r, x) in es && (r, y) in es
    ensures x == y
  {
    var i :| 0 <= i < |es| && es[i] == (r, x);
    var j :| 0 <= j < |es| && es[j] == (r, y);
  }
}
