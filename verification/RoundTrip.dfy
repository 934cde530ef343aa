/** A JSON document that is set over HTTP and exported again, through the controller and the database
    (sources/services/apis/httpapi/httpapi.go:206-335). */
module RoundTrips {
  import opened DotPaths
  import opened Options
  import opened RamTrees
  import opened Variables
  import opened Numerals
  import opened NestedNames
  import opened NumberedObjects
  import opened JsonSets
  import opened VisibleDocs
  import opened ExportedDocs
  import opened ExportOrigins

  // ----- The names of a document that comes back -----

  /** The entries of an export before anything is known of the document: names of visible segments, and the root's. */
  ghost predicate VisibleNames(es: Entries) {
    forall e :: e in es ==> !e.1.Obj? && (e.0 == [VALUE] || e.0 == [""] || (e.0 != [] && Visibles(e.0)))
  }

  /** A visible path, or one with "_value" behind it. */
  predicate NearlyVisible(q: Path) {
    Visibles(q) || (q != [] && Last(q) == VALUE && Visibles(Parent(q)))
  }

  lemma VisibleNamed(es: Entries)
    requires VisibleNames(es)
    ensures AllNamed(es)
  {
    forall e | e in es ensures Named(e.0) {
      if e.0 != [VALUE] && e.0 != [""] { VisiblesGood(e.0); }
    }
  }

  lemma {:induction false} NormalPath(j: Json, q: Path)
    requires (j.Obj? ==> NormalRoot(j)) && Sub(j, q).Some?
    ensures Good(q) || (q != [] && Last(q) == VALUE && Good(Parent(q)))
    decreases |q|
  {
    if q != [] {
      var k, rest := q[0], q[1..];
      assert k != "" && (k == VALUE ==> !j.members[k].Obj?) && Normal(j.members[k]);
      NormalPath(j.members[k], rest);
      if rest != [] {
        assert q == [k] + rest && Last(q) == Last(rest) && Parent(q) == [k] + Parent(rest);
      } else {
        assert q == [k] && Parent(q) == [];
      }
    }
  }

  /** The paths in a built document have visible names, but for the objects' own values. */
  lemma RootPath(es: Entries, q: Path)
    requires VisibleNames(es) && AllNamed(es) && Sub(Obj(Built(es)), q).Some?
    ensures NearlyVisible(q)
  {
    hide Built, AllNamed;
    var root := Obj(Built(es));
    BuiltAt(es, []);
    NormalPath(root, q);
    if Good(q) {
      GoodPath(es, q);
    } else {
      SubAbove(root, Parent(q), q);
      GoodPath(es, Parent(q));
    }
  }

  lemma GoodPath(es: Entries, q: Path)
    requires VisibleNames(es) && AllNamed(es) && Sub(Obj(Built(es)), q).Some? && Good(q)
    ensures Visibles(q)
  {
    hide Built, AllNamed;
    if q != [] {
      var e := NameAbove(es, q);
      assert q[0] in q && q[0] == Meaning(e.0)[0];
      assert e.0 != [VALUE] && e.0 != [""];
      assert forall s :: s in q ==> s in e.0;
    }
  }

  /** What setJson made of a document, as far as the controller's answers tell. */
  ghost predicate Ran(c: Codec, limits: Limits, obj: Json, made: Texts, ok: bool) {
    && (forall e :: e in made ==> exists p :: Leaf(obj, p).Some? && MadeFor(c, limits, [], (p, Leaf(obj, p).value), e))
    && (ok ==> forall p :: Leaf(obj, p).Some? ==> IsMade(c, [], (p, Leaf(obj, p).value), made))
    && ((forall p {:trigger Leaf(obj, p)} :: Leaf(obj, p).Some? ==> MayMake(c, limits, [], (p, Leaf(obj, p).value)))
          ==> ok)
  }

  lemma WalkedRan(c: Codec, limits: Limits, obj: Json, es: Entries, made: Texts, ok: bool)
    requires Part(obj, es) && (ok ==> Lists(obj, es)) && Walked(c, limits, [], es, made, ok)
    ensures Ran(c, limits, obj, made, ok)
  {
    hide MadeFor, IsMade, MayMake;
    forall i | 0 <= i < |es| ensures Leaf(obj, es[i].0) == Some(es[i].1) {
      assert es[i] in es && es[i] == (es[i].0, es[i].1);
    }
    forall p | ok && Leaf(obj, p).Some? ensures IsMade(c, [], (p, Leaf(obj, p).value), made) {
      assert (p, Leaf(obj, p).value) in es;
    }
    if forall p {:trigger Leaf(obj, p)} :: Leaf(obj, p).Some? ==> MayMake(c, limits, [], (p, Leaf(obj, p).value)) {
      forall i | 0 <= i < |es| ensures MayMake(c, limits, [], es[i]) {
        assert Leaf(obj, es[i].0).Some? && es[i] == (es[i].0, es[i].1);
      }
    }
  }

  /** A value under a visible name is set under that name; one under "_value" never is. */
  lemma SetUnder(c: Codec, limits: Limits, obj: Json, p: Path, e: (string, string))
    requires Leaf(obj, p).Some? && p != [] && NearlyVisible(p) && MadeFor(c, limits, [], (p, Leaf(obj, p).value), e)
    ensures Visibles(p) && e == SetFor(c, obj, p) && Made(limits, e) && Leaf(obj, p).value != NULL
  {
    hide FullName, Only, Simple, Accepted, StoredText;
    assert [] + p == p;
    if Visibles(p) {
      VisibleName(p);
    } else {
      assert p == Parent(p) + [VALUE];
      ValueRefused(limits, Parent(p), e.1);
    }
  }

  /** Every set was made for a value under a visible name. */
  lemma MadeFrom(c: Codec, limits: Limits, obj: Json, made: Texts, ok: bool, e: (string, string)) returns (p: Path)
    requires obj.Obj? && Ran(c, limits, obj, made, ok) && e in made
    requires forall q :: Leaf(obj, q).Some? ==> NearlyVisible(q)
    ensures Leaf(obj, p).Some? && Visibles(p) && e == SetFor(c, obj, p) && Made(limits, e) && Leaf(obj, p).value != NULL
  {
    hide FullName, Only, Simple, Accepted, StoredText, Made, NearlyVisible, MadeFor, Visibles;
    p :| Leaf(obj, p).Some? && MadeFor(c, limits, [], (p, Leaf(obj, p).value), e);
    SetUnder(c, limits, obj, p, e);
  }

  lemma AllMade(c: Codec, limits: Limits, obj: Json, made: Texts)
    requires obj.Obj? && Ran(c, limits, obj, made, true)
    requires forall p :: Leaf(obj, p).Some? ==> NearlyVisible(p)
    ensures AllSet(c, limits, obj, made)
  {
    hide FullName, Only, Simple, Accepted, StoredText, Made, NearlyVisible, MadeFor, Visibles;
    forall e | e in made ensures exists p :: Leaf(obj, p).Some? && e == SetFor(c, obj, p) {
      var p := MadeFrom(c, limits, obj, made, true, e);
    }
    forall p | Leaf(obj, p).Some?
      ensures Visibles(p) && Leaf(obj, p).value != NULL
      ensures SetFor(c, obj, p) in made && Made(limits, SetFor(c, obj, p))
    {
      assert IsMade(c, [], (p, Leaf(obj, p).value), made);
      LeafMade(c, limits, obj, made, p);
    }
  }

  lemma LeafMade(c: Codec, limits: Limits, obj: Json, made: Texts, p: Path)
    requires obj.Obj? && Ran(c, limits, obj, made, true) && Leaf(obj, p).Some? && NearlyVisible(p)
    requires forall q :: Leaf(obj, q).Some? ==> NearlyVisible(q)
    ensures Visibles(p) && SetFor(c, obj, p) in made && Made(limits, SetFor(c, obj, p))
  {
    hide FullName, Only, Accepted, StoredText, HasIncrement;
    assert IsMade(c, [], (p, Leaf(obj, p).value), made);
    assert [] + p == p;
    if Visibles(p) {
      VisibleName(p);
    } else {
      assert p == Parent(p) + [VALUE];
      ValueRefused(limits, Parent(p), StoredText(c, Leaf(obj, p).value));
    }
    var e := (Only(FullName(p)), StoredText(c, Leaf(obj, p).value));
    assert e in made;
    var q :| Leaf(obj, q).Some? && MadeFor(c, limits, [], (q, Leaf(obj, q).value), e);
    assert Made(limits, e);
  }

  /** A document whose paths are visible and whose objects below the root are not empty. */
  lemma {:induction false} PathsVisible(j: Json)
    requires forall q {:trigger Sub(j, q)} :: Sub(j, q).Some? ==>
               Visibles(q) && (q != [] ==> Sub(j, q).value != Obj(map[]))
    ensures VisibleDoc(j)
    decreases j
  {
    if j.Obj? {
      forall k | k in j.members ensures Visible(k) && VisibleDoc(j.members[k]) && j.members[k] != Obj(map[]) {
        SubOne(j, k);
        assert k in [k];
        forall q | Sub(j.members[k], q).Some?
          ensures Visibles(q) && (q != [] ==> Sub(j.members[k], q).value != Obj(map[]))
        {
          assert ([k] + q)[1..] == q && Sub(j, [k] + q) == Sub(j.members[k], q);
          assert forall s :: s in q ==> s in [k] + q;
        }
        PathsVisible(j.members[k]);
      }
    }
  }

  /** The names of a document that comes back, once all its values are known to have been set. */
  lemma NamesVisible(c: Codec, limits: Limits, obj: Json, made: Texts, es: Entries)
    requires obj.Obj? && VisibleNames(es) && AllNamed(es) && Settled(Obj(Built(es))) == obj
    requires AllSet(c, limits, obj, made)
    ensures VisibleDoc(obj)
  {
    hide Settled, Built, Made, StoredText, FullName, Visible;
    var root := Obj(Built(es));
    BuiltAt(es, []);
    forall q | Sub(obj, q).Some? ensures Visibles(q) && (q != [] ==> Sub(obj, q).value != Obj(map[])) {
      SettledSub(root, q);
      RootPath(es, q);
      NormalSub(root, q);
      var x := Sub(root, q).value;
      if x.Obj? {
        SettledObject(x.members);
        if !Visibles(q) { OwnValuePlain(root, q); }
        if q != [] {
          var k :| k in x.members;
          assert Settled(x).Obj? ==> k in Settled(x).members;
        }
      } else {
        SettledKind(x);
        assert Leaf(obj, q).Some?;
      }
    }
    PathsVisible(obj);
  }

  /** An own value is no object. */
  lemma {:induction false} OwnValuePlain(j: Json, q: Path)
    requires (j.Obj? ==> NormalRoot(j)) && Sub(j, q).Some? && q != [] && Last(q) == VALUE
    ensures !Sub(j, q).value.Obj?
    decreases |q|
  {
    assert Normal(j.members[q[0]]);
    if |q| > 1 {
      assert Last(q[1..]) == VALUE;
      OwnValuePlain(j.members[q[0]], q[1..]);
    } else {
      SubOne(j, q[0]);
      assert q == [q[0]];
    }
  }

  // ----- Without an object "vars", a document that comes back was set without an error -----

  predicate VarsObject(o: Members) {
    VARS in o && o[VARS].Obj?
  }

  /** Then no value has a name that begins with "vars." */
  lemma NoLongVars(obj: Json, p: Path)
    requires obj.Obj? && !VarsObject(obj.members) && Sub(obj, p).Some? && |p| >= 2
    ensures p[0] != VARS && Kept(p) == [VARS] + p
  {
    SubAbove(obj, p[..1], p);
    assert p[..1] == [p[0]];
    SubOne(obj, p[0]);
  }

  /** A variable with a text was set for the value of its own name. */
  lemma MadeHere(c: Codec, limits: Limits, obj: Json, v: View, made: Texts, ok: bool, q: Path) returns (p: Path)
    requires obj.Obj? && !VarsObject(obj.members) && Ran(c, limits, obj, made, ok) && NoVars(v)
    requires forall p :: Leaf(obj, p).Some? ==> NearlyVisible(p)
    requires Visibles(q) && Listed(Stored(v, made), "", q) && ValueOf(Stored(v, made), FullName(q)) != ""
    ensures q == p && Leaf(obj, p).Some? && SetFor(c, obj, p) in made && Leaf(obj, p).value != NULL
  {
    hide Stored, FullName, NearlyVisible, Ran, Made, StoredText, Listed, VarPath, Visibles, ValueOf;
    ValueMadeAt(v, made, FullName(q));
    var d :| d in made && VarPath(d.0) == VarPath(FullName(q));
    p := MadeFrom(c, limits, obj, made, ok, d);
    KeptIs(p);
    KeptIs(q);
    if |p| >= 2 { NoLongVars(obj, p); }
    if q == [VARS] + p && |q| >= 2 {
      ListedSecond(v, made, q);
      var e :| e in made && [VARS, VARS, q[1]] <= VarPath(e.0);
      var r := MadeFrom(c, limits, obj, made, ok, e);
      KeptIs(r);
      assert Kept(r)[1] == VARS && |Kept(r)| >= 3;
      if |r| >= 2 { NoLongVars(obj, r); }
    }
    if q != [] && p != q { KeptTwice(p, q); }
  }

  lemma ValueMadeAt(v: View, made: Texts, n: string)
    requires NoVars(v) && ValueOf(Stored(v, made), n) != ""
    ensures exists d :: d in made && VarPath(d.0) == VarPath(n)
  {
    hide Stored, VarPath;
    VarPathFacts(n);
    StoredValues(v, made, VarPath(n));
  }

  /** The second step of a listing that begins with "vars" is taken below "vars.vars". */
  lemma ListedSecond(v: View, made: Texts, q: Path)
    requires NoVars(v) && Visibles(q) && |q| >= 2 && q[0] == VARS && Listed(Stored(v, made), "", q)
    ensures exists e :: e in made && [VARS, VARS, q[1]] <= VarPath(e.0)
  {
    hide Stored, VarPath, Ext, FullName;
    assert q[..1] == [VARS] && q[1] == q[..2][1];
    VarsVisible();
    KeptIs([VARS]);
    ExtFullName([VARS]);
    assert VarPath(Ext("", q[..1])) + [q[1]] in Stored(v, made);
    assert VarPath(Ext("", q[..1])) + [q[1]] == [VARS, VARS, q[1]];
    StoredNodes(v, made, [VARS, VARS, q[1]]);
  }

  /** An entry of an export under a name is that of a listed variable with a text. */
  lemma EntryListed(c: Codec, v: View, values: Texts, e: (Path, Json))
    requires TameView(v) && HoldsTexts(v, values) && e in EntriesOf(c, values, |values|)
    ensures e.0 != [""] ==>
              Visibles(Meaning(e.0)) && Listed(v, "", Meaning(e.0)) && ValueOf(v, FullName(Meaning(e.0))) != ""
  {
    hide FullName, Parsed, TameView, VarPath, SplitOn, Visibles, ValueOf, Ext;
    var es := EntriesOf(c, values, |values|);
    SplitRoot();
    var i :| 0 <= i < |es| && es[i] == e;
    var (n, t) := values[i];
    assert values[i] in values && (n, t) in values;
    NoneVisible();
    ListedNone(v, "");
    if n != "" {
      var q :| q != [] && n == FullName(q) && Listed(v, "", q);
      ListedVisible(v, q);
      NameOfPath(q);
      VisiblesGood(q);
      assert VALUE in [VALUE];
    }
  }

  lemma NoneVisible()
    ensures Visibles([]) && FullName([]) == ""
  {
  }

  lemma WithoutVarsObject(c: Codec, limits: Limits, obj: Json, v: View, made: Texts, values: Texts, ok: bool)
    requires obj.Obj? && !VarsObject(obj.members) && Ran(c, limits, obj, made, ok) && NoVars(v)
    requires TameView(Stored(v, made)) && HoldsTexts(Stored(v, made), values)
    requires var es := EntriesOf(c, values, |values|);
             VisibleNames(es) && AllNamed(es) && Settled(Obj(Built(es))) == obj
    requires forall p :: Leaf(obj, p).Some? ==> NearlyVisible(p)
    ensures AllSet(c, limits, obj, made)
  {
    hide Ran, Stored, TameView, HoldsTexts, EntriesOf, Built, Settled, VisibleNames, AllNamed, NearlyVisible, Made,
      StoredText, Listed, Visibles;
    forall e | e in made ensures exists p :: Leaf(obj, p).Some? && e == SetFor(c, obj, p) {
      var p := MadeFrom(c, limits, obj, made, ok, e);
    }
    forall p | Leaf(obj, p).Some?
      ensures Visibles(p) && Leaf(obj, p).value != NULL
      ensures SetFor(c, obj, p) in made && Made(limits, SetFor(c, obj, p))
    {
      OwnLeaf(c, limits, obj, v, made, values, ok, p);
      var q := MadeFrom(c, limits, obj, made, ok, SetFor(c, obj, p));
    }
  }

  /** A value of the document was set under its own name. */
  lemma OwnLeaf(c: Codec, limits: Limits, obj: Json, v: View, made: Texts, values: Texts, ok: bool, p: Path)
    requires obj.Obj? && !VarsObject(obj.members) && Ran(c, limits, obj, made, ok) && NoVars(v)
    requires TameView(Stored(v, made)) && HoldsTexts(Stored(v, made), values)
    requires var es := EntriesOf(c, values, |values|);
             VisibleNames(es) && AllNamed(es) && Settled(Obj(Built(es))) == obj
    requires Leaf(obj, p).Some? && forall p :: Leaf(obj, p).Some? ==> NearlyVisible(p)
    ensures Visibles(p) && Leaf(obj, p).value != NULL && SetFor(c, obj, p) in made
  {
    hide Ran, Stored, TameView, HoldsTexts, EntriesOf, Built, Settled, VisibleNames, AllNamed, StoredText, Listed,
      Visibles;
    var es := EntriesOf(c, values, |values|);
    var root := Obj(Built(es));
    SettledSub(root, p);
    if Visibles(p) {
      VisiblesGood(p);
      var e := NameAbove(es, p);
      NotNameless(e.0, p);
      EntryListed(c, Stored(v, made), values, e);
      var q := MadeHere(c, limits, obj, v, made, ok, Meaning(e.0));
      if p != q { SubAbove(obj, p, q); }
    } else {
      var up := Parent(p);
      assert p == up + [VALUE];
      SubAbove(root, up, p);
      SubAbove(obj, up, p);
      VisiblesGood(up);
      BuiltAt(es, up);
      AtSub(root, up);
      OwnValueAt(root, up);
      var e := LastEntry(es, up);
      NotNameless(e.0, up);
      EntryListed(c, Stored(v, made), values, e);
      var q := MadeHere(c, limits, obj, v, made, ok, up);
    }
  }

  lemma NotNameless(parts: Path, p: Path)
    requires Good(p) && p <= Meaning(parts) && (p != [] || Good(Meaning(parts)))
    ensures parts != [""]
  {
    assert "" in [""];
    assert p <= [""] && p != [] ==> p == [""];
  }

  /** The value of an object's own gives its name a value. */
  lemma OwnValueAt(j: Json, up: Path)
    requires j.Obj? && NormalRoot(j) && Sub(j, up + [VALUE]).Some?
    ensures At(j, up).Some?
  {
    var p := up + [VALUE];
    assert Last(p) == VALUE;
    SubAppend(j, up, [VALUE]);
    SubOne(Sub(j, up).value, VALUE);
    OwnValuePlain(j, p);
    AtSub(j, up);
  }

  // ----- The main theorem -----

  /** The values of a document fit the limits under their names. */
  ghost predicate AllAccepted(c: Codec, limits: Limits, obj: Json) {
    forall p {:trigger Leaf(obj, p)} :: Leaf(obj, p).Some? ==>
      Accepted(limits, FullName(p), StoredText(c, Leaf(obj, p).value))
  }

  /** The documents that come back when they are set and exported: their names are visible, and none of their objects
      below the root is empty; each value reads back from its text; names and values fit the limits; an object "vars"
      at the root repeats itself as `VarsOk` says; and no object has members numbered from 0. */
  ghost predicate ComesBack(c: Codec, limits: Limits, obj: Json) {
    && obj.Obj? && VisibleDoc(obj) && AllReadable(c, obj) && AllAccepted(c, limits, obj)
    && VarsOk(obj.members) && NoNumbers(obj)
  }

  lemma BackIsSet(c: Codec, limits: Limits, obj: Json, made: Texts, ok: bool)
    requires obj.Obj? && VisibleDoc(obj) && AllReadable(c, obj) && AllAccepted(c, limits, obj)
    requires Ran(c, limits, obj, made, ok)
    ensures ok && AllSet(c, limits, obj, made)
  {
    hide Accepted, FullName, Only, Simple, Parsed, StoredText, VisibleDoc, Visibles;
    forall p | Leaf(obj, p).Some?
      ensures MayMake(c, limits, [], (p, Leaf(obj, p).value)) && NearlyVisible(p)
    {
      VisibleSub(obj, p);
      VisibleName(p);
      assert [] + p == p;
    }
    AllMade(c, limits, obj, made);
  }

  lemma BackExported(c: Codec, limits: Limits, obj: Json, v: View, made: Texts, values: Texts)
    requires ComesBack(c, limits, obj) && AllSet(c, limits, obj, made) && NoVars(v)
    requires TameView(Stored(v, made)) && HoldsTexts(Stored(v, made), values)
    ensures Obj(Built(EntriesOf(c, values, |values|))) == obj
  {
    hide AllSet, AllReadable, AllAccepted, VarsOk, VisibleDoc, NoNumbers, Stored, TameView, HoldsTexts, Exports,
      EntriesOf, Built, Lists;
    var es := EntriesOf(c, values, |values|);
    StoredExports(c, limits, obj, v, made, values);
    VarsOkLists(obj, es);
    VisiblePlain(obj);
    FlattenedRebuilt(obj, es);
  }

  /** An entry of the export comes from a variable that is the root's or has a visible name. */
  lemma EntryFrom(c: Codec, v: View, values: Texts, e: (Path, Json)) returns (n: string, t: string)
    requires TameView(v) && HoldsTexts(v, values) && e in EntriesOf(c, values, |values|)
    ensures t != "" && t == ValueOf(v, n) && e.1 == Parsed(c, t)
    ensures e.0 == [VALUE] || e.0 == [""] || (e.0 != [] && Visibles(e.0))
  {
    hide FullName, Parsed, TameView, Listed, VarPath, SplitOn, Visibles, ValueOf;
    var es := EntriesOf(c, values, |values|);
    SplitRoot();
    var i :| 0 <= i < |es| && es[i] == e;
    n, t := values[i].0, values[i].1;
    assert values[i] in values && (n, t) in values;
    if n != "" {
      var q :| q != [] && n == FullName(q) && Listed(v, "", q);
      ListedVisible(v, q);
      NameOfPath(q);
    }
  }

  /** The names and texts of an export, before anything is known of the document. */
  lemma ExportFacts(c: Codec, limits: Limits, obj: Json, v: View, made: Texts, values: Texts, ok: bool)
    requires Ran(c, limits, obj, made, ok) && NoVars(v)
    requires TameView(Stored(v, made)) && HoldsTexts(Stored(v, made), values)
    ensures var es := EntriesOf(c, values, |values|);
            && FromTexts(c, obj, es)
            && ((forall e :: e in es ==> !e.1.Obj?) ==> VisibleNames(es))
  {
    hide Stored, FullName, Parsed, StoredText, Only, Simple, Made, TameView, HoldsTexts, EntriesOf, Visibles, ValueOf;
    var w, es := Stored(v, made), EntriesOf(c, values, |values|);
    forall e | e in es
      ensures (exists x :: TextOf(c, obj, x, e.1)) && (e.0 == [VALUE] || e.0 == [""] || (e.0 != [] && Visibles(e.0)))
    {
      var n, t := EntryFrom(c, w, values, e);
      ValueMade(v, made, n);
      var d :| d in made && d.1 == t;
      var p :| Leaf(obj, p).Some? && MadeFor(c, limits, [], (p, Leaf(obj, p).value), d);
      assert TextOf(c, obj, Leaf(obj, p).value, e.1);
    }
  }

  lemma SplitRoot()
    ensures SplitOn(VALUE, '.') == [VALUE] && SplitOn("", '.') == [""]
  {
    FirstOfIs(VALUE, [], '.');
    assert VALUE + [] == VALUE;
  }

  /** A variable with a text was set to it. */
  lemma ValueMade(v: View, made: Texts, n: string)
    requires NoVars(v) && ValueOf(Stored(v, made), n) != ""
    ensures exists d :: d in made && d.1 == ValueOf(Stored(v, made), n)
  {
    hide Stored, VarPath;
    VarPathFacts(n);
    StoredValues(v, made, VarPath(n));
  }

  lemma SetAndBack(c: Codec, limits: Limits, obj: Json, v: View, made: Texts, values: Texts, ok: bool)
    requires obj.Obj? && Sane(c) && Genuine(c, obj) && Ran(c, limits, obj, made, ok) && NoVars(v)
    requires TameView(Stored(v, made)) && HoldsTexts(Stored(v, made), values)
    requires Settled(Obj(Built(EntriesOf(c, values, |values|)))) == obj && (ok || !VarsObject(obj.members))
    ensures ComesBack(c, limits, obj) && Obj(Built(EntriesOf(c, values, |values|))) == obj
  {
    hide Ran, Stored, TameView, HoldsTexts, Exports, EntriesOf, Built, Settled, Lists, Sane, FromTexts,
      VisibleDoc, VarsOk, NoNumbers, Readable, VisibleNames, AllNamed, NearlyVisible, Made, Accepted, StoredText;
    var es := EntriesOf(c, values, |values|);
    ExportFacts(c, limits, obj, v, made, values, ok);
    EntriesAreValues(c, obj, es);
    VisibleNamed(es);
    forall p | Leaf(obj, p).Some? ensures NearlyVisible(p) {
      SettledSub(Obj(Built(es)), p);
      RootPath(es, p);
    }
    if ok {
      AllMade(c, limits, obj, made);
    } else {
      WithoutVarsObject(c, limits, obj, v, made, values, ok);
    }
    NamesVisible(c, limits, obj, made, es);
    forall p | Leaf(obj, p).Some? ensures Readable(c, Leaf(obj, p).value) {
      assert Holds(obj, Leaf(obj, p).value);
    }
    MadeAccepted(c, limits, obj, made);
    StoredExports(c, limits, obj, v, made, values);
    SettledLists(obj, es);
    ListsVarsOk(obj, es);
    VisiblePlain(obj);
    FlattenedRebuilt(obj, es);
    SettledSame(obj);
  }

  lemma MadeAccepted(c: Codec, limits: Limits, obj: Json, made: Texts)
    requires AllSet(c, limits, obj, made)
    ensures AllAccepted(c, limits, obj)
  {
    hide Accepted, FullName, StoredText;
    forall p | Leaf(obj, p).Some? ensures Accepted(limits, FullName(p), StoredText(c, Leaf(obj, p).value)) {
      assert Made(limits, SetFor(c, obj, p));
    }
  }

  /** Every outcome of the export is the document if and only if it is one that comes back. */
  lemma ExactlyBack(c: Codec, limits: Limits, obj: Json, v: View, made: Texts, values: Texts, ok: bool)
    requires obj.Obj? && Sane(c) && Genuine(c, obj) && Ran(c, limits, obj, made, ok) && NoVars(v)
    requires TameView(Stored(v, made)) && HoldsTexts(Stored(v, made), values)
    ensures var root := Obj(Built(EntriesOf(c, values, |values|)));
            && (ok && Always(root, obj) <==> ComesBack(c, limits, obj))
            && (!VarsObject(obj.members) ==> (Always(root, obj) <==> ComesBack(c, limits, obj)))
  {
    hide Ran, Stored, TameView, HoldsTexts, EntriesOf, Built, Settled, Always, Sane, Genuine, NoNumbers;
    var root := Obj(Built(EntriesOf(c, values, |values|)));
    if Always(root, obj) { AlwaysSettled(root, obj); }
    if Settled(root) == obj && (ok || !VarsObject(obj.members)) {
      SetAndBack(c, limits, obj, v, made, values, ok);
    }
    if ComesBack(c, limits, obj) {
      BackIsSet(c, limits, obj, made, ok);
      BackExported(c, limits, obj, v, made, values);
      ArraysBack(obj);
    }
  }

  /** The export of a store before arrays are made of numbered objects: built from its variables' texts. */
  ghost predicate BuiltFrom(c: Codec, v: View, root: Json) {
    exists values :: HoldsTexts(v, values) && root == Obj(Built(EntriesOf(c, values, |values|)))
  }

  lemma SameEntries(c: Codec, v: View, values: Texts, others: Texts, e: (Path, Json))
    requires HoldsTexts(v, values) && HoldsTexts(v, others) && ValueOf(v, "") == ""
    requires e in EntriesOf(c, values, |values|)
    ensures e in EntriesOf(c, others, |others|)
  {
    hide Parsed, SplitOn, ValueOf, Listed, FullName;
    var es, fs := EntriesOf(c, values, |values|), EntriesOf(c, others, |others|);
    var i :| 0 <= i < |es| && es[i] == e;
    assert values[i] in values && (values[i].0, values[i].1) in others;
    var j :| 0 <= j < |others| && others[j] == values[i];
    assert fs[j] == e;
  }

  /** The export is determined by the store, in whatever order its variables are visited, when no text in it stands for
      an object. */
  lemma ExportDetermined(c: Codec, v: View, root: Json, other: Json)
    requires TameView(v) && ValueOf(v, "") == "" && forall n :: !Parsed(c, ValueOf(v, n)).Obj?
    requires BuiltFrom(c, v, root) && BuiltFrom(c, v, other)
    ensures root == other
  {
    hide TameView, HoldsTexts, EntriesOf, Built, Parsed, ValueOf, Visibles, AllNamed;
    var values :| HoldsTexts(v, values) && root == Obj(Built(EntriesOf(c, values, |values|)));
    var others :| HoldsTexts(v, others) && other == Obj(Built(EntriesOf(c, others, |others|)));
    var es, fs := EntriesOf(c, values, |values|), EntriesOf(c, others, |others|);
    EntriesDistinct(c, v, values);
    EntriesDistinct(c, v, others);
    forall e ensures e in es <==> e in fs {
      if e in es { SameEntries(c, v, values, others, e); }
      if e in fs { SameEntries(c, v, others, values, e); }
    }
    forall e | e in es ensures !e.1.Obj? && (e.0 == [VALUE] || e.0 == [""] || (e.0 != [] && Visibles(e.0))) {
      var n, t := EntryFrom(c, v, values, e);
    }
    VisibleNamed(es);
    OrderIndependent(es, fs);
  }

  /** A document is posted to a server without variables, and everything is exported: in every order in which maps are
      visited the document comes back, and setJson reports no error, if and only if it is one that comes back. */
  method SetThenExport(ctrl: TheController, c: Codec, obj: Json)
    returns (ok: bool, out: Json, ghost made: Texts, ghost root: Json)
    requires ctrl.Valid() && NoVars(ctrl.db.Contents()) && obj.Obj? && Sane(c) && Genuine(c, obj)
    modifies ctrl.db, ctrl.db.at.Values
    ensures Ran(c, ctrl.limits, obj, made, ok) && ctrl.db.Contents() == Stored(old(ctrl.db.Contents()), made)
    ensures BuiltFrom(c, ctrl.db.Contents(), root) && Normalized(root, out)
    ensures ok && Always(root, obj) <==> ComesBack(c, ctrl.limits, obj)
    ensures !VarsObject(obj.members) ==> (Always(root, obj) <==> ComesBack(c, ctrl.limits, obj))
    ensures ComesBack(c, ctrl.limits, obj) ==> ok && out == obj
  {
    hide Lists, Walked, Part, Stored, TameView, NoVars, TreeOk, ViewOf, Snap, HoldsTexts, EntriesOf, Built, Sane,
      Genuine, ComesBack, Ran, Normalized, Closed;
    ghost var v := ctrl.db.Contents();
    ghost var es;
    ok, es, made := SetJson(ctrl, c, "", obj, []);
    WalkedRan(c, ctrl.limits, obj, es, made, ok);
    var values := ctrl.GetAllVars();
    var built := BuildNested(c, values);
    root := built;
    out := NormalizeArrays(built);
    ExactlyBack(c, ctrl.limits, obj, v, made, values, ok);
  }

  // ----- Documents that do not come back, and some that do -----

  /** A document with one member whose name is not visible: a filtered character, a dot, a star, an internal name. */
  lemma LostName(c: Codec, limits: Limits, k: string, x: Json)
    requires !Visible(k)
    ensures !ComesBack(c, limits, Obj(map[k := x]))
  {
    var j := Obj(map[k := x]);
    assert k in j.members;
  }

  /** A numbered member becomes an array, an object "vars" loses its name, an empty text and an empty object are
      dropped, and a text that the decoder reads becomes what it reads. */
  lemma LostDocuments(c: Codec, limits: Limits, x: Json, t: string)
    requires t == "" || (c.decode(t).Some? && c.decode(t).value != Text(t))
    ensures !ComesBack(c, limits, Obj(map["0" := x])) && !ComesBack(c, limits, Obj(map["a b" := x]))
    ensures !ComesBack(c, limits, Obj(map[VARS := Obj(map["x" := x])]))
    ensures !ComesBack(c, limits, Obj(map["a" := Text(t)])) && !ComesBack(c, limits, Obj(map["a" := Obj(map[])]))
  {
    hide Numbered, AllAccepted;
    OneNumbered();
    assert (map["0" := x]).Keys == {"0"};
    assert ' ' in "a b" && !Visible("a b");
    LostName(c, limits, "a b", x);
    var a := Obj(map["a" := Text(t)]);
    SubOne(a, "a");
    assert Leaf(a, ["a"]) == Some(Text(t));
    assert "a" in Obj(map["a" := Obj(map[])]).members;
  }

  lemma OneNumbered()
    ensures Numbered({"0"})
  {
    assert "0"[..0] == "";
    assert Atoi("0") == Some(0) by { assert forall ch :: ch in "0" ==> ch == '0'; }
    assert Orders({"0"}, ["0"]) && Counts(["0"]);
  }

  /** What reads back: a text that is not empty and that the decoder does not take for something else, and what the
      decoder makes of its own encoding; not null. */
  lemma ReadableIs(c: Codec, x: Json)
    ensures Readable(c, x) <==>
              && x != Atom("null")
              && match x
                 case Text(t) => t != "" && (c.decode(t) == None || c.decode(t) == Some(x))
                 case _ => c.encode(x) != "" && c.decode(c.encode(x)) == Some(x)
  {
  }

  /** When a document with one value comes back. */
  lemma OneMember(c: Codec, limits: Limits, k: string, x: Json)
    requires !x.Obj?
    ensures ComesBack(c, limits, Obj(map[k := x])) <==>
              && Visible(k) && Atoi(k) != Some(0) && NoNumbers(x)
              && Accepted(limits, k, if x.Text? then x.text else c.encode(x)) && Readable(c, x)
  {
    hide Accepted, Visible, Readable, Numbered, Atoi;
    var j := Obj(map[k := x]);
    OneNumber(k);
    assert j.members.Keys == {k} && k in j.members;
    forall p | Leaf(j, p).Some? ensures p == [k] && Leaf(j, p) == Some(x) {
      assert p == [p[0]] + p[1..];
      MemberLeaf(j, k, p[1..]);
    }
    SubOne(j, k);
    assert FullName([k]) == k by { FullNameSnoc([], k); assert [] + [k] == [k] && "" + k == k; }
    assert Leaf(j, [k]) == Some(x);
    assert VisibleDoc(j) <==> Visible(k);
    assert NoNumbers(j) <==> Atoi(k) != Some(0) && NoNumbers(x);
    assert AllReadable(c, j) <==> Readable(c, x);
    assert AllAccepted(c, limits, j) <==> Accepted(limits, k, StoredText(c, x));
    assert VarsOk(j.members);
  }

  lemma OneNumber(k: string)
    ensures Numbered({k}) <==> Atoi(k) == Some(0)
  {
    hide Atoi;
    if Atoi(k) == Some(0) { assert Orders({k}, [k]) && Counts([k]); }
    forall order | Orders({k}, order) && Counts(order) ensures Atoi(k) == Some(0) {
      assert k in order;
      assert order[0] in order;
    }
  }

  /** The document with one value at the end of a path. */
  function Chain(p: Path, x: Json): Json {
    if p == [] then x else Obj(map[p[0] := Chain(p[1..], x)])
  }

  lemma {:induction false} ChainFacts(p: Path, x: Json, q: Path)
    requires !x.Obj? && Visibles(p) && forall s :: s in p ==> !Numbered({s})
    ensures Leaf(Chain(p, x), q) == if q == p then Some(x) else None
    ensures VisibleDoc(Chain(p, x)) && (NoNumbers(x) ==> NoNumbers(Chain(p, x))) && Chain(p, x) != Obj(map[])
    decreases |p|
  {
    hide Numbered, Visible;
    if p != [] {
      assert p[0] in p && forall s :: s in p[1..] ==> s in p;
      var rest := if q == [] then [] else q[1..];
      ChainFacts(p[1..], x, rest);
      assert p == [p[0]] + p[1..];
      if q != [] { assert q == [q[0]] + rest; }
      assert (map[p[0] := Chain(p[1..], x)]).Keys == {p[0]};
      assert p[0] in Obj(map[p[0] := Chain(p[1..], x)]).members;
    }
  }

  lemma VarsNotNumbered()
    ensures !Numbered({VARS})
  {
    assert !IsDigit(VARS[0]) && VARS[0] in VARS;
    forall order | Orders({VARS}, order) ensures order == [] || !Counts(order) {
      if order != [] { assert order[0] in order; }
    }
    forall order | Orders({VARS}, order) ensures order != [] { assert VARS in order; }
  }

  /** A text under the name "vars" comes back, and so does one under "vars.vars.vars"; one under "vars.vars" does not:
      it is exported as "vars". */
  lemma VarsBack(c: Codec, limits: Limits, t: string)
    requires t != "" && c.decode(t).None?
    requires Accepted(limits, FullName([VARS]), t) && Accepted(limits, FullName([VARS, VARS, VARS]), t)
    ensures ComesBack(c, limits, Chain([VARS], Text(t))) && !VarsObject(Chain([VARS], Text(t)).members)
    ensures !ComesBack(c, limits, Chain([VARS, VARS], Text(t)))
    ensures ComesBack(c, limits, Chain([VARS, VARS, VARS], Text(t)))
  {
    VarsVisible();
    VarsNotNumbered();
    ChainBack(c, limits, [VARS], t);
    ChainBack(c, limits, [VARS, VARS, VARS], t);
    ThreeVars(Text(t));
  }

  lemma ThreeVars(x: Json)
    requires !x.Obj?
    ensures Chain([VARS], x) == Obj(map[VARS := x]) && VarsOk(Chain([VARS], x).members)
    ensures !VarsObject(Chain([VARS], x).members) && VarsObject(Chain([VARS, VARS], x).members)
    ensures Chain([VARS, VARS], x) == Obj(map[VARS := Obj(map[VARS := x])]) && !VarsOk(Chain([VARS, VARS], x).members)
    ensures VarsOk(Chain([VARS, VARS, VARS], x).members)
  {
    assert [VARS][1..] == [] && [VARS, VARS][1..] == [VARS] && [VARS, VARS, VARS][1..] == [VARS, VARS];
    var w := Obj(map[VARS := x]);
    assert w.members.Keys == {VARS} && (map[VARS := w]).Keys == {VARS};
  }

  lemma ChainBack(c: Codec, limits: Limits, p: Path, t: string)
    requires p != [] && (forall s :: s in p ==> s == VARS) && t != "" && c.decode(t).None? && Visible(VARS)
    requires Accepted(limits, FullName(p), t) && !Numbered({VARS}) && VarsOk(Chain(p, Text(t)).members)
    ensures ComesBack(c, limits, Chain(p, Text(t)))
  {
    hide Accepted, FullName, Numbered, Visible;
    var j := Chain(p, Text(t));
    ChainFacts(p, Text(t), p);
    forall q | Leaf(j, q).Some? ensures q == p && Leaf(j, q).value == Text(t) { ChainFacts(p, Text(t), q); }
  }
}
