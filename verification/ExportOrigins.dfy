/** What the names and values of an export come from (sources/controller/controller.go:320-383,
    sources/services/apis/httpapi/httpapi.go:471-529). */
module ExportOrigins {
  import opened DotPaths
  import opened Options
  import opened Variables
  import opened NestedNames
  import opened NumberedObjects
  import opened JsonSets
  import opened VisibleDocs
  import opened ExportedDocs

  // ----- From the store to the export -----

  /** The set that a value of the document asks for. */
  ghost function SetFor(c: Codec, obj: Json, p: Path): (string, string)
    requires Leaf(obj, p).Some?
  {
    (FullName(p), StoredText(c, Leaf(obj, p).value))
  }

  /** All values of the document were set, and nothing else. */
  ghost predicate AllSet(c: Codec, limits: Limits, obj: Json, made: Texts) {
    && (forall p :: Leaf(obj, p).Some? ==>
          Visibles(p) && Leaf(obj, p).value != NULL && SetFor(c, obj, p) in made && Made(limits, SetFor(c, obj, p)))
    && (forall e :: e in made ==> exists p :: Leaf(obj, p).Some? && e == SetFor(c, obj, p))
  }

  /** A value comes back from the store: its text is not empty, and is read as that value. */
  predicate Readable(c: Codec, x: Json) {
    x != NULL && StoredText(c, x) != "" && Parsed(c, StoredText(c, x)) == x
  }

  ghost predicate AllReadable(c: Codec, obj: Json) {
    forall p {:trigger Leaf(obj, p)} :: Leaf(obj, p).Some? ==> Readable(c, Leaf(obj, p).value)
  }

  lemma NodesAre(c: Codec, limits: Limits, obj: Json, v: View, made: Texts, q: Path)
    requires AllSet(c, limits, obj, made) && NoVars(v) && q != [] && q[0] == VARS
    ensures q in Stored(v, made) <==> InTree(obj, q)
  {
    hide Stored, FullName, Made, VarPath;
    StoredNodes(v, made, q);
    if e :| e in made && q <= VarPath(e.0) {
      var p :| Leaf(obj, p).Some? && e == SetFor(c, obj, p);
      KeptIs(p);
    }
    if p :| Leaf(obj, p).Some? && q <= Kept(p) {
      KeptIs(p);
      assert SetFor(c, obj, p) in made;
    }
  }

  lemma ListedIs(c: Codec, limits: Limits, obj: Json, v: View, made: Texts, r: Path)
    requires AllSet(c, limits, obj, made) && NoVars(v) && Visibles(r)
    ensures Listed(Stored(v, made), "", r) <==> ListedHere(obj, r)
  {
    hide AllSet, Stored, FullName, VarPath, Ext, InTree;
    forall i | 0 <= i < |r|
      ensures VarPath(Ext("", r[..i])) + [r[i]] in Stored(v, made) <==> InTree(obj, Kept(r[..i]) + [r[i]])
      ensures Variables.Shown(r[i])
    {
      ExtFullName(r[..i]);
      assert Visibles(r[..i]) by { assert forall s :: s in r[..i] ==> s in r; }
      KeptIs(r[..i]);
      NodesAre(c, limits, obj, v, made, Kept(r[..i]) + [r[i]]);
      assert r[i] in r;
    }
  }

  /** The text kept for a name is that of a value kept at its place. */
  lemma ValueIs(c: Codec, limits: Limits, obj: Json, v: View, made: Texts, r: Path)
    requires AllSet(c, limits, obj, made) && AllReadable(c, obj) && NoVars(v) && Visibles(r)
    ensures var t := ValueOf(Stored(v, made), FullName(r));
            if Sourced(obj, r) then t != "" && Source(obj, r, Parsed(c, t)) else t == ""
  {
    hide Stored, FullName, Made, VarPath, Parsed, StoredText;
    var w, q := Stored(v, made), Kept(r);
    KeptIs(r);
    forall p | Leaf(obj, p).Some? ensures VarPath(FullName(p)) == Kept(p) { KeptIs(p); }
    NodesAre(c, limits, obj, v, made, q);
    if Sourced(obj, r) {
      var p :| Leaf(obj, p).Some? && Kept(p) == q;
      assert SetFor(c, obj, p) in made && VarPath(SetFor(c, obj, p).0) == q;
      assert InTree(obj, q);
    }
    if q in w {
      StoredValues(v, made, q);
      if e :| e in made && VarPath(e.0) == q && e.1 == w[q] {
        var p :| Leaf(obj, p).Some? && e == SetFor(c, obj, p);
        assert Source(obj, r, Leaf(obj, p).value) && Readable(c, Leaf(obj, p).value);
      }
    }
  }

  /** What the entries of the export are. */
  lemma EntryIs(c: Codec, limits: Limits, obj: Json, v: View, made: Texts, values: Texts, r: Path, x: Json)
    requires obj.Obj? && AllSet(c, limits, obj, made) && AllReadable(c, obj) && NoVars(v)
    requires TameView(Stored(v, made)) && HoldsTexts(Stored(v, made), values)
    ensures var t := ValueOf(Stored(v, made), FullName(r));
            (r, x) in EntriesOf(c, values, |values|) <==>
              r != [] && Visibles(r) && ListedHere(obj, r) && t != "" && x == Parsed(c, t)
  {
    hide AllSet, AllReadable, Stored, FullName, Parsed, ListedHere, TameView, Listed, ValueOf, SplitOn;
    var w, es := Stored(v, made), EntriesOf(c, values, |values|);
    RootNotKept(c, limits, obj, v, made);
    if (r, x) in es {
      var i :| 0 <= i < |es| && es[i] == (r, x);
      assert values[i] in values && values[i] == (values[i].0, values[i].1);
      var q :| q != [] && values[i].0 == FullName(q) && Listed(w, "", q);
      ListedVisible(w, q);
      NameOfPath(q);
      ListedIs(c, limits, obj, v, made, q);
    }
    if r != [] && Visibles(r) && ListedHere(obj, r) && ValueOf(w, FullName(r)) != "" {
      ListedIs(c, limits, obj, v, made, r);
      NameOfPath(r);
      var t := (FullName(r), ValueOf(w, FullName(r)));
      assert t in values;
      var i :| 0 <= i < |values| && values[i] == t;
      assert es[i] == EntryOf(c, t, |values|);
    }
  }

  lemma RootNotKept(c: Codec, limits: Limits, obj: Json, v: View, made: Texts)
    requires obj.Obj? && AllSet(c, limits, obj, made) && AllReadable(c, obj) && NoVars(v)
    ensures ValueOf(Stored(v, made), "") == ""
  {
    hide AllSet, AllReadable, Stored, ValueOf;
    assert FullName([]) == "";
    ValueIs(c, limits, obj, v, made, []);
  }

  lemma StoredExports(c: Codec, limits: Limits, obj: Json, v: View, made: Texts, values: Texts)
    requires obj.Obj? && AllSet(c, limits, obj, made) && AllReadable(c, obj) && NoVars(v)
    requires TameView(Stored(v, made)) && HoldsTexts(Stored(v, made), values)
    ensures Exports(obj, EntriesOf(c, values, |values|))
  {
    hide AllSet, Stored, FullName, Parsed, ListedHere, TameView, ValueOf, HoldsTexts, EntriesOf, Visibles, Kept;
    var w, es := Stored(v, made), EntriesOf(c, values, |values|);
    forall r, x ensures (r, x) in es <==>
      r != [] && Visibles(r) && ListedHere(obj, r) && ValueOf(w, FullName(r)) != "" && x
        == Parsed(c, ValueOf(w, FullName(r)))
    {
      EntryIs(c, limits, obj, v, made, values, r, x);
    }
    forall r | Visibles(r)
      ensures var t := ValueOf(w, FullName(r));
              if Sourced(obj, r) then t != "" && Source(obj, r, Parsed(c, t)) else t == ""
    {
      ValueIs(c, limits, obj, v, made, r);
    }
    forall r | r != [] && Visibles(r) && ListedHere(obj, r) && Sourced(obj, r) ensures exists x :: (r, x) in es {
      assert (r, Parsed(c, ValueOf(w, FullName(r)))) in es;
    }
    EntriesNamed(obj, es);
    RootNotKept(c, limits, obj, v, made);
    EntriesDistinct(c, w, values);
    forall r, x, r', x' | (r, x) in es && (r', x') in es && Kept(r) == Kept(r') ensures x == x' {
      KeptIs(r);
      KeptIs(r');
      SameValueOf(w, FullName(r), FullName(r'));
    }
  }

  lemma SameValueOf(v: View, m: string, n: string)
    requires VarPath(m) == VarPath(n)
    ensures ValueOf(v, m) == ValueOf(v, n)
  {
  }

  lemma EntriesNamed(obj: Json, es: Entries)
    requires forall r, x :: (r, x) in es ==> r != [] && Visibles(r) && Source(obj, r, x)
    ensures AllNamed(es)
  {
    forall e | e in es ensures Named(e.0) && !e.1.Obj? {
      assert e == (e.0, e.1);
      VisiblesGood(e.0);
    }
  }

  /** Different names give different entries. */
  lemma EntriesDistinct(c: Codec, v: View, values: Texts)
    requires HoldsTexts(v, values) && TameView(v) && ValueOf(v, "") == ""
    ensures Distinct(EntriesOf(c, values, |values|))
  {
    hide FullName, Parsed, TameView, Listed, ValueOf, SplitOn;
    var es := EntriesOf(c, values, |values|);
    forall i | 0 <= i < |es| ensures FullName(es[i].0) == values[i].0 {
      assert values[i] in values && values[i] == (values[i].0, values[i].1);
      var q :| q != [] && values[i].0 == FullName(q) && Listed(v, "", q);
      ListedVisible(v, q);
      NameOfPath(q);
    }
  }

  // ----- What the values of an export come from -----

  ghost predicate Holds(j: Json, x: Json) {
    exists p :: Leaf(j, p) == Some(x)
  }

  /** Texts inside what the decoder makes of a text are shorter than it, as JSON strings have quotes. */
  ghost predicate Sane(c: Codec) {
    forall s, t {:trigger c.decode(s), Text(t)} ::
      c.decode(s).Some? && Holds(c.decode(s).value, Text(t)) ==> |t| < |s|
  }

  /** So is, for one, the decoder that takes the quotes off; one that gives a text back whole is not. */
  lemma QuotesAreSane(encode: Json -> string, c: Codec, s: string)
    requires c.decode(s) == Some(Text(s))
    ensures !Sane(c)
    ensures Sane(Codec(encode,
                   s => if |s| >= 2 && s[0] == s[|s| - 1] == '"' then Some(Text(s[1..|s| - 1])) else None))
  {
    assert Leaf(Text(s), []) == Some(Text(s)) && Holds(Text(s), Text(s));
    var q := Codec(encode, s => if |s| >= 2 && s[0] == s[|s| - 1] == '"' then Some(Text(s[1..|s| - 1])) else None);
    forall s, t | q.decode(s).Some? && Holds(q.decode(s).value, Text(t)) ensures |t| < |s| {
      var p :| Leaf(q.decode(s).value, p) == Some(Text(t));
    }
  }

  /** The document's numbers, truth values and arrays are read back from their text, as those of a decoded document
      are. */
  ghost predicate Genuine(c: Codec, obj: Json) {
    forall p {:trigger Leaf(obj, p)} :: Leaf(obj, p).Some? ==>
      var x := Leaf(obj, p).value;
      x.Text? || x == NULL || (c.encode(x) != "" && c.decode(c.encode(x)) == Some(x))
  }

  /** Every entry is what a nonempty text of a value of the document is read as. */
  ghost predicate FromTexts(c: Codec, obj: Json, es: Entries) {
    forall e :: e in es ==> exists x :: TextOf(c, obj, x, e.1)
  }

  ghost predicate TextOf(c: Codec, obj: Json, x: Json, y: Json) {
    Holds(obj, x) && x != NULL && StoredText(c, x) != "" && y == Parsed(c, StoredText(c, x))
  }

  lemma MemberHolds(m: Members, k: string, x: Json)
    requires k in m && Holds(m[k], x)
    ensures Holds(Obj(m), x)
  {
    var p :| Leaf(m[k], p) == Some(x);
    MemberLeaf(Obj(m), k, p);
  }

  lemma HoldsMember(m: Members, x: Json)
    requires Holds(Obj(m), x)
    ensures exists k :: k in m && Holds(m[k], x)
  {
    var p :| Leaf(Obj(m), p) == Some(x);
    assert p == [p[0]] + p[1..];
    MemberLeaf(Obj(m), p[0], p[1..]);
    assert Holds(m[p[0]], x);
  }

  /** An insertion brings no values but those of what it inserts. */
  lemma {:induction false} InsertedHolds(m: Members, parts: Path, y: Json, x: Json)
    requires parts != [] && Holds(Obj(Inserted(m, parts, y)), x)
    ensures Holds(Obj(m), x) || Holds(y, x)
    decreases |parts|
  {
    hide Holds;
    var key, rest := parts[0], parts[1..];
    var r := Inserted(m, parts, y);
    HoldsMember(r, x);
    var k :| k in r && Holds(r[k], x);
    if rest == [] {
      if k == key && key in m && m[key].Obj? {
        HoldsMember(r[k].members, x);
        var l :| l in r[k].members && Holds(r[k].members[l], x);
        if l in m[key].members && !Holds(y, x) {
          MemberHolds(m[key].members, l, x);
          MemberHolds(m, key, x);
        }
      } else if !Holds(y, x) {
        MemberHolds(m, k, x);
      }
    } else if key == "" {
      InsertedHolds(m, rest, y, x);
    } else if k != key {
      MemberHolds(m, k, x);
    } else {
      InsertedHolds(Below(m, key), rest, y, x);
      if !Holds(y, x) { BelowHolds(m, key, x); }
    }
  }

  lemma BelowHolds(m: Members, key: string, x: Json)
    requires Holds(Obj(Below(m, key)), x)
    ensures Holds(Obj(m), x)
  {
    hide Holds;
    HoldsMember(Below(m, key), x);
    var l :| l in Below(m, key) && Holds(Below(m, key)[l], x);
    if m[key].Obj? { MemberHolds(m[key].members, l, x); }
    MemberHolds(m, key, x);
  }

  lemma {:induction false} BuiltHolds(es: Entries, x: Json)
    requires (forall e :: e in es ==> e.0 != []) && Holds(Obj(Built(es)), x)
    ensures exists e :: e in es && Holds(e.1, x)
    decreases |es|
  {
    hide Holds, Inserted;
    if es == [] {
      NothingHeld(x);
    } else {
      var rest, last := es[..|es| - 1], es[|es| - 1];
      assert last in es;
      InsertedHolds(Built(rest), last.0, last.1, x);
      if Holds(Obj(Built(rest)), x) {
        BuiltHolds(rest, x);
        var e :| e in rest && Holds(e.1, x);
        assert e in es;
      }
    }
  }

  lemma NothingHeld(x: Json)
    ensures !Holds(Obj(map[]), x)
  {
  }

  // ----- No text of a document that comes back can be decoded -----

  /** A text that is empty or decoded as something can only have come from a longer text of that kind. */
  ghost predicate Suspect(c: Codec, t: string) {
    t == "" || c.decode(t).Some?
  }

  lemma ValueHolds(x: Json, y: Json)
    requires !x.Obj? && Holds(x, y)
    ensures x == y
  {
  }

  lemma Longer(c: Codec, obj: Json, es: Entries, t: string) returns (t': string)
    requires Sane(c) && Genuine(c, obj) && FromTexts(c, obj, es) && (forall e :: e in es ==> e.0 != [])
    requires Settled(Obj(Built(es))) == obj && Holds(obj, Text(t)) && Suspect(c, t)
    ensures Holds(obj, Text(t')) && Suspect(c, t') && |t| < |t'|
  {
    hide Settled, Built;
    var p :| Leaf(obj, p) == Some(Text(t));
    var root := Obj(Built(es));
    SettledSub(root, p);
    SettledText(Sub(root, p).value);
    assert Leaf(root, p) == Some(Text(t));
    BuiltHolds(es, Text(t));
    var e :| e in es && Holds(e.1, Text(t));
    var x :| TextOf(c, obj, x, e.1);
    ReadAsIs(c, obj, x);
    if !x.Text? {
      ValueHolds(x, Text(t));
    }
    t' := x.text;
    if c.decode(t').None? {
      ValueHolds(Text(t'), Text(t));
    }
  }

  lemma SettledText(j: Json)
    ensures Settled(j).Text? || Settled(j).Atom? ==> j == Settled(j)
  {
    hide Settled;
    if j.Obj? { SettledObject(j.members); } else { SettledKind(j); }
  }

  /** What is not a text is read as it is. */
  lemma ReadAsIs(c: Codec, obj: Json, x: Json)
    requires Genuine(c, obj) && Holds(obj, x) && x != NULL
    ensures !x.Obj? && (!x.Text? ==> Readable(c, x))
  {
    var p :| Leaf(obj, p) == Some(x);
  }

  /** The texts of a document have a longest one. */
  lemma {:induction false} TextBound(j: Json) returns (n: nat)
    ensures forall t :: Holds(j, Text(t)) ==> |t| <= n
    decreases j, 1 + |if j.Obj? then j.members.Keys else {}|
  {
    hide Holds;
    n := 0;
    if j.Obj? {
      n := MembersBound(j, j.members.Keys);
      forall t | Holds(j, Text(t)) ensures |t| <= n { HoldsMember(j.members, Text(t)); }
    } else {
      n := if j.Text? then |j.text| else 0;
      forall t | Holds(j, Text(t)) ensures |t| <= n { ValueHolds(j, Text(t)); }
    }
  }

  lemma {:induction false} MembersBound(j: Json, ks: set<string>) returns (n: nat)
    requires j.Obj? && ks <= j.members.Keys
    ensures forall k, t :: k in ks && Holds(j.members[k], Text(t)) ==> |t| <= n
    decreases j, |ks|
  {
    n := 0;
    if ks != {} {
      var k :| k in ks;
      var a := TextBound(j.members[k]);
      var b := MembersBound(j, ks - {k});
      n := if a < b then b else a;
    }
  }

  lemma {:induction false} NoneSuspect(c: Codec, obj: Json, es: Entries, t: string, n: nat)
    requires Sane(c) && Genuine(c, obj) && FromTexts(c, obj, es) && (forall e :: e in es ==> e.0 != [])
    requires Settled(Obj(Built(es))) == obj && Holds(obj, Text(t))
    requires forall t' :: Holds(obj, Text(t')) ==> |t'| <= n
    ensures !Suspect(c, t)
    decreases n - |t|
  {
    hide Settled, Built, Holds, Sane, Genuine, FromTexts, Suspect;
    if Suspect(c, t) {
      var t' := Longer(c, obj, es, t);
      NoneSuspect(c, obj, es, t', n);
    }
  }

  /** So the values of the export are values of the document, and read back. */
  lemma EntriesAreValues(c: Codec, obj: Json, es: Entries)
    requires Sane(c) && Genuine(c, obj) && FromTexts(c, obj, es) && (forall e :: e in es ==> e.0 != [])
    requires Settled(Obj(Built(es))) == obj
    ensures forall x :: Holds(obj, x) && x != NULL ==> Readable(c, x)
    ensures forall e :: e in es ==> Holds(obj, e.1) && e.1 != NULL && !e.1.Obj?
  {
    hide Settled, Built, Holds, Sane, Genuine;
    var n := TextBound(obj);
    forall x | Holds(obj, x) && x != NULL ensures Readable(c, x) && !x.Obj? {
      ReadAsIs(c, obj, x);
      if x.Text? { NoneSuspect(c, obj, es, x.text, n); }
    }
    forall e | e in es ensures Holds(obj, e.1) && e.1 != NULL && !e.1.Obj? {
      var x :| TextOf(c, obj, x, e.1);
    }
  }
}
