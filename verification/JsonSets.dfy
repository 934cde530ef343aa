/** Setting a JSON document member by member, and building a document from all variables
    (sources/services/apis/httpapi/httpapi.go:206-261, 310-335, 471-482). */
module JsonSets {
  import opened DotPaths
  import opened Options
  import opened RamTrees
  import opened Variables
  import opened NestedNames

  /** Go's JSON encoder and decoder. */
  datatype Codec = Codec(encode: Json -> string, decode: string -> Option<Json>)

  const NULL := Atom("null")

  /** NewDynamicVar: the text under which a value is stored. */
  function StoredText(c: Codec, x: Json): string {
    if x.Text? then x.text else c.encode(x)
  }

  /** parseDynamicVar: what the decoder makes of a text, or else the text itself. */
  function Parsed(c: Codec, s: string): Json {
    if s == "" then Text("") else
    match c.decode(s)
    case Some(x) => x
    case None => Text(s)
  }

  /** The empty text stands for itself, whatever the decoder makes of it. */
  lemma EmptyText(c: Codec)
    ensures Parsed(c, "") == Text("")
  {
  }

  // ----- Setting a document -----

  /** What is known of the values that setJson came to, in order, and of the sets that were made for them. */
  ghost predicate Walked(c: Codec, limits: Limits, base: Path, es: Entries, made: Texts, ok: bool) {
    && (forall e :: e in made ==> exists i :: 0 <= i < |es| && MadeFor(c, limits, base, es[i], e))
    && (ok ==> forall i :: 0 <= i < |es| ==> IsMade(c, base, es[i], made))
    && ((forall i :: 0 <= i < |es| ==> MayMake(c, limits, base, es[i])) ==> ok)
  }

  ghost predicate MadeFor(c: Codec, limits: Limits, base: Path, x: (Path, Json), e: (string, string)) {
    && Made(limits, e) && x.1 != NULL && e.1 == StoredText(c, x.1)
    && (Simple(FullName(base + x.0)) ==> e.0 == Only(FullName(base + x.0)))
  }

  ghost predicate IsMade(c: Codec, base: Path, x: (Path, Json), made: Texts) {
    && x.1 != NULL
    && (Simple(FullName(base + x.0)) ==> (Only(FullName(base + x.0)), StoredText(c, x.1)) in made)
  }

  ghost predicate MayMake(c: Codec, limits: Limits, base: Path, x: (Path, Json)) {
    && x.1 != NULL && Simple(FullName(base + x.0))
    && Accepted(limits, Only(FullName(base + x.0)), StoredText(c, x.1))
  }

  /** The entries are values of the document, each at most once. */
  ghost predicate Part(j: Json, es: Entries) {
    Distinct(es) && forall p, x :: (p, x) in es ==> Leaf(j, p) == Some(x)
  }

  lemma WalkedMore(c: Codec, limits: Limits, base: Path, k: string, es: Entries, made: Texts, mine: Entries,
      more: Texts, ok: bool)
    requires Walked(c, limits, base, es, made, true) && Walked(c, limits, base + [k], mine, more, ok)
    ensures Walked(c, limits, base, es + Under(k, mine), made + more, ok)
  {
    hide MadeFor, IsMade, MayMake;
    var all := es + Under(k, mine);
    forall i | 0 <= i < |mine| ensures base + all[|es| + i].0 == (base + [k]) + mine[i].0 {
    }
    forall e | e in made + more ensures exists i :: 0 <= i < |all| && MadeFor(c, limits, base, all[i], e) {
      if e in made {
        var i :| 0 <= i < |es| && MadeFor(c, limits, base, es[i], e);
        assert all[i] == es[i];
      } else {
        var i :| 0 <= i < |mine| && MadeFor(c, limits, base + [k], mine[i], e);
        SameSets(c, limits, base, k, mine[i], e, more);
        assert MadeFor(c, limits, base, all[|es| + i], e);
      }
    }
    forall i | ok && 0 <= i < |all| ensures IsMade(c, base, all[i], made + more) {
      if i < |es| {
        MadeStays(c, base, es[i], made, more);
      } else {
        SameSets(c, limits, base, k, mine[i - |es|], ("", ""), more);
        MadeStays(c, base, all[i], more, made);
      }
    }
    if forall i :: 0 <= i < |all| ==> MayMake(c, limits, base, all[i]) {
      forall i | 0 <= i < |mine| ensures MayMake(c, limits, base + [k], mine[i]) {
        SameSets(c, limits, base, k, mine[i], ("", ""), more);
        assert MayMake(c, limits, base, all[|es| + i]);
      }
    }
  }

  lemma SameSets(c: Codec, limits: Limits, base: Path, k: string, x: (Path, Json), e: (string, string), made: Texts)
    ensures var y := ([k] + x.0, x.1);
            && (MadeFor(c, limits, base, y, e) <==> MadeFor(c, limits, base + [k], x, e))
            && (IsMade(c, base, y, made) <==> IsMade(c, base + [k], x, made))
            && (MayMake(c, limits, base, y) <==> MayMake(c, limits, base + [k], x))
  {
    assert base + ([k] + x.0) == (base + [k]) + x.0;
  }

  lemma MadeStays(c: Codec, base: Path, x: (Path, Json), made: Texts, more: Texts)
    requires IsMade(c, base, x, made)
    ensures IsMade(c, base, x, made + more) && IsMade(c, base, x, more + made)
  {
  }

  lemma PartMore(j: Json, ks: set<string>, k: string, es: Entries, mine: Entries)
    requires j.Obj? && k in j.members && k !in ks && ListsSome(j, ks, es) && Part(j.members[k], mine)
    ensures Part(j, es + Under(k, mine))
  {
    var all := es + Under(k, mine);
    forall p, x | (p, x) in all ensures Leaf(j, p) == Some(x) {
      UnderIn(k, mine, p, x);
      assert (p, x) in es || (p, x) in Under(k, mine);
    }
    forall a, b | 0 <= a < b < |all| ensures all[a].0 != all[b].0 {
      if a < |es| <= b {
        assert (es[a].0, es[a].1) in es && all[b].0[0] == k;
      } else if |es| <= a {
        assert mine[a - |es|].0 != mine[b - |es|].0;
        assert all[a].0[1..] == mine[a - |es|].0 && all[b].0[1..] == mine[b - |es|].0;
      }
    }
  }

  /** setJson. Go visits the members of an object in no particular order; neither does this. The conversion of null
      to text panics, which ends the walk as an error does. */
  method SetJson(ctrl: TheController, c: Codec, parent: string, obj: Json, ghost base: Path)
    returns (ok: bool, ghost es: Entries, ghost made: Texts)
    requires ctrl.Valid() && obj.Obj? && parent == FullName(base)
    modifies ctrl.db, ctrl.db.at.Values
    ensures ctrl.Valid() && fresh(ctrl.db.at.Values - old(ctrl.db.at.Values))
    ensures ctrl.db.Contents() == Stored(old(ctrl.db.Contents()), made)
    ensures Part(obj, es) && (ok ==> Lists(obj, es)) && Walked(c, ctrl.limits, base, es, made, ok)
    decreases obj, 1
  {
    hide Lists, ListsSome, FullName, Walked, Part, Stored, TameView, Closed, TreeOk, ViewOf, Snap;
    ok, es, made := true, [], [];
    ghost var v := ctrl.db.Contents();
    var prefix := if parent != "" then parent + "." else "";
    var todo := obj.members.Keys;
    NothingYet(c, ctrl.limits, base, obj, v);
    assert obj.members.Keys - todo == {};
    while todo != {}
      invariant todo <= obj.members.Keys
      invariant ctrl.Valid() && fresh(ctrl.db.at.Values - old(ctrl.db.at.Values))
      invariant ctrl.db.Contents() == Stored(v, made)
      invariant ListsSome(obj, obj.members.Keys - todo, es) && Walked(c, ctrl.limits, base, es, made, true)
      decreases todo
    {
      var key :| key in todo;
      FullNameSnoc(base, key);
      ghost var mine, more;
      ok, mine, more := SetMember(ctrl, c, prefix + key, obj, key, base);
      StoredAppend(v, made, more);
      WalkedMore(c, ctrl.limits, base, key, es, made, mine, more, ok);
      PartMore(obj, obj.members.Keys - todo, key, es, mine);
      if ok { ListsMore(obj, obj.members.Keys - todo, key, es, mine); }
      es, made := es + Under(key, mine), made + more;
      if !ok {
        return;
      }
      assert obj.members.Keys - (todo - {key}) == obj.members.Keys - todo + {key};
      todo := todo - {key};
    }
    assert obj.members.Keys - todo == obj.members.Keys;
    ListsAll(obj, es);
    ListsPart(obj, es);
  }

  /** The body of setJson's loop: a member that is an object, or a value. */
  method SetMember(ctrl: TheController, c: Codec, name: string, obj: Json, key: string, ghost base: Path)
    returns (ok: bool, ghost es: Entries, ghost made: Texts)
    requires ctrl.Valid() && obj.Obj? && key in obj.members && name == FullName(base + [key])
    modifies ctrl.db, ctrl.db.at.Values
    ensures ctrl.Valid() && fresh(ctrl.db.at.Values - old(ctrl.db.at.Values))
    ensures ctrl.db.Contents() == Stored(old(ctrl.db.Contents()), made)
    ensures Part(obj.members[key], es) && (ok ==> Lists(obj.members[key], es))
    ensures Walked(c, ctrl.limits, base + [key], es, made, ok)
    decreases obj, 0
  {
    hide Lists, FullName, Part, TameView, Closed, TreeOk, ViewOf, Snap, Only, Accepted, Storable, Resolves, Walked,
      HasIncrement;
    var x := obj.members[key];
    if x.Obj? {
      ok, es, made := SetJson(ctrl, c, name, x, base + [key]);
      return;
    }
    ValueLists(x);
    ListsPart(x, [([], x)]);
    es, made := [([], x)], [];
    ok := x != NULL;
    if !ok {
      NullSet(c, ctrl.limits, base + [key]);
      return;
    }
    ghost var v, names := ctrl.db.Contents(), [];
    ok, names, made := ctrl.SetVar(name, StoredText(c, x));
    ResolvesItself(v, name);
    ValueSet(c, ctrl.limits, base + [key], x, v, names, made, ok);
  }

  lemma NullSet(c: Codec, limits: Limits, base: Path)
    ensures Walked(c, limits, base, [([], NULL)], [], false)
  {
    var es: Entries := [([], NULL)];
    assert !MayMake(c, limits, base, es[0]);
  }

  /** What SetVar answers for a value, as part of a walk. */
  lemma ValueSet(c: Codec, limits: Limits, base: Path, x: Json, v: View, names: seq<string>, made: Texts, ok: bool)
    requires x != NULL && (!HasIncrement(FullName(base)) ==> Resolves(v, FullName(base), names))
    requires |made| <= |names| && forall i :: 0 <= i < |made| ==> made[i] == (Only(names[i]), StoredText(c, x))
    requires forall e :: e in made ==> Made(limits, e)
    requires names != [] ==>
               if ok then |made| == |names| else
                 |made| < |names| && !Accepted(limits, Only(names[|made|]), StoredText(c, x))
    ensures Walked(c, limits, base, [([], x)], made, ok)
  {
    hide FullName, Only, Accepted, Storable, HasIncrement;
    var es: Entries := [([], x)];
    assert base + [] == base && es[0] == ([], x);
    forall e | e in made ensures MadeFor(c, limits, base, es[0], e) {
      var i :| 0 <= i < |made| && made[i] == e;
    }
    if Simple(FullName(base)) {
      assert names == [FullName(base)];
      if ok { assert made[0] in made; }
    }
  }

  lemma ListsPart(j: Json, es: Entries)
    requires Lists(j, es)
    ensures Part(j, es)
  {
  }

  lemma NothingYet(c: Codec, limits: Limits, base: Path, j: Json, v: View)
    ensures ListsSome(j, {}, []) && Walked(c, limits, base, [], [], true) && Stored(v, []) == v
  {
    ListsNone(j);
  }

  // ----- The export -----

  /** The name under which the export of everything inserts a variable. */
  function ShownName(fullName: string, count: nat): string {
    if fullName == "" && count != 1 then VALUE else fullName
  }

  function EntryOf(c: Codec, t: (string, string), count: nat): (Path, Json) {
    (SplitOn(ShownName(t.0, count), '.'), Parsed(c, t.1))
  }

  function EntriesOf(c: Codec, vals: Texts, count: nat): (es: Entries)
    ensures |es| == |vals| && forall i :: 0 <= i < |vals| ==> es[i] == EntryOf(c, vals[i], count)
    ensures forall e :: e in es ==> e.0 != []
  {
    seq(|vals|, i requires 0 <= i < |vals| => EntryOf(c, vals[i], count))
  }

  /** The value of the empty name is the root's own, unless it is the only one: then it is dropped. */
  lemma RootValue(c: Codec, t: string, k: string, u: string)
    requires IsSegment(k) && k != "_value"
    ensures Built(EntriesOf(c, [("", t), (k, u)], 2)) == map["_value" := Parsed(c, t)][k := Parsed(c, u)]
    ensures Built(EntriesOf(c, [("", t)], 1)) == map[]
  {
    hide Parsed, Inserted, Built, EntriesOf, SplitOn;
    SplitSegment("_value");
    SplitSegment(k);
    SplitSegment("");
    var both, one := [("", t), (k, u)], [("", t)];
    assert both[..1] == one && both[..0] == one[..0] == [] && both[..2] == both && one[..1] == one;
    NoEntries(c, 2);
    NoEntries(c, 1);
    BuiltSnoc(c, both, 0, 2);
    BuiltSnoc(c, both, 1, 2);
    BuiltSnoc(c, one, 0, 1);
    InsertedOne(map[], "_value", Parsed(c, t));
    InsertedOne(map["_value" := Parsed(c, t)], k, Parsed(c, u));
    EmptySegments(map[], "", [], Parsed(c, t));
  }

  lemma InsertedOne(m: Members, k: string, x: Json)
    requires k != "" && k !in m
    ensures Inserted(m, [k], x) == m[k := x]
  {
  }

  lemma SplitSegment(k: string)
    requires '.' !in k
    ensures SplitOn(k, '.') == [k]
  {
    FirstOfIs(k, [], '.');
    assert k + [] == k;
  }

  /** The loop of the JSON export of everything, over names and values. */
  method BuildNested(c: Codec, vals: Texts) returns (root: Json)
    ensures root == Obj(Built(EntriesOf(c, vals, |vals|)))
  {
    hide Inserted, EntryOf, EntriesOf;
    var m: Members := map[];
    NoEntries(c, |vals|);
    for i := 0 to |vals|
      invariant m == Built(EntriesOf(c, vals[..i], |vals|))
    {
      var (fullName, text) := vals[i];
      if fullName == "" && |vals| != 1 {
        fullName := VALUE;
      }
      BuiltSnoc(c, vals, i, |vals|);
      m := Inserted(m, SplitOn(fullName, '.'), Parsed(c, text));
    }
    assert vals[..|vals|] == vals;
    root := Obj(m);
  }

  lemma NoEntries(c: Codec, count: nat)
    ensures Built(EntriesOf(c, [], count)) == map[]
  {
  }

  lemma BuiltSnoc(c: Codec, vals: Texts, i: nat, count: nat)
    requires i < |vals|
    ensures Built(EntriesOf(c, vals[..i + 1], count))
         == Inserted(Built(EntriesOf(c, vals[..i], count)), SplitOn(ShownName(vals[i].0, count), '.'),
              Parsed(c, vals[i].1))
  {
    hide Inserted, Parsed, SplitOn;
    var es, es' := EntriesOf(c, vals[..i], count), EntriesOf(c, vals[..i + 1], count);
    assert es'[..i] == es && es'[i] == EntryOf(c, vals[i], count);
  }
}
