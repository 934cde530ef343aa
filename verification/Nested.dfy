/** Nested objects built from dotted names, and their flattening (sources/services/apis/httpapi/httpapi.go:247-261,
    310-335, 484-529). */
module NestedNames {
  import opened DotPaths
  import opened Options

  /** A decoded JSON document. An atom is a number, a truth value or null, by its JSON text. */
  datatype Json = Text(text: string) | Atom(code: string) | Arr(items: seq<Json>) | Obj(members: map<string, Json>)

  type Members = map<string, Json>

  /** The member that holds the value of a name that has further names below it. */
  const VALUE := "_value"

  /** The object in which insertNested goes on: a new one, the one that is there, or one made of the value there. */
  function Below(m: Members, key: string): Members {
    if key !in m then map[] else if m[key].Obj? then m[key].members else map[VALUE := m[key]]
  }

  /** insertNested. */
  function Inserted(m: Members, parts: Path, v: Json): Members
    requires parts != []
    decreases |parts|
  {
    var key, rest := parts[0], parts[1..];
    if rest == [] then
      if key == "" then m
      else if key in m && m[key].Obj? then m[key := Obj(m[key].members[VALUE := v])]
      else m[key := v]
    else if key == "" then Inserted(m, rest, v)
    else
      m[key := Obj(Inserted(Below(m, key), rest, v))]
  }

  /** The value that a document gives to a name. */
  function At(j: Json, p: Path): Option<Json>
    decreases |p|
  {
    if p != [] then
      if j.Obj? && p[0] in j.members then At(j.members[p[0]], p[1..]) else None
    else if !j.Obj? then Some(j)
    else if VALUE in j.members && !j.members[VALUE].Obj? then Some(j.members[VALUE])
    else None
  }

  /** Where a name with a value gets further names below it, its value moves to the member "_value"; a value for a name
      that has some goes there at once. */
  lemma OwnValueMember(k: string, l: string, x: Json, y: Json)
    requires k != "" && l != "" && !x.Obj?
    ensures Inserted(Inserted(map[], [k], x), [k, l], y) == map[k := Obj(map["_value" := x][l := y])]
    ensures l != "_value" ==> Inserted(Inserted(map[], [k, l], y), [k], x) == map[k := Obj(map[l := y]["_value" := x])]
  {
    assert [k, l][1..] == [l] && [k][1..] == [];
  }

  /** Empty segments on the way are passed over; an empty one at the end stores nothing. */
  lemma EmptySegments(m: Members, k: string, rest: Path, x: Json)
    ensures rest != [] ==> Inserted(m, [""] + rest, x) == Inserted(m, rest, x)
    ensures Inserted(m, [""], x) == m && (k != "" ==> Inserted(m, [k, ""], x) == m[k := Obj(Below(m, k))])
  {
    assert ([""] + rest)[1..] == rest && [k, ""][1..] == [""];
  }

  /** Segments that are neither empty nor "_value". */
  predicate Good(p: Path) {
    forall s :: s in p ==> s != "" && s != VALUE
  }

  /** Only "_value" members may hold an object's own value, and no object below the root is without further names. */
  ghost predicate Normal(j: Json)
    decreases j, 1
  {
    j.Obj? ==> (exists k :: k in j.members && k != VALUE) && NormalRoot(j)
  }

  ghost predicate NormalRoot(j: Json)
    requires j.Obj?
    decreases j, 0
  {
    forall k :: k in j.members ==> k != "" && (k == VALUE ==> !j.members[k].Obj?) && Normal(j.members[k])
  }

  /** An insertion sets the value of its name and of no other name. */
  lemma {:induction false} InsertedAt(m: Members, p: Path, v: Json, q: Path)
    requires NormalRoot(Obj(m)) && Good(p) && Good(q) && p != [] && !v.Obj?
    ensures var r := Inserted(m, p, v);
            NormalRoot(Obj(r)) && p[0] in r && At(Obj(r), q) == if q == p then Some(v) else At(Obj(m), q)
    decreases |p|
  {
    var key, rest := p[0], p[1..];
    assert key in p && p == [key] + rest;
    if rest == [] {
      LastInserted(m, key, v, q);
    } else {
      var sub := Below(m, key);
      BelowNormal(m, key);
      assert Good(rest) by { GoodRest(p); }
      assert rest[0] in rest;
      var below := if q != [] && q[0] == key then q[1..] else [];
      if q != [] { GoodRest(q); }
      InsertedAt(sub, rest, v, below);
      var r := Obj(Inserted(sub, rest, v));
      assert rest[0] in r.members && rest[0] != VALUE && Normal(r);
      MemberSet(m, key, r, q);
      if q != [] && q[0] == key {
        assert q == [key] + below;
        BelowAt(m, key, below);
      }
    }
  }

  lemma GoodRest(p: Path)
    requires Good(p) && p != []
    ensures Good(p[1..])
  {
    assert forall s :: s in p[1..] ==> s in p;
  }

  lemma LastInserted(m: Members, key: string, v: Json, q: Path)
    requires NormalRoot(Obj(m)) && key != "" && key != VALUE && Good(q) && !v.Obj?
    ensures var r := Inserted(m, [key], v);
            NormalRoot(Obj(r)) && At(Obj(r), q) == if q == [key] then Some(v) else At(Obj(m), q)
  {
    var x := if key in m && m[key].Obj? then Obj(m[key].members[VALUE := v]) else v;
    assert Inserted(m, [key], v) == m[key := x];
    if key in m && m[key].Obj? {
      assert Normal(m[key]);
      var k :| k in m[key].members && k != VALUE;
      assert k in x.members;
    }
    MemberSet(m, key, x, q);
    if q != [] && q[0] == key {
      var below := q[1..];
      assert q == [key] + below;
      if below != [] { assert below[0] in q; }
    }
  }

  lemma BelowNormal(m: Members, key: string)
    requires NormalRoot(Obj(m))
    ensures NormalRoot(Obj(Below(m, key)))
  {
    if key in m { assert Normal(m[key]); }
  }

  /** A value that becomes an object's own is kept. */
  lemma BelowAt(m: Members, key: string, q: Path)
    requires Good(q)
    ensures At(Obj(Below(m, key)), q) == if key in m then At(m[key], q) else None
  {
    if q != [] { assert q[0] in q; }
  }

  lemma MemberSet(m: Members, key: string, x: Json, q: Path)
    requires NormalRoot(Obj(m)) && key != "" && key != VALUE && Normal(x)
    ensures NormalRoot(Obj(m[key := x]))
    ensures At(Obj(m[key := x]), q) == if q != [] && q[0] == key then At(x, q[1..]) else At(Obj(m), q)
  {
    var r := m[key := x];
    forall k | k in r ensures k != "" && (k == VALUE ==> !r[k].Obj?) && Normal(r[k]) {
      if k != key { assert k in Obj(m).members && Normal(m[k]); }
    }
  }

  // ----- A document is determined by the values it gives to names -----

  ghost predicate SameAt(a: Json, b: Json) {
    forall q :: Good(q) ==> At(a, q) == At(b, q)
  }

  /** Below every member there is a name with a value. */
  lemma {:induction false} Inhabited(j: Json) returns (p: Path)
    requires Normal(j)
    ensures Good(p) && At(j, p).Some?
    decreases j
  {
    p := [];
    if j.Obj? {
      var k :| k in j.members && k != VALUE;
      var rest := Inhabited(j.members[k]);
      p := [k] + rest;
    }
  }

  lemma MemberThere(a: Json, b: Json, k: string)
    requires a.Obj? && NormalRoot(a) && SameAt(a, b) && k in a.members
    ensures k == VALUE || (b.Obj? && k in b.members)
  {
    if k != VALUE {
      var p := Inhabited(a.members[k]);
      assert Good([k] + p) && ([k] + p)[1..] == p;
      assert At(a, [k] + p) == At(a.members[k], p);
    }
  }

  lemma SameBelow(a: Json, b: Json, k: string)
    requires a.Obj? && b.Obj? && SameAt(a, b) && k in a.members && k in b.members && k != VALUE && k != ""
    ensures SameAt(a.members[k], b.members[k])
  {
    forall q | Good(q) ensures At(a.members[k], q) == At(b.members[k], q) {
      assert Good([k] + q) && ([k] + q)[1..] == q;
      assert At(a, [k] + q) == At(a.members[k], q) && At(b, [k] + q) == At(b.members[k], q);
    }
  }

  lemma {:induction false} SameRoot(a: Json, b: Json)
    requires a.Obj? && b.Obj? && NormalRoot(a) && NormalRoot(b) && SameAt(a, b)
    ensures a == b
    decreases a, 0
  {
    hide SameAt;
    forall k ensures k in a.members <==> k in b.members {
      SameValue(a, b);
      if k in a.members { MemberThere(a, b, k); }
      if k in b.members { SameAtBack(a, b); MemberThere(b, a, k); }
    }
    forall k | k in a.members ensures a.members[k] == b.members[k] {
      SameValue(a, b);
      if k != VALUE {
        SameBelow(a, b, k);
        SameJson(a.members[k], b.members[k]);
      }
    }
    assert a.members == b.members;
  }

  lemma SameAtBack(a: Json, b: Json)
    requires SameAt(a, b)
    ensures SameAt(b, a)
  {
  }

  lemma SameValue(a: Json, b: Json)
    requires a.Obj? && b.Obj? && NormalRoot(a) && NormalRoot(b) && SameAt(a, b)
    ensures VALUE in a.members <==> VALUE in b.members
    ensures VALUE in a.members ==> a.members[VALUE] == b.members[VALUE]
  {
    assert At(a, []) == At(b, []);
  }

  /** Two documents in normal form that give the same values to all names are the same document. */
  lemma {:induction false} SameJson(a: Json, b: Json)
    requires Normal(a) && Normal(b) && SameAt(a, b)
    ensures a == b
    decreases a, 1
  {
    if a.Obj? {
      var k :| k in a.members && k != VALUE;
      MemberThere(a, b, k);
      SameRoot(a, b);
    } else if b.Obj? {
      var k :| k in b.members && k != VALUE;
      MemberThere(b, a, k);
    } else {
      assert At(a, []) == At(b, []);
    }
  }

  // ----- Building from a list of names -----

  type Entries = seq<(Path, Json)>

  /** A name for the root's own value, the empty name, or segments that are neither empty nor "_value". */
  predicate Named(parts: Path) {
    parts == [VALUE] || parts == [""] || (parts != [] && Good(parts))
  }

  function Meaning(parts: Path): Path {
    if parts == [VALUE] then [] else parts
  }

  /** The objects that insertNested makes of the entries, one after another. */
  function Built(es: Entries): Members
    requires forall e :: e in es ==> e.0 != []
    decreases |es|
  {
    if es == [] then map[] else
    var last := es[|es| - 1];
    assert last in es;
    Inserted(Built(es[..|es| - 1]), last.0, last.1)
  }

  function LastFor(es: Entries, q: Path): Option<Json>
    decreases |es|
  {
    if es == [] then None
    else if Meaning(es[|es| - 1].0) == q then Some(es[|es| - 1].1)
    else LastFor(es[..|es| - 1], q)
  }

  ghost predicate AllNamed(es: Entries) {
    forall e :: e in es ==> Named(e.0) && !e.1.Obj?
  }

  ghost predicate Distinct(es: Entries) {
    forall i, j :: 0 <= i < j < |es| ==> es[i].0 != es[j].0
  }

  lemma InsertedMeans(m: Members, parts: Path, v: Json, q: Path)
    requires NormalRoot(Obj(m)) && Named(parts) && Good(q) && !v.Obj?
    ensures var r := Inserted(m, parts, v);
            NormalRoot(Obj(r)) && At(Obj(r), q) == if q == Meaning(parts) then Some(v) else At(Obj(m), q)
  {
    if parts == [VALUE] {
      assert !(VALUE in m && m[VALUE].Obj?);
      assert Inserted(m, parts, v) == m[VALUE := v];
      if q != [] { assert q[0] in q; }
    } else if parts == [""] {
      assert "" in parts;
    } else {
      InsertedAt(m, parts, v, q);
    }
  }

  /** In a document built from names, each name has the value that was inserted last for it, and no other name has
      one. */
  lemma {:induction false} BuiltAt(es: Entries, q: Path)
    requires AllNamed(es) && Good(q)
    ensures NormalRoot(Obj(Built(es))) && At(Obj(Built(es)), q) == LastFor(es, q)
    decreases |es|
  {
    if es != [] {
      var rest, last := es[..|es| - 1], es[|es| - 1];
      assert last in es;
      BuiltAt(rest, q);
      InsertedMeans(Built(rest), last.0, last.1, q);
    }
  }

  /** With distinct names the last value for a name is the only one. */
  lemma {:induction false} LastIsOnly(es: Entries, q: Path, v: Json)
    requires AllNamed(es) && Distinct(es)
    ensures LastFor(es, q) == Some(v) <==> exists e :: e in es && Meaning(e.0) == q && e.1 == v
    decreases |es|
  {
    if es != [] {
      var rest, last := es[..|es| - 1], es[|es| - 1];
      LastIsOnly(rest, q, v);
      assert es == rest + [last];
      forall e | e in rest ensures Meaning(e.0) != Meaning(last.0) {
        var i :| 0 <= i < |rest| && rest[i] == e;
        assert es[i].0 != last.0 && e in es && last in es && Named(e.0) && Named(last.0);
        assert VALUE in [VALUE];
      }
      if LastFor(es, q) == Some(v) {
        if Meaning(last.0) == q {
          assert last in es;
        } else {
          var e :| e in rest && Meaning(e.0) == q && e.1 == v;
          assert e in es;
        }
      }
    }
  }

  /** Inserting values under distinct names gives the same document in every order. */
  lemma OrderIndependent(es: Entries, fs: Entries)
    requires AllNamed(es) && Distinct(es) && Distinct(fs) && forall e :: e in es <==> e in fs
    ensures Built(es) == Built(fs)
  {
    forall q | Good(q) ensures At(Obj(Built(es)), q) == At(Obj(Built(fs)), q) {
      BuiltAt(es, q);
      BuiltAt(fs, q);
      SameLast(es, fs, q);
    }
    BuiltAt(es, []);
    BuiltAt(fs, []);
    SameRoot(Obj(Built(es)), Obj(Built(fs)));
  }

  lemma SameLast(es: Entries, fs: Entries, q: Path)
    requires AllNamed(es) && AllNamed(fs) && Distinct(es) && Distinct(fs) && forall e :: e in es <==> e in fs
    ensures LastFor(es, q) == LastFor(fs, q)
  {
    forall v ensures LastFor(es, q) == Some(v) <==> LastFor(fs, q) == Some(v) {
      LastIsOnly(es, q, v);
      LastIsOnly(fs, q, v);
    }
    if LastFor(es, q).Some? { assert LastFor(fs, q) == Some(LastFor(es, q).value); }
    if LastFor(fs, q).Some? { assert LastFor(es, q) == Some(LastFor(fs, q).value); }
  }

  // ----- Flattening -----

  /** What a path of members leads to. */
  function Sub(j: Json, p: Path): Option<Json>
    decreases |p|
  {
    if p == [] then Some(j)
    else if j.Obj? && p[0] in j.members then Sub(j.members[p[0]], p[1..])
    else None
  }

  /** The value at the end of a path of members. */
  function Leaf(j: Json, p: Path): Option<Json> {
    var x := Sub(j, p);
    if x.Some? && x.value.Obj? then None else x
  }

  /** The entries are the paths in the document that end in values, each once. */
  ghost predicate Lists(j: Json, es: Entries) {
    Distinct(es) && forall p, v :: (p, v) in es <==> Leaf(j, p) == Some(v)
  }

  ghost predicate ListsSome(j: Json, ks: set<string>, es: Entries) {
    Distinct(es) && forall p, v :: (p, v) in es <==> p != [] && p[0] in ks && Leaf(j, p) == Some(v)
  }

  /** The entries of a member, with the member's name in front. */
  ghost function Under(k: string, es: Entries): (r: Entries)
    ensures |r| == |es| && forall i :: 0 <= i < |es| ==> r[i] == ([k] + es[i].0, es[i].1)
  {
    seq(|es|, i requires 0 <= i < |es| => ([k] + es[i].0, es[i].1))
  }

  lemma UnderIn(k: string, es: Entries, p: Path, v: Json)
    ensures (p, v) in Under(k, es) <==> p != [] && p[0] == k && (p[1..], v) in es
  {
    if (p, v) in Under(k, es) {
      var i :| 0 <= i < |es| && Under(k, es)[i] == (p, v);
      assert p[1..] == es[i].0 && es[i] == (p[1..], v);
    }
    if p != [] && p[0] == k && (p[1..], v) in es {
      var i :| 0 <= i < |es| && es[i] == (p[1..], v);
      assert p == [k] + p[1..] && Under(k, es)[i] == (p, v);
    }
  }

  lemma ListsMore(j: Json, ks: set<string>, k: string, es: Entries, mine: Entries)
    requires j.Obj? && k in j.members && k !in ks && ListsSome(j, ks, es) && Lists(j.members[k], mine)
    ensures ListsSome(j, ks + {k}, es + Under(k, mine))
  {
    var all := es + Under(k, mine);
    forall p, v ensures (p, v) in all <==> p != [] && p[0] in ks + {k} && Leaf(j, p) == Some(v) {
      UnderIn(k, mine, p, v);
      assert (p, v) in all <==> (p, v) in es || (p, v) in Under(k, mine);
    }
    forall a, b | 0 <= a < b < |all| ensures all[a].0 != all[b].0 {
      if a < |es| <= b {
        assert (es[a].0, es[a].1) in es && all[b].0[0] == k;
      } else if |es| <= a {
        assert mine[a - |es|].0 != mine[b - |es|].0;
        assert all[a].0[1..] == mine[a - |es|].0 && all[b].0[1..] == mine[b - |es|].0;
      }
    }
  }

  lemma ListsAll(j: Json, es: Entries)
    requires j.Obj? && ListsSome(j, j.members.Keys, es)
    ensures Lists(j, es)
  {
  }

  lemma ListsNone(j: Json)
    ensures ListsSome(j, {}, [])
  {
  }

  lemma ValueLists(value: Json)
    requires !value.Obj?
    ensures Lists(value, [([], value)])
  {
  }

  // ----- Documents that can be built again from their flattening -----

  /** Every member's name is a single segment other than "_value", and no object below the root is empty. */
  ghost predicate Plain(j: Json) {
    j.Obj? ==> forall k :: k in j.members ==>
                 IsSegment(k) && k != VALUE && Plain(j.members[k]) && j.members[k] != Obj(map[])
  }

  lemma {:induction false} PlainNormal(j: Json)
    requires Plain(j)
    ensures j.Obj? ==> NormalRoot(j)
    ensures j != Obj(map[]) ==> Normal(j)
    decreases j
  {
    if j.Obj? {
      forall k | k in j.members ensures Normal(j.members[k]) { PlainNormal(j.members[k]); }
      if j.members != map[] {
        var k :| k in j.members;
      }
    }
  }

  lemma {:induction false} PlainNames(j: Json, p: Path)
    requires Plain(j) && Leaf(j, p).Some?
    ensures Good(p) && (j.Obj? ==> p != []) && forall s :: s in p ==> IsSegment(s)
    decreases |p|
  {
    if p != [] {
      PlainNames(j.members[p[0]], p[1..]);
      assert forall s :: s in p ==> s == p[0] || s in p[1..];
    }
  }

  lemma {:induction false} PlainLeaf(j: Json, p: Path)
    requires Plain(j)
    ensures Leaf(j, p) == At(j, p)
    decreases |p|
  {
    if p != [] && j.Obj? && p[0] in j.members { PlainLeaf(j.members[p[0]], p[1..]); }
  }

  /** The entries lead to the values of a document if each is found there: then they are its flattening. */
  lemma ListedNames(j: Json, es: Entries)
    requires j.Obj? && Plain(j) && forall p, v :: (p, v) in es ==> Leaf(j, p).Some? && !v.Obj?
    ensures AllNamed(es) && forall e :: e in es ==> Meaning(e.0) == e.0
  {
    forall e | e in es ensures Named(e.0) && Meaning(e.0) == e.0 {
      assert e == (e.0, e.1);
      PlainNames(j, e.0);
      assert VALUE !in e.0 && VALUE in [VALUE];
    }
  }

  /** With distinct names, what the built document gives to a name is what the entries give to it. */
  lemma BuiltGives(es: Entries, q: Path, v: Json)
    requires AllNamed(es) && Distinct(es) && Good(q) && forall e :: e in es ==> Meaning(e.0) == e.0
    ensures At(Obj(Built(es)), q) == Some(v) <==> (q, v) in es
  {
    BuiltAt(es, q);
    LastIsOnly(es, q, v);
    if (q, v) in es { assert Meaning((q, v).0) == q; }
    if LastFor(es, q) == Some(v) {
      var e :| e in es && Meaning(e.0) == q && e.1 == v;
      assert e == (q, v);
    }
  }

  /** A document that is flattened and built again is the same document, whatever the order of the names. */
  lemma FlattenedRebuilt(j: Json, es: Entries)
    requires j.Obj? && Plain(j) && Lists(j, es)
    ensures AllNamed(es) && Obj(Built(es)) == j
  {
    ListedNames(j, es);
    PlainNormal(j);
    forall q | Good(q) ensures At(Obj(Built(es)), q) == At(j, q) {
      PlainLeaf(j, q);
      forall v ensures At(Obj(Built(es)), q) == Some(v) <==> At(j, q) == Some(v) { BuiltGives(es, q, v); }
      SameOption(At(Obj(Built(es)), q), At(j, q));
    }
    BuiltAt(es, []);
    SameRoot(Obj(Built(es)), j);
  }

  lemma SameOption(a: Option<Json>, b: Option<Json>)
    requires forall v :: a == Some(v) <==> b == Some(v)
    ensures a == b
  {
    if a.Some? { assert b == Some(a.value); }
    if b.Some? { assert a == Some(b.value); }
  }
}
