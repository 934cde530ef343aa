/** Variables by name: how the controller sets, lists and reads them (sources/controller/controller.go:121-383,
    sources/controller/controller_varhelper.go:70-81, 238-260, 295-299). */
module Variables {
  import opened DotPaths
  import opened RamTrees

  /** The node below which all variables lie. */
  const VARS := "vars"

  /** The characters that setVar leaves in a name. */
  predicate Allowed(c: char) {
    || 'a' <= c <= 'z' || 'A' <= c <= 'Z' || '0' <= c <= '9'
    || c == '.' || c == '_' || c == '/' || c == '\\' || c == ',' || c == '-' || c == '*'
  }

  /** They are those of the string that setVar passes to GetOnly, here in four parts. */
  lemma AllowedAre(c: char)
    ensures Allowed(c) <==>
              || c in "abcdefghijklmnopqrstuvwxyz" || c in "ABCDEFGHIJKLMNOPQRSTUVWXYZ" || c in "0123456789"
              || c in "._/\\,.-*"
  {
  }

  /** Where a variable is kept. */
  function VarPath(name: string): Path {
    PathOf(Controlled(name))
  }

  /** The allowed characters of a string. */
  function Only(s: string): string {
    if s == [] then [] else
    Only(s[..|s| - 1]) + if Allowed(s[|s| - 1]) then [s[|s| - 1]] else []
  }

  method GetOnly(source: string) returns (result: string)
    ensures result == Only(source)
  {
    result := "";
    for i := 0 to |source|
      invariant result == Only(source[..i])
    {
      assert source[..i + 1][..i] == source[..i];
      if Allowed(source[i]) {
        result := result + [source[i]];
      }
    }
    assert source[..|source|] == source;
  }

  predicate HasUnderscoreDot(name: string) {
    exists i :: 0 <= i < |name| - 1 && name[i] == '.' && name[i + 1] == '_'
  }

  method ContainsUnderscoreDot(name: string) returns (found: bool)
    ensures found <==> HasUnderscoreDot(name)
  {
    var i := 0;
    while i < |name| - 1
      invariant forall j :: 0 <= j < i && j < |name| - 1 ==> !(name[j] == '.' && name[j + 1] == '_')
    {
      if name[i] == '.' && name[i + 1] == '_' {
        return true;
      }
      i := i + 1;
    }
    found := false;
  }

  /** The limits of the configuration; a word limit of 0 means none. */
  datatype Limits = Limits(maxKey: int, maxValue: int, maxWord: int)

  predicate WordsFit(limits: Limits, name: string) {
    limits.maxWord > 0 ==> forall w :: w in SplitOn(name, '.') ==> |w| <= limits.maxWord
  }

  /** What setVar asks of a name and a value, apart from locks. */
  predicate Accepted(limits: Limits, name: string, value: string) {
    && name != "" && name[0] != '_' && !HasUnderscoreDot(name)
    && |name| <= limits.maxKey && |value| <= limits.maxValue && WordsFit(limits, name)
  }

  // ----- The segments of stored names -----

  /** A segment that a set can store: allowed characters, none of them a dot or a star, and not internal. */
  predicate Tame(s: string) {
    && (forall c :: c in s ==> Allowed(c) && c != '.' && c != '*')
    && (s != "" ==> s[0] != '_')
  }

  /** A segment that a listing shows. */
  predicate Visible(s: string) {
    s != "" && Tame(s)
  }

  predicate TamePath(p: Path) {
    forall s :: s in p ==> Tame(s)
  }

  /** Everything below the variables' node was stored by sets. */
  ghost predicate TameView(v: View) {
    forall p :: p in v && p != [] && p[0] == VARS ==> TamePath(p)
  }

  /** A name that setVar gives to the store. */
  predicate Storable(name: string) {
    && name != "" && name[0] != '_' && !HasUnderscoreDot(name)
    && forall c :: c in name ==> Allowed(c) && c != '*'
  }

  lemma {:induction false} OnlyFacts(s: string)
    ensures forall c :: c in Only(s) <==> c in s && Allowed(c)
    ensures Only(s) == s <==> forall c :: c in s ==> Allowed(c)
    ensures |Only(s)| <= |s|
  {
    if s != [] {
      var rest, last := s[..|s| - 1], s[|s| - 1];
      OnlyFacts(rest);
      assert s == rest + [last];
      if Allowed(last) {
        assert Only(s) == s <==> Only(rest) == rest by {
          if Only(s) == s { assert Only(rest) == Only(s)[..|s| - 1]; }
        }
      }
    }
  }

  /** The filter works character by character. */
  lemma {:induction false} OnlyAppend(a: string, b: string)
    ensures Only(a + b) == Only(a) + Only(b)
    decreases |b|
  {
    if b == [] {
      assert a + b == a;
    } else {
      assert (a + b)[..|a + b| - 1] == a + b[..|b| - 1];
      OnlyAppend(a, b[..|b| - 1]);
    }
  }

  /** A name is internal if one of its segments begins with an underscore. */
  predicate Internal(name: string) {
    (name != "" && name[0] == '_') || HasUnderscoreDot(name)
  }

  lemma {:induction false} InternalSegments(name: string)
    ensures Internal(name) <==> exists w :: w in SplitOn(name, '.') && w != "" && w[0] == '_'
    decreases |name|
  {
    hide SplitOn;
    var a, rest := Split(name);
    SplitWhole(a);
    if name == a {
      forall i | 0 <= i < |a| ensures a[i] != '.' { assert a[i] in a; }
    } else {
      InternalSegments(rest);
      SplitCons(a, rest, '.');
      assert name == a + ['.'] + rest;
      UnderscoreAfter(a, rest);
    }
  }

  lemma SplitWhole(a: string)
    requires '.' !in a
    ensures SplitOn(a, '.') == [a]
  {
    FirstOfIs(a, [], '.');
    assert a + [] == a;
  }

  lemma UnderscoreAfter(a: string, rest: string)
    requires '.' !in a
    ensures HasUnderscoreDot(a + "." + rest) <==> Internal(rest)
  {
    var name := a + "." + rest;
    Places(a, rest);
    if Internal(rest) { UnderscoreBehind(a, rest); }
    if HasUnderscoreDot(name) {
      var i :| 0 <= i < |name| - 1 && name[i] == '.' && name[i + 1] == '_';
      assert i >= |a|;
      if i > |a| { assert rest[i - |a| - 1] == '.' && rest[i - |a|] == '_'; }
    }
  }

  lemma UnderscoreBehind(a: string, rest: string)
    requires Internal(rest)
    ensures HasUnderscoreDot(a + "." + rest)
  {
    var name := a + "." + rest;
    if HasUnderscoreDot(rest) {
      var i :| 0 <= i < |rest| - 1 && rest[i] == '.' && rest[i + 1] == '_';
      assert name[|a| + 1 + i] == '.' && name[|a| + 1 + i + 1] == '_';
    } else {
      assert name[|a|] == '.' && name[|a| + 1] == '_';
    }
  }

  lemma Places(a: string, rest: string)
    requires '.' !in a
    ensures var name := a + "." + rest;
            && (forall i :: 0 <= i < |a| ==> name[i] != '.')
            && (forall i :: |a| < i < |name| ==> name[i] == rest[i - |a| - 1])
  {
    assert forall i :: 0 <= i < |a| ==> a[i] in a;
  }

  /** Lengths up to the limits are accepted, and none beyond them. */
  lemma AtTheLimits(name: string, value: string, limits: Limits)
    requires name != "" && !Internal(name)
    ensures Accepted(Limits(|name|, |value|, 0), name, value)
    ensures limits.maxKey < |name| || limits.maxValue < |value| ==> !Accepted(limits, name, value)
    ensures limits.maxWord > 0 && (exists w :: w in SplitOn(name, '.') && |w| > limits.maxWord) ==>
              !Accepted(limits, name, value)
    ensures '.' !in name ==> Accepted(Limits(|name|, |value|, |name|), name, value)
  {
    hide SplitOn;
    if '.' !in name { SplitWhole(name); }
  }

  /** The segments of a storable name are tame. */
  lemma {:induction false} StorableSegments(x: string)
    requires !HasUnderscoreDot(x) && (x != "" ==> x[0] != '_') && forall c :: c in x ==> Allowed(c) && c != '*'
    ensures TamePath(PathOf(x))
    decreases |x|
  {
    hide PathOf;
    var a, rest := Split(x);
    PathOfOne(a);
    assert a != "" ==> a[0] == x[0];
    assert Tame(a) by { assert forall c :: c in a ==> c in x && c != '.'; }
    if x != a && rest == [] {
      assert x == a + ".";
    } else if x != a {
      PathOfCons(a, rest);
      assert x[|a|] == '.' && x[|a| + 1] == rest[0];
      forall i | 0 <= i < |rest| - 1 ensures !(rest[i] == '.' && rest[i + 1] == '_') {
        assert x[|a| + 1 + i] == rest[i] && x[|a| + 1 + (i + 1)] == rest[i + 1];
      }
      assert forall c :: c in rest ==> c in x;
      StorableSegments(rest);
    }
  }

  lemma VarPathFacts(name: string)
    ensures VarPath(name) != [] && VarPath(name)[0] == VARS
  {
    hide PathOf;
    var x := Controlled(name);
    var rest := x[5..];
    assert x == VARS + "." + rest by { assert x == x[..5] + rest; }
    if rest == "" {
      assert x == VARS + ".";
      PathOfOne(VARS);
    } else {
      PathOfCons(VARS, rest);
    }
  }

  lemma VarPathTame(name: string)
    requires Storable(name)
    ensures TamePath(VarPath(name))
  {
    hide PathOf, TamePath;
    var x := Controlled(name);
    if x != name {
      assert x == "vars." + name;
      forall i | 0 <= i < |x| - 1 ensures !(x[i] == '.' && x[i + 1] == '_') {
        if i >= 5 { assert x[i] == name[i - 5] && x[i + 1] == name[i - 4]; }
      }
      assert forall c :: c in x ==> c in "vars." || c in name;
    }
    StorableSegments(x);
  }

  /** A name with a flag behind it leads to the flag. */
  lemma {:induction false} FlagLast(x: string, flag: string)
    requires IsSegment(flag)
    ensures Last(PathOf(x + "." + flag)) == flag
    decreases |x|
  {
    hide PathOf;
    var a, rest := Split(x);
    PathOfOne(flag);
    if x == a {
      PathOfCons(a, flag);
    } else {
      FlagLast(rest, flag);
      PathOfCons(a, rest + "." + flag);
      assert x + "." + flag == a + "." + (rest + "." + flag);
    }
  }

  /** The lock flag of a variable is set. */
  ghost predicate Locked(v: View, name: string) {
    var p := PathOf(Controlled(name) + "._lock");
    p in v && v[p] !in {"0", ""}
  }

  /** No flag is among what sets can store. */
  lemma NoFlag(v: View, name: string, flag: string)
    requires TameView(v) && IsSegment(flag) && flag[0] == '_'
    ensures PathOf(Controlled(name) + "." + flag) !in v
  {
    hide PathOf;
    var x := Controlled(name);
    FlagLast(x, flag);
    var p := PathOf(x + "." + flag);
    assert x + "." + flag == Controlled(x + "." + flag);
    VarPathFacts(x + "." + flag);
    assert Last(p) in p && !Tame(flag);
  }

  lemma NotLocked(v: View, name: string)
    requires TameView(v)
    ensures !Locked(v, name)
  {
    hide PathOf, TameView;
    NoFlag(v, name, "_lock");
    assert Controlled(name) + "._lock" == Controlled(name) + "." + "_lock";
  }

  // ----- What a list of sets makes of the store -----

  type Texts = seq<(string, string)>

  function VarSet(v: View, name: string, value: string): View {
    SetAt(v, VarPath(name), value)
  }

  /** The sets of a list, one after another. */
  function Stored(v: View, made: Texts): View
    decreases |made|
  {
    if made == [] then v else
    var last := made[|made| - 1];
    VarSet(Stored(v, made[..|made| - 1]), last.0, last.1)
  }

  /** No variable has been set. */
  ghost predicate NoVars(v: View) {
    Closed(v) && forall p :: p in v && p != [] ==> p[0] != VARS
  }

  /** Then the rest of the store may hold anything. */
  lemma NoVarsTame(v: View)
    requires NoVars(v)
    ensures TameView(v)
  {
  }

  lemma {:induction false} StoredAppend(v: View, a: Texts, b: Texts)
    ensures Stored(v, a + b) == Stored(Stored(v, a), b)
    decreases |b|
  {
    if b == [] {
      assert a + b == a;
    } else {
      assert (a + b)[..|a + b| - 1] == a + b[..|b| - 1];
      StoredAppend(v, a, b[..|b| - 1]);
    }
  }

  /** Setting a storable name keeps what lies below the variables' node tame. */
  lemma VarSetTame(v: View, name: string, value: string)
    requires Closed(v) && TameView(v) && Storable(name)
    ensures Closed(VarSet(v, name, value)) && TameView(VarSet(v, name, value))
  {
    hide VarPath, Ensured;
    var p := VarPath(name);
    VarPathTame(name);
    SetAtFacts(v, p, value);
    forall q | q in SetAt(v, p, value) && q != [] && q[0] == VARS ensures TamePath(q) {
      if q !in v {
        assert forall s :: s in q ==> s in p;
      }
    }
  }

  ghost predicate AllStorable(made: Texts) {
    forall e :: e in made ==> Storable(e.0)
  }

  /** The nodes among the variables are the names that were set and what lies above them. */
  lemma {:induction false} StoredNodes(v: View, made: Texts, q: Path)
    requires NoVars(v) && q != [] && q[0] == VARS
    ensures Closed(Stored(v, made))
    ensures q in Stored(v, made) <==> exists e :: e in made && q <= VarPath(e.0)
    decreases |made|
  {
    hide VarPath, Ensured;
    if made != [] {
      var rest, last := made[..|made| - 1], made[|made| - 1];
      var w, p := Stored(v, rest), VarPath(last.0);
      StoredNodes(v, rest, q);
      SetAtFacts(w, p, last.1);
      assert made == rest + [last] && last in made;
      if q <= p { UpwardClosed(SetAt(w, p, last.1), p, q); }
      if q in w {
        var e :| e in rest && q <= VarPath(e.0);
        assert e in made;
      }
      forall e | e in made && q <= VarPath(e.0) ensures q in Stored(v, made) {
        assert e in rest || e == last;
      }
    }
  }

  /** A node's value is the text of some set of it, or empty where there was none. */
  lemma {:induction false} StoredValues(v: View, made: Texts, q: Path)
    requires NoVars(v) && q != [] && q[0] == VARS && q in Stored(v, made)
    ensures (exists e :: e in made && VarPath(e.0) == q) ==>
              exists e :: e in made && VarPath(e.0) == q && e.1 == Stored(v, made)[q]
    ensures !(exists e :: e in made && VarPath(e.0) == q) ==> Stored(v, made)[q] == ""
    decreases |made|
  {
    hide VarPath, Ensured;
    if made != [] {
      var rest, last := made[..|made| - 1], made[|made| - 1];
      var w, p := Stored(v, rest), VarPath(last.0);
      StoredNodes(v, rest, q);
      SetAtFacts(w, p, last.1);
      assert made == rest + [last] && last in made;
      if q != p {
        if q in w {
          StoredValues(v, rest, q);
          if e :| e in rest && VarPath(e.0) == q && e.1 == w[q] { assert e in made; }
        } else {
          forall e | e in made ensures VarPath(e.0) != q { }
        }
      }
    }
  }

  // ----- Names below a name -----

  /** The name that a listing builds for what lies below a name. */
  function Ext(name: string, r: Path): string
    decreases |r|
  {
    if r == [] then name else
    var up := Ext(name, r[..|r| - 1]);
    (if up == "" then "" else up + ".") + r[|r| - 1]
  }

  /** The segments that GetChildNames leaves. */
  predicate Shown(s: string) {
    s != "" && s[0] != '_'
  }

  /** All but the empty segment and those that begin with an underscore. */
  lemma ShownIs(c: char, s: string)
    ensures !Shown("") && !Shown("_" + s) && (c != '_' ==> Shown([c] + s))
  {
  }

  /** Each segment is among the child names of what stands before it. */
  ghost predicate Listed(v: View, name: string, r: Path) {
    forall i {:trigger r[i]} :: 0 <= i < |r| ==> VarPath(Ext(name, r[..i])) + [r[i]] in v && Shown(r[i])
  }

  lemma {:induction false} ExtFullName(r: Path)
    ensures Ext("", r) == FullName(r)
    decreases |r|
  {
    if r != [] { ExtFullName(r[..|r| - 1]); }
  }

  lemma {:induction false} ExtCons(name: string, k: string, r: Path)
    ensures Ext(name, [k] + r) == Ext(Ext(name, [k]), r)
    decreases |r|
  {
    if r != [] {
      assert ([k] + r)[..|r|] == [k] + r[..|r| - 1];
      ExtCons(name, k, r[..|r| - 1]);
    } else {
      assert [k] + r == [k];
    }
  }

  lemma ExtNone(name: string)
    ensures Ext(name, []) == name
  {
  }

  lemma StepCons(name: string, k: string, r: Path, i: nat)
    requires i < |r|
    ensures ([k] + r)[i + 1] == r[i] && Ext(name, ([k] + r)[..i + 1]) == Ext(Ext(name, [k]), r[..i])
  {
    hide Ext;
    assert ([k] + r)[..i + 1] == [k] + r[..i];
    ExtCons(name, k, r[..i]);
  }

  lemma ListedTail(v: View, name: string, k: string, r: Path)
    requires Listed(v, name, [k] + r)
    ensures VarPath(name) + [k] in v && Shown(k) && Listed(v, Ext(name, [k]), r)
  {
    hide VarPath, Ext, Shown;
    var p := [k] + r;
    assert p[..0] == [] && p[0] == k;
    ExtNone(name);
    forall i | 0 <= i < |r| ensures VarPath(Ext(Ext(name, [k]), r[..i])) + [r[i]] in v && Shown(r[i]) {
      StepCons(name, k, r, i);
      assert VarPath(Ext(name, p[..i + 1])) + [p[i + 1]] in v;
    }
  }

  lemma ListedHead(v: View, name: string, k: string, r: Path)
    requires VarPath(name) + [k] in v && Shown(k) && Listed(v, Ext(name, [k]), r)
    ensures Listed(v, name, [k] + r)
  {
    hide VarPath, Ext, Shown;
    var p := [k] + r;
    assert p[..0] == [] && p[0] == k;
    ExtNone(name);
    forall i | 0 <= i < |p| ensures VarPath(Ext(name, p[..i])) + [p[i]] in v && Shown(p[i]) {
      if i > 0 {
        StepCons(name, k, r, i - 1);
        assert VarPath(Ext(Ext(name, [k]), r[..i - 1])) + [r[i - 1]] in v;
      }
    }
  }

  lemma ListedCons(v: View, name: string, k: string, r: Path)
    ensures Listed(v, name, [k] + r) <==>
              VarPath(name) + [k] in v && Shown(k) && Listed(v, Ext(name, [k]), r)
  {
    hide *;
    if Listed(v, name, [k] + r) { ListedTail(v, name, k, r); }
    if VarPath(name) + [k] in v && Shown(k) && Listed(v, Ext(name, [k]), r) { ListedHead(v, name, k, r); }
  }

  // ----- The loops over child names -----

  ghost predicate Once(rs: seq<Path>) {
    forall i, j :: 0 <= i < j < |rs| ==> rs[i] != rs[j]
  }

  /** The paths are all that is listed below a name, each once. */
  ghost predicate ListsBelow(v: View, name: string, rs: seq<Path>) {
    Once(rs) && forall r :: r in rs <==> r != [] && Listed(v, name, r)
  }

  ghost predicate NamesFor(name: string, names: seq<string>, rs: seq<Path>) {
    |names| == |rs| && forall i :: 0 <= i < |rs| ==> names[i] == Ext(name, rs[i])
  }

  lemma NamesMore(name: string, k: string, names: seq<string>, rs: seq<Path>, more: seq<string>, below: seq<Path>)
    requires NamesFor(name, names, rs) && NamesFor(Ext(name, [k]), more, below)
    ensures NamesFor(name, names + [Ext(name, [k])] + more, rs + WithChild(k, below))
  {
    hide Ext;
    var all, paths := names + [Ext(name, [k])] + more, rs + WithChild(k, below);
    forall i | 0 <= i < |paths| ensures all[i] == Ext(name, paths[i]) {
      if i > |rs| { ExtCons(name, k, below[i - |rs| - 1]); }
    }
  }

  ghost predicate ListsUnder(v: View, name: string, ks: set<string>, rs: seq<Path>) {
    Once(rs) && forall r :: r in rs <==> r != [] && r[0] in ks && Listed(v, name, r)
  }

  /** A child, and what is listed below it. */
  ghost function WithChild(k: string, rs: seq<Path>): (r: seq<Path>)
    ensures |r| == |rs| + 1 && r[0] == [k] && forall i :: 0 <= i < |rs| ==> r[i + 1] == [k] + rs[i]
  {
    [[k]] + seq(|rs|, i requires 0 <= i < |rs| => [k] + rs[i])
  }

  lemma WithChildIn(k: string, rs: seq<Path>, r: Path)
    ensures r in WithChild(k, rs) <==> r != [] && r[0] == k && (r[1..] == [] || r[1..] in rs)
  {
    var all := WithChild(k, rs);
    if r in all {
      var i :| 0 <= i < |all| && all[i] == r;
      if i > 0 { assert all[i] == [k] + rs[i - 1] && r[1..] == rs[i - 1]; }
    }
    if r != [] && r[0] == k && r[1..] == [] { assert r == [k] == all[0]; }
    if r != [] && r[0] == k && r[1..] in rs {
      var i :| 0 <= i < |rs| && rs[i] == r[1..];
      assert all[i + 1] == r;
    }
  }

  lemma ListedMore(v: View, name: string, ks: set<string>, k: string, rs: seq<Path>, below: seq<Path>)
    requires ListsUnder(v, name, ks, rs) && k !in ks && VarPath(name) + [k] in v && Shown(k)
    requires ListsBelow(v, Ext(name, [k]), below)
    ensures ListsUnder(v, name, ks + {k}, rs + WithChild(k, below))
  {
    hide VarPath, Ext, Listed, Once, WithChild;
    var mine := WithChild(k, below);
    var all := rs + mine;
    ListedNone(v, Ext(name, [k]));
    forall r ensures r in all <==> r != [] && r[0] in ks + {k} && Listed(v, name, r) {
      assert r in all <==> r in rs || r in mine;
      WithChildIn(k, below, r);
      if r != [] && r[0] == k {
        assert r == [k] + r[1..];
        ListedCons(v, name, k, r[1..]);
      }
    }
    OnceWithChild(k, below);
    forall r | r in mine ensures r !in rs { WithChildIn(k, below, r); }
    OnceAppend(rs, mine);
  }

  lemma OnceWithChild(k: string, rs: seq<Path>)
    requires Once(rs) && [] !in rs
    ensures Once(WithChild(k, rs))
  {
    var all := WithChild(k, rs);
    forall i, j | 0 <= i < j < |all| ensures all[i] != all[j] {
      assert all[j][1..] == rs[j - 1] && rs[j - 1] in rs;
      if i > 0 { assert all[i][1..] == rs[i - 1]; }
    }
  }

  lemma OnceAppend(a: seq<Path>, b: seq<Path>)
    requires Once(a) && Once(b) && forall r :: r in b ==> r !in a
    ensures Once(a + b)
  {
    forall i, j | 0 <= i < j < |a + b| ensures (a + b)[i] != (a + b)[j] {
      if i < |a| <= j { assert a[i] in a && b[j - |a|] in b; }
    }
  }

  lemma ListedNone(v: View, name: string)
    ensures Listed(v, name, [])
  {
  }

  lemma ListedDone(v: View, name: string, ks: set<string>, rs: seq<Path>)
    requires ListsUnder(v, name, ks, rs) && forall k :: k in ks <==> VarPath(name) + [k] in v && Shown(k)
    ensures ListsBelow(v, name, rs)
  {
    hide VarPath;
    forall r | r != [] && Listed(v, name, r) ensures r[0] in ks {
      assert r[..0] == [];
      ExtNone(name);
      assert VarPath(Ext(name, r[..0])) + [r[0]] in v;
    }
  }

  function Count(s: string, c: char): nat {
    if s == [] then 0 else Count(s[..|s| - 1], c) + if s[|s| - 1] == c then 1 else 0
  }

  lemma {:induction false} CountAppend(a: string, b: string, c: char)
    ensures Count(a + b, c) == Count(a, c) + Count(b, c)
    decreases |b|
  {
    if b == [] {
      assert a + b == a;
    } else {
      assert (a + b)[..|a + b| - 1] == a + b[..|b| - 1];
      CountAppend(a, b[..|b| - 1], c);
    }
  }

  lemma {:induction false} CountNone(s: string, c: char)
    ensures Count(s, c) == 0 <==> c !in s
  {
    if s != [] {
      CountNone(s[..|s| - 1], c);
      assert s == s[..|s| - 1] + [s[|s| - 1]];
    }
  }

  /** A name leads at least as deep as it has dots. */
  lemma {:induction false} PathLong(x: string)
    ensures |PathOf(x)| >= Count(x, '.')
    decreases |x|
  {
    hide PathOf;
    var a, rest := Split(x);
    PathOfOne(a);
    CountNone(a, '.');
    if x != a {
      CountAppend(a, ".", '.');
      CountAppend(a + ".", rest, '.');
      if rest == [] {
        assert x == a + ".";
      } else {
        PathLong(rest);
        PathOfCons(a, rest);
      }
    }
  }

  lemma VarPathLong(name: string)
    ensures |VarPath(name)| >= Count(name, '.')
  {
    hide PathOf;
    PathLong(Controlled(name));
    CountAppend("vars.", name, '.');
  }

  ghost predicate Within(v: View, h: nat) {
    forall q :: q in v ==> |q| <= h
  }

  /** A child's name has one dot more, but still no more than the tree is deep. */
  lemma ChildDots(v: View, name: string, k: string, h: nat)
    requires Within(v, h) && VarPath(name) + [k] in v && '.' !in k && Shown(k)
    ensures Count(Ext(name, [k]), '.') == (if name == "" then 0 else Count(name, '.') + 1) <= h
    ensures Ext(name, [k]) != ""
  {
    hide VarPath, Count;
    VarPathLong(name);
    assert |VarPath(name) + [k]| == |VarPath(name)| + 1;
    ExtOne(name, k);
    CountNone(k, '.');
    if name != "" {
      CountAppend(name, ".", '.');
      CountOne('.');
      assert "." == ['.'];
      CountAppend(name + ".", k, '.');
    }
  }

  lemma ExtOne(name: string, k: string)
    ensures Ext(name, [k]) == if name == "" then k else name + "." + k
  {
    assert [k][..0] == [];
    ExtNone(name);
    assert "" + k == k;
  }

  lemma CountOne(c: char)
    ensures Count([c], c) == 1
  {
    assert [c][..0] == [];
  }

  lemma {:induction false} Bound(v: View, ks: set<Path>) returns (h: nat)
    ensures forall q :: q in ks ==> |q| <= h
    decreases ks
  {
    h := 0;
    if ks != {} {
      var q :| q in ks;
      var g := Bound(v, ks - {q});
      h := if g < |q| then |q| else g;
    }
  }

  // ----- The controller -----

  predicate HasIncrement(query: string) {
    exists i :: 0 <= i <= |query| - 3 && query[i] == '$' && query[i + 1] == '{' && query[i + 2] == 'i'
  }

  /** A name with "${i" somewhere in it. */
  lemma IncrementIs(query: string)
    ensures HasIncrement(query) <==> exists a, b :: query == a + "${i" + b
  {
    if HasIncrement(query) {
      var i :| 0 <= i <= |query| - 3 && query[i] == '$' && query[i + 1] == '{' && query[i + 2] == 'i';
      assert query == query[..i] + "${i" + query[i + 3..];
    }
    if a, b :| query == a + "${i" + b {
      assert query[|a|] == '$' && query[|a| + 1] == '{' && query[|a| + 2] == 'i';
    }
  }

  /** A name that stands for itself alone. */
  predicate Simple(query: string) {
    '*' !in query && !HasIncrement(query)
  }

  predicate StarFree(names: seq<string>) {
    forall n :: n in names ==> '*' !in n
  }

  function TrimDot(name: string): string {
    if name != "" && name[|name| - 1] == '.' then name[..|name| - 1] else name
  }

  /** One dot at the end goes, and nothing else. */
  lemma TrimDotIs(x: string)
    requires x == "" || x[|x| - 1] != '.'
    ensures TrimDot(x) == x && TrimDot(x + ".") == x && TrimDot(x + "..") == x + "."
  {
    assert (x + ".")[..|x|] == x && (x + "..")[..|x| + 1] == x + ".";
  }

  function Flat(parts: seq<seq<string>>): seq<string>
    decreases |parts|
  {
    if parts == [] then [] else Flat(parts[..|parts| - 1]) + parts[|parts| - 1]
  }

  /** What a name with stars stands for: what stands before the first star, and for each listed name below that, in some
      order, what that name with the rest behind it stands for. */
  ghost predicate Resolves(v: View, query: string, names: seq<string>)
    decreases Count(query, '*'), 1
  {
    if '*' !in query then names == [query] else
    StarSplit(query);
    var i := FirstOf(query, '*');
    exists children, rs, parts ::
      && ListsBelow(v, TrimDot(query[..i]), rs) && NamesFor(TrimDot(query[..i]), children, rs)
      && AllResolve(v, query[i + 1..], children, parts) && names == [query[..i]] + Flat(parts)
  }

  ghost predicate AllResolve(v: View, rest: string, children: seq<string>, parts: seq<seq<string>>)
    decreases Count(rest, '*') + 1, 0
  {
    && |parts| == |children|
    && forall k :: 0 <= k < |children| ==>
         '*' !in children[k] && (StarFewer(children[k], rest); Resolves(v, children[k] + rest, parts[k]))
  }

  lemma ResolvesAll(v: View, query: string, names: seq<string>, children: seq<string>, rs: seq<Path>,
      parts: seq<seq<string>>)
    requires '*' in query
    requires var i := FirstOf(query, '*');
             && i < |query| && ListsBelow(v, TrimDot(query[..i]), rs) && NamesFor(TrimDot(query[..i]), children, rs)
             && AllResolve(v, query[i + 1..], children, parts) && names == [query[..i]] + Flat(parts)
    ensures Resolves(v, query, names)
  {
    hide ListsBelow, NamesFor, AllResolve, Count, Flat, TrimDot;
  }

  lemma ResolvesItself(v: View, query: string)
    ensures '*' !in query ==> Resolves(v, query, [query])
  {
  }

  lemma NoneResolved(v: View, rest: string)
    ensures AllResolve(v, rest, [], []) && Flat([]) == []
  {
  }

  lemma AllResolveMore(v: View, rest: string, children: seq<string>, k: nat, parts: seq<seq<string>>,
      more: seq<string>)
    requires k < |children| && AllResolve(v, rest, children[..k], parts)
    requires '*' !in children[k] && Resolves(v, children[k] + rest, more)
    ensures AllResolve(v, rest, children[..k + 1], parts + [more]) && Flat(parts + [more]) == Flat(parts) + more
  {
    hide Resolves;
    assert (parts + [more])[..|parts|] == parts;
  }

  lemma ChildStarFree(v: View, parentName: string, children: seq<string>, rs: seq<Path>, k: nat)
    requires TameView(v) && '*' !in parentName && k < |children|
    requires ListsBelow(v, TrimDot(parentName), rs) && NamesFor(TrimDot(parentName), children, rs)
    ensures '*' !in children[k]
  {
    hide TameView, ListsBelow, Ext;
    ListedStarFree(v, TrimDot(parentName), rs[k], rs);
  }

  /** A star alone stands for the empty name and everything listed. */
  lemma StarNames(v: View, children: seq<string>, rs: seq<Path>, parts: seq<seq<string>>)
    requires AllResolve(v, "", children, parts) && NamesFor(TrimDot(""), children, rs)
    ensures TrimDot("") == "" && [""] + Flat(parts) == [""] + NamesOf(rs)
  {
    hide Ext;
    FlatSingles(v, children, parts);
  }

  lemma {:induction false} FlatSingles(v: View, children: seq<string>, parts: seq<seq<string>>)
    requires AllResolve(v, "", children, parts)
    ensures Flat(parts) == children
    decreases |parts|
  {
    if parts != [] {
      var n := |parts| - 1;
      assert '*' !in children[n] && children[n] + "" == children[n] && Resolves(v, children[n], parts[n]);
      FlatSingles(v, children[..n], parts[..n]);
      assert children == children[..n] + [children[n]];
    }
  }

  /** A star behind a dot stands, among others, for every child of what stands before the dot. */
  lemma StarFindsChildren(v: View, x: string, names: seq<string>, k: string)
    requires TameView(v) && Resolves(v, x + ".*", names) && '*' !in x && x != "" && x[|x| - 1] != '.'
    requires VarPath(x) + [k] in v && Shown(k)
    ensures names != [] && names[0] == x + "." && x + "." + k in names
  {
    hide VarPath, TameView, Resolves, Count, AllResolve, ListsBelow, NamesFor, Flat, TrimDot, Shown;
    var query := x + ".*";
    DotStar(x);
    TrimDotIs(x);
    var children, rs, parts := ResolvedParts(v, query, names);
    FlatSingles(v, children, parts);
    ChildNamed(v, x, children, rs, k);
    var i :| 0 <= i < |children| && children[i] == x + "." + k;
    assert names[i + 1] == children[i];
  }

  lemma DotStar(x: string)
    requires '*' !in x
    ensures var q := x + ".*"; FirstOf(q, '*') == |x| + 1 && q[..|x| + 1] == x + "." && q[|x| + 2..] == "" && '*' in q
  {
    var q := x + ".*";
    assert q == (x + ".") + "*" && q[|x| + 1] == '*';
    FirstOfIs(x + ".", "*", '*');
  }

  lemma ChildNamed(v: View, x: string, children: seq<string>, rs: seq<Path>, k: string)
    requires ListsBelow(v, x, rs) && NamesFor(x, children, rs) && x != "" && VarPath(x) + [k] in v && Shown(k)
    ensures x + "." + k in children
  {
    hide VarPath, Listed, Once, Shown;
    OneListed(v, x, k);
    assert [k] in rs;
    var i :| 0 <= i < |rs| && rs[i] == [k];
    ExtOne(x, k);
    assert children[i] == x + "." + k;
  }

  lemma ResolvedParts(v: View, query: string, names: seq<string>)
    returns (children: seq<string>, rs: seq<Path>, parts: seq<seq<string>>)
    requires Resolves(v, query, names) && '*' in query
    ensures var i := FirstOf(query, '*');
            && i < |query| && ListsBelow(v, TrimDot(query[..i]), rs) && NamesFor(TrimDot(query[..i]), children, rs)
            && AllResolve(v, query[i + 1..], children, parts) && names == [query[..i]] + Flat(parts)
  {
    hide ListsBelow, NamesFor, AllResolve, Count, Flat, TrimDot;
    StarSplit(query);
    var i := FirstOf(query, '*');
    children, rs, parts :|
      && ListsBelow(v, TrimDot(query[..i]), rs) && NamesFor(TrimDot(query[..i]), children, rs)
      && AllResolve(v, query[i + 1..], children, parts) && names == [query[..i]] + Flat(parts);
  }

  lemma OneListed(v: View, x: string, k: string)
    requires VarPath(x) + [k] in v && Shown(k)
    ensures Listed(v, x, [k])
  {
    hide VarPath;
    assert [k][..0] == [];
    ExtNone(x);
  }

  /** A set that setVar accepted. */
  predicate Made(limits: Limits, e: (string, string)) {
    Accepted(limits, e.0, e.1) && Storable(e.0)
  }

  lemma AcceptedStorable(limits: Limits, name: string, value: string)
    requires Accepted(limits, Only(name), value) && '*' !in Only(name)
    ensures Made(limits, (Only(name), value))
  {
    OnlyFacts(name);
  }

  /** A set of a resolved name on a store without locks. */
  lemma SetKeepsTame(v: View, limits: Limits, vname: string, value: string)
    requires TameView(v) && Closed(v) && '*' !in vname
    ensures !Locked(v, Only(vname))
    ensures Accepted(limits, Only(vname), value) ==>
              && Made(limits, (Only(vname), value))
              && Closed(VarSet(v, Only(vname), value)) && TameView(VarSet(v, Only(vname), value))
  {
    hide Locked, Accepted, TameView, Closed, VarSet, Storable;
    OnlyFacts(vname);
    NotLocked(v, Only(vname));
    if Accepted(limits, Only(vname), value) {
      AcceptedStorable(limits, vname, value);
      VarSetTame(v, Only(vname), value);
    }
  }

  lemma StoredOne(v: View, made: Texts, e: (string, string))
    ensures Stored(v, made + [e]) == VarSet(Stored(v, made), e.0, e.1)
  {
    assert (made + [e])[..|made|] == made;
  }

  /** The part of TheController that deals with variables, without raw access. */
  class TheController {
    const db: RamCachedDB
    const limits: Limits

    /** Whether the rule of an increment instruction cannot be read. */
    const malformed: string -> bool

    constructor (db: RamCachedDB, limits: Limits, malformed: string -> bool)
      ensures this.db == db && this.limits == limits && this.malformed == malformed
    {
      this.db := db;
      this.limits := limits;
      this.malformed := malformed;
    }

    ghost predicate Valid()
      reads db, db.at.Values
    {
      db.Valid() && TameView(db.Contents()) && Closed(db.Contents())
    }

    /** VarHelper.GetChildNames: neither empty nor internal names. */
    method GetChildNames(name: string) returns (names: set<string>)
      requires Valid()
      modifies db`at, db.at.Values`childs
      ensures Valid() && db.at == old(db.at) && db.Contents() == old(db.Contents())
      ensures forall k :: k in names <==> VarPath(name) + [k] in db.Contents() && Shown(k)
    {
      hide TreeOk, ViewOf, Snap, PathOf, TameView, Closed;
      var childs := db.GetChildNames(Controlled(name));
      names := set k | k in childs && Shown(k);
    }

    /** resolveWildCardsgetAllChildNames. Go lists the children of a node in no particular order; neither does this. */
    method AllChildNames(parentName: string, ghost h: nat) returns (names: seq<string>, ghost rs: seq<Path>)
      requires Valid() && Within(db.Contents(), h) && Count(parentName, '.') <= h
      modifies db`at, db.at.Values`childs
      ensures Valid() && db.at == old(db.at) && db.Contents() == old(db.Contents())
      ensures ListsBelow(db.Contents(), parentName, rs)
      ensures NamesFor(parentName, names, rs)
      decreases h - Count(parentName, '.'), if parentName == "" then 1 else 0
    {
      hide TreeOk, ViewOf, Snap, VarPath, TameView, Closed, Listed, ListsUnder, ListsBelow, Ext, Count, Within, Shown,
        NamesFor;
      ghost var v := db.Contents();
      names, rs := [], [];
      var childs := GetChildNames(parentName);
      var todo := childs;
      ListedStart(v, parentName);
      assert childs - todo == {};
      while todo != {}
        invariant todo <= childs
        invariant Valid() && db.at == old(db.at) && db.Contents() == v
        invariant ListsUnder(v, parentName, childs - todo, rs)
        invariant NamesFor(parentName, names, rs)
        decreases todo
      {
        var ch :| ch in todo;
        var full := if parentName != "" then parentName + "." + ch else ch;
        ExtOne(parentName, ch);
        TameChild(v, parentName, ch);
        ChildDots(v, parentName, ch, h);
        CountNone("", '.');
        var more, below := AllChildNames(full, h);
        ListedMore(v, parentName, childs - todo, ch, rs, below);
        NamesMore(parentName, ch, names, rs, more, below);
        names := names + [full] + more;
        rs := rs + WithChild(ch, below);
        assert childs - (todo - {ch}) == childs - todo + {ch};
        todo := todo - {ch};
      }
      assert childs - todo == childs;
      ListedDone(v, parentName, childs, rs);
    }

    /** resolveWildCards. */
    method ResolveWildCards(query: string, ghost h: nat) returns (names: seq<string>, ghost rs: seq<Path>)
      requires Valid() && Within(db.Contents(), h)
      modifies db`at, db.at.Values`childs
      ensures Valid() && db.at == old(db.at) && db.Contents() == old(db.Contents())
      ensures StarFree(names) && Resolves(db.Contents(), query, names)
      ensures query == "*" ==> ListsBelow(db.Contents(), "", rs) && names == [""] + NamesOf(rs)
      decreases Count(query, '*')
    {
      hide TreeOk, ViewOf, Snap, VarPath, TameView, Closed, Listed, ListsBelow, Ext, Count, Within, NamesFor, Resolves,
        AllResolve, Flat, TrimDot;
      ghost var v := db.Contents();
      rs := [];
      ResolvesItself(v, query);
      if '*' !in query {
        return [query], [];
      }
      var i := FirstOf(query, '*');
      StarSplit(query);
      var parentName, remainQuery := query[..i], query[i + 1..];
      names := [parentName];
      var parent := TrimDot(parentName);
      WithinMore(v, h, Count(parent, '.'));
      var children;
      children, rs := AllChildNames(parent, h + Count(parent, '.'));
      ghost var parts := [];
      NoneResolved(v, remainQuery);
      for k := 0 to |children|
        invariant Valid() && db.at == old(db.at) && db.Contents() == v
        invariant StarFree(names) && names == [parentName] + Flat(parts)
        invariant AllResolve(v, remainQuery, children[..k], parts)
      {
        ChildStarFree(v, parentName, children, rs, k);
        StarFewer(children[k], remainQuery);
        var more, _ := ResolveWildCards(children[k] + remainQuery, h);
        AllResolveMore(v, remainQuery, children, k, parts, more);
        names := names + more;
        parts := parts + [more];
      }
      assert children[..|children|] == children;
      ResolvesAll(v, query, names, children, rs, parts);
      if query == "*" { StarNames(v, children, rs, parts); }
    }

    /** resolveVarNames. The names that an increment instruction generates are computed and dropped. */
    method ResolveVarNames(query: string, ghost h: nat) returns (ok: bool, names: seq<string>, ghost rs: seq<Path>)
      requires Valid() && Within(db.Contents(), h)
      modifies db`at, db.at.Values`childs
      ensures Valid() && db.at == old(db.at) && db.Contents() == old(db.Contents())
      ensures StarFree(names)
      ensures if HasIncrement(query) then (ok <==> !malformed(query)) && names == []
              else ok && Resolves(db.Contents(), query, names)
      ensures query == "*" ==> ok && ListsBelow(db.Contents(), "", rs) && names == [""] + NamesOf(rs)
    {
      hide TreeOk, ViewOf, Snap, VarPath, TameView, Closed, ListsBelow, Ext, Within, Resolves;
      ok, names, rs := true, [], [];
      if HasIncrement(query) {
        ok := !malformed(query);
      } else {
        names, rs := ResolveWildCards(query, h);
      }
    }

    /** VarHelper.IsLocked, on any store. */
    method IsLocked(name: string) returns (locked: bool)
      requires db.Valid()
      modifies db`at, db.at.Values`childs
      ensures db.Valid() && db.at == old(db.at) && db.Contents() == old(db.Contents())
      ensures locked <==> Locked(db.Contents(), name)
    {
      hide TreeOk, ViewOf, Snap, PathOf;
      var lockVal := db.Get(Controlled(name) + "._lock", "0");
      locked := lockVal != "0" && lockVal != "";
    }

    /** The words of setVar's name, one after another. */
    method WordsTooLong(name: string) returns (tooLong: bool)
      ensures tooLong <==> !WordsFit(limits, name)
    {
      hide SplitOn;
      if limits.maxWord > 0 {
        var parts := SplitOn(name, '.');
        for i := 0 to |parts|
          invariant forall j :: 0 <= j < i ==> |parts[j]| <= limits.maxWord
        {
          if |parts[i]| > limits.maxWord {
            return true;
          }
        }
      }
      tooLong := false;
    }

    /** setVar, on any store. Resolved names have no star, so that SetValue's own test for one never fails. */
    method SetOne(vname: string, value: string) returns (ok: bool)
      requires db.Valid() && '*' !in vname
      modifies db, db.at.Values
      ensures db.Valid() && fresh(db.at.Values - old(db.at.Values))
      ensures ok <==> Accepted(limits, Only(vname), value) && !Locked(old(db.Contents()), Only(vname))
      ensures db.Contents() == if ok then VarSet(old(db.Contents()), Only(vname), value) else old(db.Contents())
    {
      hide TreeOk, ViewOf, Snap, PathOf, SetAt, WordsFit, Only, Locked;
      ok := false;
      var name := GetOnly(vname);
      OnlyFacts(vname);
      if name == "" {
        return;
      }
      var underscoreDot := ContainsUnderscoreDot(name);
      if name[0] == '_' || underscoreDot {
        return;
      }
      if |name| > limits.maxKey || |value| > limits.maxValue {
        return;
      }
      var tooLong := WordsTooLong(name);
      if tooLong {
        return;
      }
      var locked := IsLocked(name);
      if locked {
        return;
      }
      db.Set(Controlled(name), value);
      ok := true;
    }

    /** SetVar: the names that the name stands for are set one after another, up to the first that is refused. */
    method SetVar(name: string, value: string) returns (ok: bool, ghost names: seq<string>, ghost made: Texts)
      requires Valid()
      modifies db, db.at.Values
      ensures Valid() && fresh(db.at.Values - old(db.at.Values))
      ensures db.Contents() == Stored(old(db.Contents()), made)
      ensures if HasIncrement(name) then (ok <==> !malformed(name)) && names == []
              else Resolves(old(db.Contents()), name, names)
      ensures |made| <= |names| && forall i :: 0 <= i < |made| ==> made[i] == (Only(names[i]), value)
      ensures forall e :: e in made ==> Made(limits, e)
      ensures names != [] ==>
                if ok then |made| == |names| else |made| < |names| && !Accepted(limits, Only(names[|made|]), value)
    {
      hide TreeOk, ViewOf, Snap, VarPath, TameView, Closed, SetAt, Only, ListsBelow, Made, Accepted, Within,
        Resolves, Locked, VarSet;
      ghost var h := Bound(db.Contents(), db.Contents().Keys);
      WithinBound(db.Contents(), h);
      ghost var rs;
      var vnames;
      ok, vnames, rs := ResolveVarNames(name, h);
      names, made := vnames, [];
      if !ok {
        return;
      }
      for i := 0 to |vnames|
        invariant Valid() && fresh(db.at.Values - old(db.at.Values)) && ok
        invariant db.Contents() == Stored(old(db.Contents()), made)
        invariant |made| == i && forall j :: 0 <= j < i ==> made[j] == (Only(vnames[j]), value)
        invariant forall e :: e in made ==> Made(limits, e)
      {
        assert vnames[i] in vnames;
        SetKeepsTame(db.Contents(), limits, vnames[i], value);
        ok := SetOne(vnames[i], value);
        if !ok {
          return;
        }
        StoredOne(old(db.Contents()), made, (Only(vnames[i]), value));
        made := made + [(Only(vnames[i]), value)];
      }
    }

    /** getVar: the value, empty when there is none. */
    method GetOne(name: string) returns (value: string)
      requires Valid()
      modifies db`at, db.at.Values`childs
      ensures Valid() && db.at == old(db.at) && db.Contents() == old(db.Contents())
      ensures value == ValueOf(db.Contents(), name)
    {
      hide TreeOk, ViewOf, Snap, PathOf, TameView, Closed;
      value := db.Get(Controlled(name), "");
    }

    /** GetVars on "*": every listed variable with a text, once. */
    method GetAllVars() returns (values: Texts)
      requires Valid()
      modifies db`at, db.at.Values`childs
      ensures Valid() && db.at == old(db.at) && db.Contents() == old(db.Contents())
      ensures HoldsTexts(db.Contents(), values)
    {
      hide TreeOk, ViewOf, Snap, VarPath, TameView, Closed, ListsBelow, Ext, Within, ValueOf, HoldsTexts;
      ghost var v := db.Contents();
      ghost var h := Bound(v, v.Keys);
      WithinBound(v, h);
      var ok, vnames;
      ghost var rs;
      ok, vnames, rs := ResolveVarNames("*", h);
      values := [];
      for i := 0 to |vnames|
        invariant Valid() && db.at == old(db.at) && db.Contents() == v
        invariant values == WithText(v, vnames[..i])
      {
        assert vnames[..i + 1][..i] == vnames[..i];
        var value := GetOne(vnames[i]);
        if value != "" {
          values := values + [(vnames[i], value)];
        }
      }
      assert vnames[..|vnames|] == vnames;
      AllTexts(v, rs);
    }
  }

  ghost function NamesOf(rs: seq<Path>): (names: seq<string>)
    ensures |names| == |rs| && forall i :: 0 <= i < |rs| ==> names[i] == Ext("", rs[i])
  {
    seq(|rs|, i requires 0 <= i < |rs| => Ext("", rs[i]))
  }

  function ValueOf(v: View, name: string): string {
    if VarPath(name) in v then v[VarPath(name)] else ""
  }

  /** The names whose variables have a text, with their texts. */
  function WithText(v: View, names: seq<string>): Texts {
    if names == [] then [] else
    var last := names[|names| - 1];
    WithText(v, names[..|names| - 1]) + if ValueOf(v, last) != "" then [(last, ValueOf(v, last))] else []
  }

  /** The listed names and the empty one, as far as they have a text, each once. */
  ghost predicate HoldsTexts(v: View, values: Texts) {
    && (forall i, j :: 0 <= i < j < |values| ==> values[i].0 != values[j].0)
    && forall n, t :: (n, t) in values <==>
         t != "" && t == ValueOf(v, n) && (n == "" || exists r :: r != [] && n == FullName(r) && Listed(v, "", r))
  }

  lemma {:induction false} WithTextFacts(v: View, names: seq<string>)
    requires forall i, j :: 0 <= i < j < |names| ==> names[i] != names[j]
    ensures forall n, t :: (n, t) in WithText(v, names) <==> n in names && t == ValueOf(v, n) && t != ""
    ensures forall i, j :: 0 <= i < j < |WithText(v, names)| ==> WithText(v, names)[i].0 != WithText(v, names)[j].0
    decreases |names|
  {
    hide ValueOf;
    if names != [] {
      var rest, last := names[..|names| - 1], names[|names| - 1];
      WithTextFacts(v, rest);
      assert names == rest + [last];
      forall e | e in WithText(v, rest) ensures e.0 != last {
        assert (e.0, e.1) in WithText(v, rest);
        var i :| 0 <= i < |rest| && rest[i] == e.0;
        assert names[i] == e.0;
      }
    }
  }

  /** Names of visible segments are told apart. */
  lemma NamesOnce(rs: seq<Path>)
    requires Once(rs) && forall r :: r in rs ==> r != [] && Visibles(r)
    ensures var names := [""] + NamesOf(rs); forall i, j :: 0 <= i < j < |names| ==> names[i] != names[j]
    ensures forall i :: 0 <= i < |rs| ==> NamesOf(rs)[i] == FullName(rs[i])
  {
    hide Ext, FullName, Visibles;
    forall i | 0 <= i < |rs|
      ensures NamesOf(rs)[i] == FullName(rs[i]) != "" && SplitOn(FullName(rs[i]), '.') == rs[i]
    {
      assert rs[i] in rs;
      ExtFullName(rs[i]);
      NameOfPath(rs[i]);
    }
  }

  lemma NamesAre(v: View, rs: seq<Path>, n: string)
    requires ListsBelow(v, "", rs) && forall i :: 0 <= i < |rs| ==> NamesOf(rs)[i] == FullName(rs[i])
    ensures n in [""] + NamesOf(rs) <==> n == "" || exists r :: r != [] && n == FullName(r) && Listed(v, "", r)
  {
    hide Listed, FullName, Ext, Once;
    var names := [""] + NamesOf(rs);
    if n in names && n != "" {
      var i :| 0 <= i < |names| && names[i] == n;
      assert rs[i - 1] in rs;
    }
    if r :| r != [] && n == FullName(r) && Listed(v, "", r) {
      var i :| 0 <= i < |rs| && rs[i] == r;
      assert names[i + 1] == n;
    }
    if n == "" { assert names[0] == n; }
  }

  lemma AllTexts(v: View, rs: seq<Path>)
    requires TameView(v) && ListsBelow(v, "", rs)
    ensures HoldsTexts(v, WithText(v, [""] + NamesOf(rs)))
  {
    hide ValueOf, VarPath, Listed, FullName, Visibles, WithText, NamesOf, TameView, Once;
    var names := [""] + NamesOf(rs);
    forall r | r in rs ensures r != [] && Visibles(r) { ListedVisible(v, r); }
    NamesOnce(rs);
    WithTextFacts(v, names);
    forall n ensures n in names <==> n == "" || exists r :: r != [] && n == FullName(r) && Listed(v, "", r) {
      NamesAre(v, rs, n);
    }
  }

  predicate Visibles(r: Path) {
    forall s :: s in r ==> Visible(s)
  }

  lemma ListedVisible(v: View, r: Path)
    requires TameView(v) && Listed(v, "", r)
    ensures Visibles(r)
  {
    hide VarPath, Ext;
    forall s | s in r ensures Visible(s) {
      var i :| 0 <= i < |r| && r[i] == s;
      TameChild(v, Ext("", r[..i]), s);
    }
  }

  /** A name of visible segments is split into them again. */
  lemma NameOfPath(r: Path)
    requires Visibles(r)
    ensures FullName(r) == Join(r) && (FullName(r) == "" <==> r == [])
    ensures r != [] ==> SplitOn(FullName(r), '.') == r && PathOf(FullName(r)) == r
  {
    hide FullName, Join, SplitOn, PathOf;
    FullNameIsJoin(r);
    if r != [] {
      SplitJoin(r);
      PathOfJoin(r);
    }
  }

  lemma {:induction false} SplitJoin(p: Path)
    requires p != [] && forall s :: s in p ==> IsSegment(s)
    ensures SplitOn(Join(p), '.') == p
  {
    var rest := if |p| == 1 then [] else "." + Join(p[1..]);
    assert p[0] in p && Join(p) == p[0] + rest;
    FirstOfIs(p[0], rest, '.');
    assert (p[0] + rest)[..|p[0]|] == p[0];
    if |p| > 1 {
      SplitJoin(p[1..]);
      assert (p[0] + rest)[|p[0]| + 1..] == Join(p[1..]);
    }
  }

  lemma WithinBound(v: View, h: nat)
    requires forall q :: q in v.Keys ==> |q| <= h
    ensures Within(v, h)
  {
  }

  lemma WithinMore(v: View, h: nat, n: nat)
    requires Within(v, h)
    ensures Within(v, h + n)
  {
  }

  lemma StarSplit(query: string)
    requires '*' in query
    ensures var i := FirstOf(query, '*');
            i < |query| && '*' !in query[..i] && Count(query[i + 1..], '*') < Count(query, '*')
            && (query == "*" ==> query[..i] == "" && query[i + 1..] == "")
  {
    hide Count, FirstOf;
    var i := FirstOf(query, '*');
    assert query[..|query|] == query;
    StarCounts(query[..i], query[i + 1..]);
    assert query == query[..i] + ['*'] + query[i + 1..];
    if query == "*" {
      assert '*' in query[..i + 1];
      assert i == 0;
    }
  }

  lemma StarCounts(a: string, b: string)
    ensures Count(a + ['*'] + b, '*') > Count(b, '*')
  {
    hide Count;
    CountAppend(a, ['*'], '*');
    CountAppend(a + ['*'], b, '*');
    CountOne('*');
  }

  lemma StarFewer(child: string, rest: string)
    requires '*' !in child
    ensures Count(child + rest, '*') == Count(rest, '*')
  {
    CountNone(child, '*');
    CountAppend(child, rest, '*');
  }

  lemma {:induction false} ExtStarFree(name: string, r: Path)
    requires '*' !in name && forall s :: s in r ==> '*' !in s
    ensures '*' !in Ext(name, r)
    decreases |r|
  {
    if r != [] {
      forall s | s in r[..|r| - 1] ensures s in r { }
      ExtStarFree(name, r[..|r| - 1]);
      assert r[|r| - 1] in r;
    }
  }

  lemma ListedStarFree(v: View, name: string, r: Path, rs: seq<Path>)
    requires TameView(v) && '*' !in name && r in rs && ListsBelow(v, name, rs)
    ensures '*' !in Ext(name, r)
  {
    hide VarPath, Ext;
    forall s | s in r ensures '*' !in s {
      var i :| 0 <= i < |r| && r[i] == s;
      assert Listed(v, name, r);
      TameChild(v, Ext(name, r[..i]), s);
    }
    ExtStarFree(name, r);
  }

  lemma ListedStart(v: View, name: string)
    ensures ListsUnder(v, name, {}, []) && NamesFor(name, [], [])
  {
  }

  lemma TameChild(v: View, name: string, k: string)
    requires TameView(v) && VarPath(name) + [k] in v
    ensures Tame(k) && '.' !in k && '*' !in k
  {
    hide VarPath;
    VarPathFacts(name);
    var p := VarPath(name) + [k];
    assert p[|p| - 1] in p;
  }
}
