/** Dotted names as RamCachedDB reads them, and the map of paths that a database stands for
    (sources/services/storage/ramcacheddb.go:119-239). */
module DotPaths {

  type Path = seq<string>

  /** strings.Index(s, c), or the length when `c` does not occur. */
  function FirstOf(s: string, c: char): (i: nat)
    ensures i <= |s|
    ensures c !in s[..i] && (i < |s| ==> s[i] == c)
  {
    if s == [] || s[0] == c then 0 else
    var j := FirstOf(s[1..], c);
    assert s[..j + 1] == [s[0]] + s[1..][..j];
    j + 1
  }

  /** strings.Split at the character `c`. */
  function SplitOn(s: string, c: char): (parts: seq<string>)
    ensures |parts| > 0
  {
    var i := FirstOf(s, c);
    if i == |s| then [s] else [s[..i]] + SplitOn(s[i + 1..], c)
  }

  /** The segments scrollTree goes through: a single dot at the end adds none. */
  function PathOf(name: string): (p: Path)
    ensures |p| > 0
  {
    var i := FirstOf(name, '.');
    if i + 1 >= |name| then [name[..i]] else [name[..i]] + PathOf(name[i + 1..])
  }

  /** SetControlledVarName, without raw access: the name under which a variable is kept. A name that begins with "vars."
      is taken as it is. */
  function Controlled(v: string): string {
    if "vars." <= v then v else "vars." + v
  }

  /** A name is taken as it is exactly when it begins with "vars."; so it is once it has been made to. */
  lemma ControlledTwice(v: string)
    ensures "vars." <= Controlled(v) && Controlled(Controlled(v)) == Controlled(v)
    ensures Controlled(v) == v <==> "vars." <= v
    ensures Controlled(v) == v || Controlled(v) == "vars." + v
  {
  }

  predicate IsSegment(s: string) {
    s != [] && '.' !in s
  }

  /** The full name of a path, as dumpToStringLocked builds it. */
  function Join(p: Path): string {
    if p == [] then "" else if |p| == 1 then p[0] else p[0] + "." + Join(p[1..])
  }

  lemma {:induction false} FirstOfIs(a: string, b: string, c: char)
    requires c !in a && (b == [] || b[0] == c)
    ensures FirstOf(a + b, c) == |a|
  {
    if a == [] {
      assert a + b == b;
    } else {
      assert a[0] in a;
      FirstOfIs(a[1..], b, c);
      assert (a + b)[1..] == a[1..] + b;
    }
  }

  lemma PathOfOne(a: string)
    requires '.' !in a
    ensures PathOf(a) == [a] && PathOf(a + ".") == [a]
  {
    FirstOfIs(a, [], '.');
    assert a + [] == a && a[..|a|] == a;
    FirstOfIs(a, ".", '.');
    assert (a + ".")[..|a|] == a;
  }

  lemma PathOfCons(a: string, rest: string)
    requires '.' !in a && rest != []
    ensures PathOf(a + "." + rest) == [a] + PathOf(rest)
  {
    var name := a + ("." + rest);
    FirstOfIs(a, "." + rest, '.');
    assert name == a + "." + rest && name[..|a|] == a && name[|a| + 1..] == rest;
  }

  lemma SplitCons(a: string, rest: string, c: char)
    requires c !in a
    ensures SplitOn(a + [c] + rest, c) == [a] + SplitOn(rest, c)
  {
    var s := a + ([c] + rest);
    FirstOfIs(a, [c] + rest, c);
    assert s == a + [c] + rest && s[..|a|] == a && s[|a| + 1..] == rest;
  }

  /** A name is one segment, or a segment, a dot and a further name. */
  lemma Split(x: string) returns (a: string, rest: string)
    ensures '.' !in a
    ensures (x == a && rest == "") || x == a + "." + rest
    ensures |rest| < |x| || x == a
  {
    var i := FirstOf(x, '.');
    if i == |x| {
      a, rest := x, "";
      assert x[..i] == x;
    } else {
      a, rest := x[..i], x[i + 1..];
      assert x == x[..i] + [x[i]] + x[i + 1..];
    }
  }

  lemma {:induction false} PathOfJoin(p: Path)
    requires p != [] && forall s :: s in p ==> IsSegment(s)
    ensures PathOf(Join(p)) == p && Join(p) != [] && Join(p)[0] != '.'
  {
    assert p[0] in p;
    if |p| == 1 {
      PathOfOne(p[0]);
    } else {
      PathOfJoin(p[1..]);
      PathOfCons(p[0], Join(p[1..]));
      assert p == [p[0]] + p[1..];
    }
  }

  lemma {:induction false} JoinSnoc(p: Path, k: string)
    ensures Join(p + [k]) == if p == [] then k else Join(p) + "." + k
  {
    if p != [] {
      assert (p + [k])[1..] == p[1..] + [k];
      JoinSnoc(p[1..], k);
    }
  }

  /** The name under which a walk from the root down reaches a path: a dot goes in front of a segment unless nothing
      stands before it (dumpToStringLocked, and setJson in httpapi.go). */
  function FullName(p: Path): string
    decreases |p|
  {
    if p == [] then "" else
    var up := FullName(p[..|p| - 1]);
    (if up == "" then "" else up + ".") + p[|p| - 1]
  }

  lemma FullNameSnoc(p: Path, k: string)
    ensures FullName(p + [k]) == (if FullName(p) == "" then "" else FullName(p) + ".") + k
  {
    assert (p + [k])[..|p|] == p;
  }

  /** Where no segment is empty that is the segments joined by dots. */
  lemma {:induction false} FullNameIsJoin(p: Path)
    requires forall s :: s in p ==> s != ""
    ensures FullName(p) == Join(p) && (FullName(p) == "" <==> p == [])
    decreases |p|
  {
    if p != [] {
      var up, last := p[..|p| - 1], p[|p| - 1];
      assert p == up + [last] && last in p && |last| > 0;
      forall s | s in up ensures s != "" { assert s in p; }
      FullNameIsJoin(up);
      JoinSnoc(up, last);
    }
  }

  /** A further segment behind a dot. */
  lemma {:induction false} PathOfDot(x: string, s: string)
    requires x != [] && x[|x| - 1] != '.' && IsSegment(s)
    ensures PathOf(x + "." + s) == PathOf(x) + [s]
    decreases |x|
  {
    hide PathOf;
    var a, rest := Split(x);
    PathOfOne(s);
    if x == a {
      PathOfOne(a);
      PathOfCons(a, s);
    } else {
      assert rest != [] && rest[|rest| - 1] == x[|x| - 1];
      PathOfDot(rest, s);
      PathOfCons(a, rest);
      PathOfCons(a, rest + "." + s);
      assert x + "." + s == a + "." + (rest + "." + s);
    }
  }

  /** A name with a dot added at its end means the same path exactly when it did not end with one already. */
  lemma {:induction false} TrailingDot(x: string)
    ensures PathOf(x + ".") == PathOf(x) <==> x == [] || x[|x| - 1] != '.'
    decreases |x|
  {
    hide PathOf;
    var a, rest := Split(x);
    PathOfOne(a);
    if x == a {
      assert x != [] ==> x[|x| - 1] in x;
    } else if rest == [] {
      assert x == a + "." && x + "." == a + "." + ".";
      PathOfCons(a, ".");
    } else {
      TrailingDot(rest);
      PathOfCons(a, rest);
      PathOfCons(a, rest + ".");
      assert x + "." == a + "." + (rest + ".");
      assert rest[|rest| - 1] == x[|x| - 1];
      assert PathOf(x)[1..] == PathOf(rest) && PathOf(x + ".")[1..] == PathOf(rest + ".");
    }
  }

  // ----- The abstract database: a map from paths to values, closed under parents -----

  type View = map<Path, string>

  function Parent(p: Path): Path
    requires p != []
  {
    p[..|p| - 1]
  }

  function Last(p: Path): string
    requires p != []
  {
    p[|p| - 1]
  }

  ghost predicate Closed(v: View) {
    [] in v && forall p {:trigger Parent(p)} :: p in v && p != [] ==> Parent(p) in v
  }

  /** The nodes from `base` on along `rest` are there; new ones are empty. */
  function Ensured(v: View, base: Path, rest: Path): View
    decreases |rest|
  {
    if rest == [] then v else
    var q := base + [rest[0]];
    Ensured(if q in v then v else v[q := ""], q, rest[1..])
  }

  function SetAt(v: View, p: Path, x: string): View {
    Ensured(v, [], p)[p := x]
  }

  predicate HasChild(v: View, p: Path) {
    exists q :: q in v && q != [] && Parent(q) == p
  }

  function DeleteAt(v: View, p: Path, cascade: bool): View {
    if p !in v then v
    else if cascade then map q | q in v && !(p <= q) :: v[q]
    else if HasChild(v, p) then v[p := ""]
    else v - {p}
  }

  /** What set does: the one value, and empty values for the ancestors that were missing. */
  lemma {:induction false} EnsuredFacts(v: View, base: Path, rest: Path)
    requires Closed(v) && base in v
    ensures var w := Ensured(v, base, rest);
            && Closed(w) && base + rest in w
            && (forall q :: q in v ==> q in w && w[q] == v[q])
            && (forall q :: q in w && q !in v ==> w[q] == "" && base <= q <= base + rest)
    decreases |rest|
  {
    if rest == [] {
      assert base + rest == base;
    } else {
      var q := base + [rest[0]];
      var u := if q in v then v else v[q := ""];
      assert Parent(q) == base;
      assert Closed(u);
      EnsuredFacts(u, q, rest[1..]);
      assert q + rest[1..] == base + rest;
      assert base <= q;
    }
  }

  lemma SetAtFacts(v: View, p: Path, x: string)
    requires Closed(v)
    ensures var w := SetAt(v, p, x);
            && Closed(w) && p in w && w[p] == x
            && (forall q :: q in v && q != p ==> q in w && w[q] == v[q])
            && (forall q :: q in w && q !in v && q != p ==> w[q] == "" && q <= p)
  {
    EnsuredFacts(v, [], p);
    assert [] + p == p;
  }

  lemma {:induction false} Descends(v: View, p: Path, q: Path)
    requires Closed(v) && q in v && p <= q && p != q
    ensures p + [q[|p|]] in v
    decreases |q|
  {
    if |q| == |p| + 1 {
      assert q == p + [q[|p|]];
    } else {
      assert Parent(q) in v && p <= Parent(q) && Parent(q)[|p|] == q[|p|];
      Descends(v, p, Parent(q));
    }
  }

  /** Plain delete clears one value and drops the node when it has no children; cascade drops exactly the subtree. */
  lemma DeleteAtFacts(v: View, p: Path, cascade: bool)
    requires Closed(v) && p != []
    ensures var w := DeleteAt(v, p, cascade);
            && Closed(w)
            && (forall q :: q in v && !(p <= q) ==> q in w && w[q] == v[q])
            && (forall q :: q in w ==> q in v)
            && (cascade ==> forall q :: q in w ==> !(p <= q))
            && (!cascade ==> forall q :: q in v && q != p ==> q in w && w[q] == v[q])
            && (!cascade && p in w ==> HasChild(v, p) && w[p] == "")
  {
    var w := DeleteAt(v, p, cascade);
    if p in v {
      forall q | q in w && q != [] ensures Parent(q) in w {
        assert Parent(q) in v;
        if !cascade && Parent(q) == p { assert HasChild(v, p); }
        if p <= Parent(q) { assert p <= q; }
      }
      forall q | !cascade && !HasChild(v, p) && q in v && p <= q ensures q == p { Childless(v, p, q); }
    } else {
      forall q | q in v ensures !(p <= q) {
        if p <= q { UpwardClosed(v, q, p); }
      }
    }
  }

  lemma Childless(v: View, p: Path, q: Path)
    requires Closed(v) && q in v && p <= q
    ensures q == p || HasChild(v, p)
  {
    if q != p {
      Descends(v, p, q);
      assert Parent(p + [q[|p|]]) == p;
    }
  }

  /** A set can be undone by a plain delete where there was no node before. */
  lemma SetThenDelete(v: View, p: Path, x: string)
    requires Closed(v) && p != [] && p !in v && Parent(p) in v
    ensures DeleteAt(SetAt(v, p, x), p, false) == v
  {
    SetAtFacts(v, p, x);
    var w := SetAt(v, p, x);
    forall q | q in w && q != p ensures q in v {
      if q !in v { EnsuredWithin(v, p, q); }
    }
    forall q | q in w && q != [] ensures Parent(q) != p {
      assert q == p || Parent(q) in v;
    }
    assert w - {p} == v;
  }

  lemma EnsuredWithin(v: View, p: Path, q: Path)
    requires Closed(v) && p != [] && Parent(p) in v && q <= p && q != p
    ensures q in v
  {
    UpwardClosed(v, Parent(p), q);
  }

  lemma {:induction false} UpwardClosed(v: View, p: Path, q: Path)
    requires Closed(v) && p in v && q <= p
    ensures q in v
    decreases |p|
  {
    if p != q {
      assert Parent(p) in v && q <= Parent(p);
      UpwardClosed(v, Parent(p), q);
    }
  }
}
