/** The database entries that keep observations, as a typed map, and how they lie in the tree of dotted names.
    Names are built by concatenation in controller_varhelper.go and controller_clienthelper.go. */
module Cells {
  import opened DotPaths
  import opened Numerals

  /** `name` is the full name of a variable, "vars." included; `client` and `meta` are single segments. */
  datatype Key =
    | ObsCount(name: string)                               // name._observers.list.count
    | ObsClient(name: string, i: nat)                      // name._observers.list.<i>.clientId
    | ObsMeta(name: string, i: nat)                        // name._observers.list.<i>.metadata
    | ObsById(name: string, client: string, meta: string)  // name._observers.byId.<client>.byMetadata.<meta>
    | WatchCount(client: string)                           // internal.clients.byId.<client>.observing.count
    | WatchAt(client: string, i: nat)                      // internal.clients.byId.<client>.observing.<i>

  function NameOf(k: Key): string {
    match k
    case ObsCount(n) => n + "._observers.list.count"
    case ObsClient(n, i) => n + "._observers.list." + Itoa(i) + ".clientId"
    case ObsMeta(n, i) => n + "._observers.list." + Itoa(i) + ".metadata"
    case ObsById(n, c, m) => n + "._observers.byId." + c + ".byMetadata." + m
    case WatchCount(c) => "internal.clients.byId." + c + ".observing.count"
    case WatchAt(c, i) => "internal.clients.byId." + c + ".observing." + Itoa(i)
  }

  /** A variable's name: segments that are not empty and do not start with an underscore, the first one "vars". */
  ghost predicate VarPath(p: Path) {
    |p| > 0 && p[0] == "vars" && forall s :: s in p ==> IsSegment(s) && s[0] != '_'
  }

  ghost predicate VarName(name: string) {
    VarPath(PathOf(name)) && Join(PathOf(name)) == name
  }

  ghost predicate KeyOk(k: Key) {
    match k
    case ObsById(n, c, m) => VarName(n) && IsSegment(c) && IsSegment(m)
    case WatchCount(c) => IsSegment(c)
    case WatchAt(c, _) => IsSegment(c)
    case _ => VarName(k.name)
  }

  /** The path of an entry, from the path of its variable or client. */
  ghost function PathAt(k: Key): Path {
    match k
    case ObsCount(n) => PathOf(n) + ["_observers", "list", "count"]
    case ObsClient(n, i) => PathOf(n) + ["_observers", "list", Itoa(i), "clientId"]
    case ObsMeta(n, i) => PathOf(n) + ["_observers", "list", Itoa(i), "metadata"]
    case ObsById(n, c, m) => PathOf(n) + ["_observers", "byId", c, "byMetadata", m]
    case WatchCount(c) => ["internal", "clients", "byId", c, "observing", "count"]
    case WatchAt(c, i) => ["internal", "clients", "byId", c, "observing", Itoa(i)]
  }

  lemma ItoaSegment(i: nat)
    ensures IsSegment(Itoa(i)) && Itoa(i) != "count"
  {
    assert Itoa(i)[0] in Itoa(i) && "count"[0] == 'c' && !IsDigit('c');
  }

  function Dotted(more: Path): string {
    if more == [] then "" else "." + more[0] + Dotted(more[1..])
  }

  /** A name continued by dotted segments means the path continued by these segments. */
  lemma {:induction false} PathOfMore(x: string, more: Path)
    requires x != [] && x[|x| - 1] != '.' && forall s :: s in more ==> IsSegment(s)
    ensures PathOf(x + Dotted(more)) == PathOf(x) + more
    decreases |more|
  {
    hide PathOf;
    if more == [] {
      assert x + "" == x;
    } else {
      var s, rest := more[0], more[1..];
      assert s in more && more == [s] + rest;
      PathOfDot(x, s);
      var y := x + "." + s;
      assert y[|y| - 1] == s[|s| - 1] && s[|s| - 1] in s;
      PathOfMore(y, rest);
      assert x + ("." + s + Dotted(rest)) == y + Dotted(rest);
      assert PathOf(x) + ([s] + rest) == (PathOf(x) + [s]) + rest;
    }
  }

  lemma DottedCons(a: string, rest: Path)
    ensures Dotted([a] + rest) == "." + a + Dotted(rest)
  {
  }

  lemma DottedThree(a: string, b: string, c: string)
    ensures Dotted([a, b, c]) == "." + a + "." + b + "." + c
  {
    DottedCons(c, []);
    DottedCons(b, [c]);
    DottedCons(a, [b, c]);
    assert [a, b, c] == [a] + [b, c] && [b, c] == [b] + [c] && [c] == [c] + [];
  }

  lemma DottedFour(a: string, b: string, c: string, d: string)
    ensures Dotted([a, b, c, d]) == "." + a + "." + b + "." + c + "." + d
  {
    hide Dotted;
    DottedThree(b, c, d);
    DottedCons(a, [b, c, d]);
    assert [a, b, c, d] == [a] + [b, c, d];
  }

  lemma DottedFive(a: string, b: string, c: string, d: string, e: string)
    ensures Dotted([a, b, c, d, e]) == "." + a + "." + b + "." + c + "." + d + "." + e
  {
    hide Dotted;
    DottedFour(b, c, d, e);
    DottedCons(a, [b, c, d, e]);
    assert [a, b, c, d, e] == [a] + [b, c, d, e];
  }

  lemma VarNameEnds(name: string)
    requires VarName(name)
    ensures name != [] && name[|name| - 1] != '.'
  {
    var p := PathOf(name);
    JoinEnds(p);
  }

  lemma {:induction false} JoinEnds(p: Path)
    requires p != [] && forall s :: s in p ==> IsSegment(s)
    ensures Join(p) != [] && Join(p)[|Join(p)| - 1] != '.'
  {
    assert p[0] in p;
    if |p| == 1 {
      assert p[0][|p[0]| - 1] in p[0];
    } else {
      JoinEnds(p[1..]);
    }
  }

  lemma VarKeyPath(n: string, more: Path)
    requires VarName(n) && forall s :: s in more ==> IsSegment(s)
    ensures PathOf(n + Dotted(more)) == PathOf(n) + more
  {
    VarNameEnds(n);
    PathOfMore(n, more);
  }

  lemma InternalKeyPath(more: Path)
    requires forall s :: s in more ==> IsSegment(s)
    ensures PathOf("internal" + Dotted(more)) == ["internal"] + more
  {
    PathOfOne("internal");
    PathOfMore("internal", more);
  }

  lemma ObsCountPath(n: string)
    requires VarName(n)
    ensures PathOf(NameOf(ObsCount(n))) == PathAt(ObsCount(n))
  {
    hide PathOf, IsSegment, Join, Dotted, VarName, Itoa;
    Constants();
    DottedThree("_observers", "list", "count");
    VarKeyPath(n, ["_observers", "list", "count"]);
    assert NameOf(ObsCount(n)) == n + Dotted(["_observers", "list", "count"]);
  }

  lemma ObsClientPath(n: string, i: nat)
    requires VarName(n)
    ensures PathOf(NameOf(ObsClient(n, i))) == PathAt(ObsClient(n, i))
  {
    hide PathOf, IsSegment, Join, Dotted, VarName, Itoa;
    Constants();
    ItoaSegment(i);
    DottedFour("_observers", "list", Itoa(i), "clientId");
    VarKeyPath(n, ["_observers", "list", Itoa(i), "clientId"]);
    assert NameOf(ObsClient(n, i)) == n + Dotted(["_observers", "list", Itoa(i), "clientId"]);
  }

  lemma ObsMetaPath(n: string, i: nat)
    requires VarName(n)
    ensures PathOf(NameOf(ObsMeta(n, i))) == PathAt(ObsMeta(n, i))
  {
    hide PathOf, IsSegment, Join, Dotted, VarName, Itoa;
    Constants();
    ItoaSegment(i);
    DottedFour("_observers", "list", Itoa(i), "metadata");
    VarKeyPath(n, ["_observers", "list", Itoa(i), "metadata"]);
    assert NameOf(ObsMeta(n, i)) == n + Dotted(["_observers", "list", Itoa(i), "metadata"]);
  }

  lemma Regroup(n: string, a: string, c: string, b: string, m: string, a1: string, a2: string, b1: string)
    requires a == "." + a1 + "." + a2 + "." && b == "." + b1 + "."
    ensures n + a + c + b + m == n + ("." + a1 + "." + a2 + "." + c + "." + b1 + "." + m)
  {
  }

  lemma ByIdTexts()
    ensures "._observers.byId." == "." + "_observers" + "." + "byId" + "."
    ensures ".byMetadata." == "." + "byMetadata" + "."
  {
  }

  lemma ObsByIdPath(n: string, c: string, m: string)
    requires VarName(n) && IsSegment(c) && IsSegment(m)
    ensures PathOf(NameOf(ObsById(n, c, m))) == PathAt(ObsById(n, c, m))
  {
    hide PathOf, IsSegment, Join, Dotted, VarName, Itoa;
    Constants();
    DottedFive("_observers", "byId", c, "byMetadata", m);
    VarKeyPath(n, ["_observers", "byId", c, "byMetadata", m]);
    ByIdTexts();
    Regroup(n, "._observers.byId.", c, ".byMetadata.", m, "_observers", "byId", "byMetadata");
  }

  lemma ClientsPrefix()
    ensures "internal.clients.byId." == "internal" + "." + "clients" + "." + "byId" + "."
  {
  }

  lemma ObservingText(c: string, more: string, x: string)
    requires more == ".observing." + x
    ensures "internal.clients.byId." + c + more == "internal"
        + ("." + "clients" + "." + "byId" + "." + c + "." + "observing" + "." + x)
  {
    ClientsPrefix();
    var clients := "." + "clients" + "." + "byId" + ".";
    assert "internal.clients.byId." == "internal" + clients;
    assert ".observing." + x == "." + "observing" + "." + x;
  }

  lemma WatchPath(c: string, x: string)
    requires IsSegment(c) && IsSegment(x)
    ensures PathOf("internal.clients.byId." + c + (".observing." + x))
        == ["internal", "clients", "byId", c, "observing", x]
  {
    hide PathOf, IsSegment, Join, Dotted, VarName, Itoa;
    Constants();
    var more := ["clients", "byId", c, "observing", x];
    DottedFive("clients", "byId", c, "observing", x);
    ObservingText(c, ".observing." + x, x);
    InternalKeyPath(more);
    assert ["internal"] + more == ["internal", "clients", "byId", c, "observing", x];
  }

  lemma WatchCountPath(c: string)
    requires IsSegment(c)
    ensures PathOf(NameOf(WatchCount(c))) == PathAt(WatchCount(c))
  {
    hide PathOf, IsSegment, Itoa;
    Constants();
    assert ".observing.count" == ".observing." + "count";
    WatchPath(c, "count");
  }

  lemma WatchAtPath(c: string, i: nat)
    requires IsSegment(c)
    ensures PathOf(NameOf(WatchAt(c, i))) == PathAt(WatchAt(c, i))
  {
    hide PathOf, IsSegment, Itoa;
    ItoaSegment(i);
    WatchPath(c, Itoa(i));
    var base := "internal.clients.byId." + c;
    assert base + ".observing." + Itoa(i) == base + (".observing." + Itoa(i));
  }

  /** The concatenated names mean these paths. */
  lemma NameIsPath(k: Key)
    requires KeyOk(k)
    ensures PathOf(NameOf(k)) == PathAt(k)
  {
    hide PathOf, IsSegment, VarName, NameOf, PathAt;
    match k {
      case ObsCount(n) => ObsCountPath(n);
      case ObsClient(n, i) => ObsClientPath(n, i);
      case ObsMeta(n, i) => ObsMetaPath(n, i);
      case ObsById(n, c, m) => ObsByIdPath(n, c, m);
      case WatchCount(c) => WatchCountPath(c);
      case WatchAt(c, i) => WatchAtPath(c, i);
    }
  }

  lemma SomeConstants()
    ensures IsSegment("_observers") && IsSegment("list") && IsSegment("count") && IsSegment("clientId")
    ensures IsSegment("metadata")
  {
  }

  lemma MoreConstants()
    ensures IsSegment("byId") && IsSegment("byMetadata") && IsSegment("clients") && IsSegment("observing")
  {
  }

  lemma Constants()
    ensures IsSegment("_observers") && IsSegment("list") && IsSegment("count") && IsSegment("clientId")
    ensures IsSegment("metadata") && IsSegment("byId") && IsSegment("byMetadata") && IsSegment("clients")
    ensures IsSegment("observing")
  {
    hide IsSegment;
    SomeConstants();
    MoreConstants();
  }

  // ----- Entries do not get in each other's way -----

  /** What comes behind "_observers" in the path of an entry of a variable. */
  ghost function ObsPart(k: Key): Path
    requires !k.WatchCount? && !k.WatchAt?
  {
    match k
    case ObsCount(_) => ["list", "count"]
    case ObsClient(_, i) => ["list", Itoa(i), "clientId"]
    case ObsMeta(_, i) => ["list", Itoa(i), "metadata"]
    case ObsById(_, c, m) => ["byId", c, "byMetadata", m]
  }

  lemma ObsPath(k: Key)
    requires !k.WatchCount? && !k.WatchAt?
    ensures PathAt(k) == PathOf(k.name) + ["_observers"] + ObsPart(k)
  {
    hide PathOf, Itoa;
    assert PathOf(k.name) + (["_observers"] + ObsPart(k)) == PathOf(k.name) + ["_observers"] + ObsPart(k);
  }

  lemma NoMarkInside(q: Path, s: Path, i: nat)
    requires VarPath(q) && i < |q|
    ensures (q + s)[i] != "_observers"
  {
    assert q[i] in q && "_observers"[0] == '_';
  }

  /** No segment of a variable's name starts with an underscore, so "_observers" marks where the name ends. */
  lemma NameEndsThere(p: Path, q: Path, r: Path, s: Path)
    requires VarPath(p) && VarPath(q) && p + ["_observers"] + r <= q + ["_observers"] + s
    ensures p == q && r <= s
  {
    var one, two := p + (["_observers"] + r), q + (["_observers"] + s);
    assert one == p + ["_observers"] + r && two == q + ["_observers"] + s;
    assert one == two[..|one|];
    assert one[|p|] == two[|p|] == "_observers";
    if |p| < |q| { NoMarkInside(q, ["_observers"] + s, |p|); }
    if |q| < |p| { NoMarkInside(p, ["_observers"] + r, |q|); }
    assert p == one[..|p|] == two[..|p|] == q;
    assert r == one[|p| + 1..] && s == two[|q| + 1..];
    assert r == s[..|r|];
  }

  lemma SameName(m: string, n: string)
    requires VarName(m) && VarName(n) && PathOf(m) == PathOf(n)
    ensures m == n
  {
  }

  /** A path into the observers of variable `n` is a beginning of an entry's path only for entries of `n`. */
  lemma UnderVar(n: string, r: Path, k: Key)
    requires VarName(n) && KeyOk(k) && PathOf(n) + ["_observers"] + r <= PathAt(k)
    ensures !k.WatchCount? && !k.WatchAt? && k.name == n && r <= ObsPart(k)
  {
    hide PathOf, Join, Itoa;
    var one := PathOf(n) + ["_observers"] + r;
    assert one[0] == "vars" && one[0] == PathAt(k)[0];
    ObsPath(k);
    NameEndsThere(PathOf(n), PathOf(k.name), r, ObsPart(k));
    SameName(n, k.name);
  }

  /** Different entries have different paths, and none lies below another. */
  lemma KeysApart(k: Key, l: Key)
    requires KeyOk(k) && KeyOk(l) && PathAt(k) <= PathAt(l)
    ensures k == l
  {
    hide PathOf, Join, Itoa;
    if k.WatchCount? || k.WatchAt? {
      WatchApart(k, l);
    } else {
      ObsPath(k);
      UnderVar(k.name, ObsPart(k), l);
      ObsPartsApart(k, l);
    }
  }

  lemma ObsPartsApart(k: Key, l: Key)
    requires KeyOk(k) && KeyOk(l) && !k.WatchCount? && !k.WatchAt? && !l.WatchCount? && !l.WatchAt?
    requires k.name == l.name && ObsPart(k) <= ObsPart(l)
    ensures k == l
  {
    hide PathOf, Join, Itoa, VarName;
    var a, b := ObsPart(k), ObsPart(l);
    assert a[0] == b[0] && a[1] == b[1];
    if k.ObsClient? || k.ObsMeta? {
      ItoaSegment(k.i);
      assert a[2] == b[2] && "clientId" != "metadata";
      ItoaInjective(k.i, l.i);
    } else if k.ObsCount? {
      if l.ObsClient? || l.ObsMeta? { ItoaSegment(l.i); }
    } else {
      assert |a| == 4 && a[3] == b[3];
    }
  }

  lemma FirstSegment(k: Key)
    requires KeyOk(k)
    ensures PathAt(k) != [] && PathAt(k)[0] == if k.WatchCount? || k.WatchAt? then "internal" else "vars"
  {
    hide PathOf, Join, Itoa;
  }

  lemma WatchApart(k: Key, l: Key)
    requires KeyOk(k) && KeyOk(l) && (k.WatchCount? || k.WatchAt?) && PathAt(k) <= PathAt(l)
    ensures k == l
  {
    hide PathOf, Join, Itoa;
    var a, b := PathAt(k), PathAt(l);
    FirstSegment(l);
    assert a[0] == b[0] == "internal" && a[3] == b[3] && a[5] == b[5];
    if k.WatchAt? { ItoaSegment(k.i); }
    if l.WatchAt? { ItoaSegment(l.i); }
    if k.WatchAt? && l.WatchAt? { ItoaInjective(k.i, l.i); }
  }

  /** list.<i>: the node that holds one list entry. */
  ghost function ListNode(n: string, i: nat): Path {
    PathOf(n) + ["_observers", "list", Itoa(i)]
  }

  /** internal.clients.byId.<c>: the node that holds everything about a client. */
  ghost function ClientNode(c: string): Path {
    ["internal", "clients", "byId", c]
  }

  /** Below a list node there are the two entries of that index, and no others. */
  lemma UnderListNode(n: string, i: nat, k: Key)
    requires VarName(n) && KeyOk(k)
    ensures ListNode(n, i) <= PathAt(k) <==> k == ObsClient(n, i) || k == ObsMeta(n, i)
  {
    hide PathOf, Join, Itoa;
    assert PathOf(n) + ["_observers", "list", Itoa(i)] == PathOf(n) + ["_observers"] + ["list", Itoa(i)];
    if ListNode(n, i) <= PathAt(k) {
      UnderVar(n, ["list", Itoa(i)], k);
      var b := ObsPart(k);
      assert b[0] == "list" && b[1] == Itoa(i);
      ItoaSegment(i);
      assert k.ObsClient? || k.ObsMeta?;
      ItoaInjective(i, k.i);
    }
  }

  lemma UnderClientNode(c: string, k: Key)
    requires KeyOk(k)
    ensures ClientNode(c) <= PathAt(k) <==> (k.WatchCount? || k.WatchAt?) && k.client == c
  {
    hide PathOf, Join, Itoa;
    FirstSegment(k);
    if ClientNode(c) <= PathAt(k) {
      assert PathAt(k)[0] == "internal" && PathAt(k)[3] == c;
    }
  }

  // ----- The typed map as a view of the database -----

  type Cells = map<Key, string>

  /** Nothing lies below an entry. */
  ghost predicate Leaf(v: View, k: Key) {
    forall q :: q in v && PathAt(k) <= q ==> q == PathAt(k)
  }

  /** internal.clients.byId.<c>.observing: its children are the count and the numbered entries. */
  ghost function ObservingNode(c: string): Path {
    ["internal", "clients", "byId", c, "observing"]
  }

  ghost predicate Number(s: string) {
    exists i: nat :: s == Itoa(i)
  }

  ghost predicate Numbered(v: View, c: string, s: string) {
    ObservingNode(c) + [s] in v ==> s == "count" || Number(s)
  }

  ghost predicate Agrees(v: View, cells: Cells, k: Key) {
    (k in cells <==> PathAt(k) in v) && (k in cells ==> cells[k] == v[PathAt(k)])
  }

  /** The typed map says, of every entry, whether it is there and what it holds. */
  ghost predicate Represents(v: View, cells: Cells) {
    && Closed(v) && (forall k :: k in cells ==> KeyOk(k))
    && (forall k {:trigger Agrees(v, cells, k)} :: KeyOk(k) ==> Agrees(v, cells, k))
    && (forall k {:trigger Leaf(v, k)} :: KeyOk(k) ==> Leaf(v, k))
    && (forall c, s {:trigger Numbered(v, c, s)} :: IsSegment(c) ==> Numbered(v, c, s))
  }

  lemma EmptyRepresents()
    ensures Represents(map[[] := ""], map[])
  {
    hide PathOf, Itoa, Join;
    var v: View := map[[] := ""];
    forall k | KeyOk(k) ensures Agrees(v, map[], k) && Leaf(v, k) { FirstSegment(k); }
    forall c, s ensures Numbered(v, c, s) { }
  }

  lemma UnderObservingNode(c: string, s: string, k: Key)
    requires IsSegment(c) && KeyOk(k) && ObservingNode(c) + [s] <= PathAt(k)
    ensures s == "count" || Number(s)
  {
    hide PathOf, Itoa, Join;
    FirstSegment(k);
    var p := ObservingNode(c) + [s];
    assert p[0] == PathAt(k)[0] == "internal";
    assert s == p[5] == PathAt(k)[5];
    if k.WatchAt? { assert Number(Itoa(k.i)); }
  }

  /** set on an entry's name changes that entry, and no other. */
  lemma SetCell(v: View, cells: Cells, k: Key, x: string)
    requires Represents(v, cells) && KeyOk(k)
    ensures Represents(SetAt(v, PathOf(NameOf(k)), x), cells[k := x])
  {
    hide PathOf, PathAt, NameOf, SetAt, KeyOk, Itoa;
    NameIsPath(k);
    SetAtFacts(v, PathAt(k), x);
    var w := SetAt(v, PathAt(k), x);
    forall l | KeyOk(l) ensures Agrees(w, cells[k := x], l) {
      assert Agrees(v, cells, l);
      if PathAt(l) <= PathAt(k) { KeysApart(l, k); }
    }
    forall l | KeyOk(l) ensures Leaf(w, l) { SetLeaf(v, w, k, l); }
    forall c, s | IsSegment(c) ensures Numbered(w, c, s) {
      assert Numbered(v, c, s);
      if ObservingNode(c) + [s] <= PathAt(k) { UnderObservingNode(c, s, k); }
    }
  }

  lemma SetLeaf(v: View, w: View, k: Key, l: Key)
    requires KeyOk(k) && KeyOk(l) && Leaf(v, l) && forall q :: q in w && q !in v && q != PathAt(k) ==> q <= PathAt(k)
    ensures Leaf(w, l)
  {
    hide PathOf, PathAt, KeyOk;
    forall q | q in w && PathAt(l) <= q ensures q == PathAt(l) {
      if q !in v {
        assert PathAt(l) <= PathAt(k);
        KeysApart(l, k);
      }
    }
  }

  /** Reading and testing an entry's name is reading and testing the entry. */
  lemma GetCell(v: View, cells: Cells, k: Key)
    requires Represents(v, cells) && KeyOk(k)
    ensures PathOf(NameOf(k)) in v <==> k in cells
    ensures k in cells ==> v[PathOf(NameOf(k))] == cells[k]
  {
    hide PathOf, PathAt, NameOf, KeyOk;
    NameIsPath(k);
    assert Agrees(v, cells, k);
  }

  /** Deleting a node takes away the entries at or below it, and no others. */
  lemma DeleteCells(v: View, cells: Cells, p: Path, gone: Cells, w: View)
    requires Represents(v, cells) && p != [] && w == DeleteAt(v, p, true)
    requires gone.Keys <= cells.Keys && forall k :: k in gone ==> gone[k] == cells[k]
    requires forall k :: k in cells ==> (k in gone <==> !(p <= PathAt(k)))
    ensures Represents(w, gone)
  {
    hide PathOf, PathAt, NameOf, KeyOk, DeleteAt, Itoa;
    DeleteAtFacts(v, p, true);
    forall k | KeyOk(k) ensures Agrees(w, gone, k) {
      assert Agrees(v, cells, k);
    }
    forall k | KeyOk(k) ensures Leaf(w, k) { assert Leaf(v, k); }
    forall c, s | IsSegment(c) ensures Numbered(w, c, s) { assert Numbered(v, c, s); }
  }

  /** A plain delete on an entry's name takes away that entry, because nothing lies below it. */
  lemma DeleteCell(v: View, cells: Cells, k: Key)
    requires Represents(v, cells) && KeyOk(k)
    ensures Represents(DeleteAt(v, PathOf(NameOf(k)), false), cells - {k})
  {
    hide PathOf, PathAt, NameOf, KeyOk, Itoa;
    NameIsPath(k);
    FirstSegment(k);
    var p := PathAt(k);
    assert Leaf(v, k) && Agrees(v, cells, k);
    assert p != [] by { FirstSegmentThere(k); }
    var w := DeleteAt(v, p, true);
    forall l | l in cells ensures l in cells - {k} <==> !(p <= PathAt(l)) {
      if p <= PathAt(l) { KeysApart(k, l); }
    }
    DeleteCells(v, cells, p, cells - {k}, w);
    LeafDelete(v, p);
  }

  lemma FirstSegmentThere(k: Key)
    ensures PathAt(k) != []
  {
    hide PathOf, Itoa;
  }

  /** Where nothing lies below a node, plain and cascade delete do the same. */
  lemma LeafDelete(v: View, p: Path)
    requires Closed(v) && p != [] && forall q :: q in v && p <= q ==> q == p
    ensures DeleteAt(v, p, false) == DeleteAt(v, p, true)
  {
    if p in v {
      forall q | q in v && q != [] ensures Parent(q) != p {
        assert Parent(q) <= q && |Parent(q)| < |q|;
      }
      assert forall q :: q in v ==> (p <= q <==> q == p);
    }
  }

  lemma ListNodePath(n: string, i: nat)
    requires VarName(n)
    ensures PathOf(n + "._observers.list." + Itoa(i)) == ListNode(n, i)
  {
    hide PathOf, IsSegment, Join, Dotted, VarName, Itoa;
    Constants();
    ItoaSegment(i);
    DottedThree("_observers", "list", Itoa(i));
    VarKeyPath(n, ["_observers", "list", Itoa(i)]);
    assert n + "._observers.list." + Itoa(i) == n + Dotted(["_observers", "list", Itoa(i)]);
  }

  lemma ListNodeGone(v: View, cells: Cells, n: string, i: nat)
    requires Represents(v, cells) && VarName(n)
    ensures Represents(DeleteAt(v, PathOf(n + "._observers.list." + Itoa(i)), true),
        cells - {ObsClient(n, i), ObsMeta(n, i)})
  {
    hide PathOf, Itoa, KeyOk, VarName, DeleteAt, PathAt;
    ListNodePath(n, i);
    var p := ListNode(n, i);
    forall k | k in cells ensures k in cells - {ObsClient(n, i), ObsMeta(n, i)} <==> !(p <= PathAt(k)) {
      UnderListNode(n, i, k);
    }
    DeleteCells(v, cells, p, cells - {ObsClient(n, i), ObsMeta(n, i)}, DeleteAt(v, p, true));
  }

  lemma ClientNodePath(c: string)
    requires IsSegment(c)
    ensures PathOf("internal.clients.byId." + c) == ClientNode(c)
  {
    hide PathOf, IsSegment, Join, Dotted;
    Constants();
    DottedThree("clients", "byId", c);
    ClientsPrefix();
    InternalKeyPath(["clients", "byId", c]);
    assert "internal.clients.byId." + c == "internal" + Dotted(["clients", "byId", c]);
  }

  ghost function WithoutClient(cells: Cells, c: string): Cells {
    map k | k in cells && !((k.WatchCount? || k.WatchAt?) && k.client == c) :: cells[k]
  }

  lemma ClientNodeGone(v: View, cells: Cells, c: string)
    requires Represents(v, cells) && IsSegment(c)
    ensures Represents(DeleteAt(v, PathOf("internal.clients.byId." + c), true), WithoutClient(cells, c))
  {
    hide PathOf, KeyOk, IsSegment, DeleteAt, PathAt;
    ClientNodePath(c);
    var p := ClientNode(c);
    forall k | k in cells ensures k in WithoutClient(cells, c) <==> !(p <= PathAt(k)) {
      UnderClientNode(c, k);
    }
    DeleteCells(v, cells, p, WithoutClient(cells, c), DeleteAt(v, p, true));
  }

  lemma ObservingNodePath(c: string)
    requires IsSegment(c)
    ensures PathOf("internal.clients.byId." + c + ".observing") == ObservingNode(c)
  {
    hide PathOf, IsSegment, Join, Dotted;
    Constants();
    DottedFour("clients", "byId", c, "observing");
    ClientsPrefix();
    InternalKeyPath(["clients", "byId", c, "observing"]);
    assert ".observing" == "." + "observing";
    RegroupClient("internal", "clients", "byId", c, "observing");
    assert ["internal"] + ["clients", "byId", c, "observing"] == ObservingNode(c);
  }

  lemma RegroupClient(a: string, b: string, d: string, c: string, e: string)
    ensures a + "." + b + "." + d + "." + c + ("." + e) == a + ("." + b + "." + d + "." + c + "." + e)
  {
  }

  /** The children of a client's "observing" node are the count and the numbers of the entries. */
  lemma WatchNamesAre(v: View, cells: Cells, c: string)
    requires Represents(v, cells) && IsSegment(c)
    ensures var p := PathOf("internal.clients.byId." + c + ".observing");
            && (forall s :: p + [s] in v ==> s == "count" || Number(s))
            && (forall i: nat :: p + [Itoa(i)] in v <==> WatchAt(c, i) in cells)
  {
    hide PathOf, IsSegment;
    ObservingNodePath(c);
    var p := ObservingNode(c);
    forall s | p + [s] in v ensures s == "count" || Number(s) {
      assert Numbered(v, c, s);
    }
    forall i: nat ensures p + [Itoa(i)] in v <==> WatchAt(c, i) in cells {
      assert Agrees(v, cells, WatchAt(c, i)) && PathAt(WatchAt(c, i)) == p + [Itoa(i)];
    }
  }
}
