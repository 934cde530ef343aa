/** Both sides of an observation stay in step: for each client and variable, the entries in the variable's observer
    list and the names in the client's list that lead to the variable are equal in number
    (sources/controller/controller.go:589-632, 703-711). */
module Balances {
  import opened DotPaths
  import opened Books

  function RemoveFirst<T(==)>(s: seq<T>, x: T): seq<T> {
    if s == [] then s else if s[0] == x then s[1..] else [s[0]] + RemoveFirst(s[1..], x)
  }

  /** The list without the pairs of client `c`, in order. */
  function Without(l: seq<Obs>, c: string): seq<Obs> {
    if l == [] then [] else (if l[0].client == c then [] else [l[0]]) + Without(l[1..], c)
  }

  lemma {:induction false} RemoveFirstAt<T>(s: seq<T>, x: T, i: nat)
    requires i < |s| && s[i] == x && x !in s[..i]
    ensures RemoveFirst(s, x) == Cut(s, i)
  {
    if i > 0 {
      assert s[0] in s[..i] && s[1..][..i - 1] == s[1..i];
      RemoveFirstAt(s[1..], x, i - 1);
      assert [s[0]] + Cut(s[1..], i - 1) == Cut(s, i);
    } else {
      assert s[1..] == Cut(s, 0);
    }
  }

  lemma {:induction false} RemoveFirstNone<T>(s: seq<T>, x: T)
    requires x !in s
    ensures RemoveFirst(s, x) == s
  {
    if s != [] { RemoveFirstNone(s[1..], x); }
  }

  lemma {:induction false} WithoutAppend(a: seq<Obs>, b: seq<Obs>, c: string)
    ensures Without(a + b, c) == Without(a, c) + Without(b, c)
  {
    if a == [] {
      assert a + b == b;
    } else {
      assert (a + b)[1..] == a[1..] + b;
      WithoutAppend(a[1..], b, c);
    }
  }

  /** Filtering keeps the pairs of the other clients, and none of this one. */
  lemma {:induction false} WithoutMembers(l: seq<Obs>, c: string)
    ensures forall o :: o in Without(l, c) <==> o in l && o.client != c
  {
    if l != [] {
      WithoutMembers(l[1..], c);
      assert forall o :: o in l <==> o == l[0] || o in l[1..];
    }
  }

  lemma {:induction false} WithoutNone(l: seq<Obs>, c: string)
    requires forall o :: o in l ==> o.client != c
    ensures Without(l, c) == l
  {
    if l != [] { WithoutNone(l[1..], c); }
  }

  lemma WithoutTwice(l: seq<Obs>, c: string)
    ensures Without(Without(l, c), c) == Without(l, c)
  {
    WithoutMembers(l, c);
    WithoutNone(Without(l, c), c);
  }

  /** One step of removing a client's pairs from the end of the list on. */
  lemma SweepOne(l: seq<Obs>, i: nat, c: string)
    requires i < |l| && forall s, t :: 0 <= s < t < |l| ==> l[s] != l[t]
    ensures var now := l[..i + 1] + Without(l[i + 1..], c);
            && now[i] == l[i]
            && l[..i] + Without(l[i..], c) == if l[i].client == c then RemoveFirst(now, l[i]) else now
  {
    hide Without, RemoveFirst;
    var rest := Without(l[i + 1..], c);
    var now := l[..i + 1] + rest;
    assert l[i..][1..] == l[i + 1..];
    WithoutFirst(l[i..], c);
    if l[i].client == c {
      assert now[..i] == l[..i];
      RemoveFirstAt(now, l[i], i);
      assert Cut(now, i) == l[..i] + rest;
    } else {
      assert l[..i] + ([l[i]] + rest) == now;
    }
  }

  lemma WithoutFirst(l: seq<Obs>, c: string)
    requires l != []
    ensures Without(l, c) == if l[0].client == c then Without(l[1..], c) else [l[0]] + Without(l[1..], c)
  {
  }

  // ----- Counting -----

  /** How many entries of client `c` the list has. */
  function Entries(l: seq<Obs>, c: string): nat {
    if l == [] then 0 else (if l[0].client == c then 1 else 0) + Entries(l[1..], c)
  }

  /** How many watched names lead to variable `n`. */
  function Watching(w: seq<string>, n: string): nat {
    if w == [] then 0 else (if Leads(w[0]) == n then 1 else 0) + Watching(w[1..], n)
  }

  ghost predicate InStep(b: Book, n: string, c: string) {
    Entries(ObsOf(b, n), c) == Watching(WatchedOf(b, c), n)
  }

  ghost predicate Balanced(b: Book) {
    forall n, c {:trigger InStep(b, n, c)} :: InStep(b, n, c)
  }

  lemma {:induction false} EntriesAppend(a: seq<Obs>, b: seq<Obs>, c: string)
    ensures Entries(a + b, c) == Entries(a, c) + Entries(b, c)
  {
    if a == [] {
      assert a + b == b;
    } else {
      assert (a + b)[1..] == a[1..] + b;
      EntriesAppend(a[1..], b, c);
    }
  }

  lemma {:induction false} WatchingAppend(a: seq<string>, b: seq<string>, n: string)
    ensures Watching(a + b, n) == Watching(a, n) + Watching(b, n)
  {
    hide Leads;
    if a == [] {
      assert a + b == b;
    } else {
      assert (a + b)[1..] == a[1..] + b;
      WatchingAppend(a[1..], b, n);
    }
  }

  lemma {:induction false} EntriesRemoved(l: seq<Obs>, o: Obs, c: string)
    ensures Entries(RemoveFirst(l, o), c) == Entries(l, c) - if o in l && o.client == c then 1 else 0
  {
    if l != [] && l[0] != o {
      EntriesRemoved(l[1..], o, c);
      assert o in l <==> o in l[1..];
      assert RemoveFirst(l, o)[1..] == RemoveFirst(l[1..], o);
    }
  }

  lemma {:induction false} WatchingRemoved(w: seq<string>, x: string, n: string)
    ensures Watching(RemoveFirst(w, x), n) == Watching(w, n) - if x in w && Leads(x) == n then 1 else 0
  {
    hide Leads;
    if w != [] && w[0] != x {
      WatchingRemoved(w[1..], x, n);
      assert x in w <==> x in w[1..];
      assert RemoveFirst(w, x)[1..] == RemoveFirst(w[1..], x);
    }
  }

  lemma {:induction false} EntriesNone(l: seq<Obs>, c: string)
    ensures Entries(l, c) == 0 <==> forall o :: o in l ==> o.client != c
  {
    if l != [] {
      EntriesNone(l[1..], c);
      assert forall o :: o in l <==> o == l[0] || o in l[1..];
    }
  }

  lemma {:induction false} WatchingNone(w: seq<string>, n: string)
    ensures Watching(w, n) == 0 <==> forall x :: x in w ==> Leads(x) != n
  {
    hide Leads;
    if w != [] {
      WatchingNone(w[1..], n);
      assert forall x :: x in w <==> x == w[0] || x in w[1..];
    }
  }

  lemma {:induction false} EntriesWithout(l: seq<Obs>, c: string, d: string)
    ensures Entries(Without(l, c), d) == if d == c then 0 else Entries(l, d)
  {
    if l != [] {
      EntriesWithout(l[1..], c, d);
      EntriesAppend(if l[0].client == c then [] else [l[0]], Without(l[1..], c), d);
      assert Entries([l[0]], d) == (if l[0].client == d then 1 else 0) + Entries([l[0]][1..], d);
    }
  }

  // ----- The three operations on books -----

  /** observeVar. */
  function Observed(b: Book, v: string, o: Obs): Book {
    var n := Controlled(v);
    if o in ObsOf(b, n) then b
    else WithWatched(WithObs(b, n, ObsOf(b, n) + [o]), o.client, WatchedOf(b, o.client) + ["vars." + v])
  }

  /** stopObservingVar. */
  function Stopped(b: Book, v: string, o: Obs): Book {
    var n := Controlled(v);
    WithWatched(WithObs(b, n, RemoveFirst(ObsOf(b, n), o)), o.client, RemoveFirst(WatchedOf(b, o.client), "vars." + v))
  }

  /** The pairs of client `c` taken out of the lists of the variables `names`. */
  function Swept(b: Book, names: set<string>, c: string): Book {
    b.(observers := map n | n in b.observers.Keys + names :: if n in names then Without(ObsOf(b, n), c)
        else ObsOf(b, n))
  }

  function Led(w: seq<string>): set<string> {
    set x | x in w :: Leads(x)
  }

  /** deleteClient. */
  function Deleted(b: Book, c: string): Book {
    var s := Swept(b, Led(WatchedOf(b, c)), c);
    s.(watched := s.watched - {c})
  }

  /** An observation keeps both sides in step. */
  lemma ObservedBalanced(b: Book, v: string, o: Obs)
    requires Balanced(b) && v != []
    ensures Balanced(Observed(b, v, o))
  {
    hide Leads, Controlled;
    LeadsBack(v);
    var n, b' := Controlled(v), Observed(b, v, o);
    var x := "vars." + v;
    if o !in ObsOf(b, n) {
      forall m, c ensures InStep(b', m, c) {
        assert InStep(b, m, c);
        EntriesAppend(ObsOf(b, n), [o], c);
        WatchingAppend(WatchedOf(b, o.client), [x], m);
        OneEntry(o, c);
        OneWatching(x, m);
      }
    }
  }

  lemma OneEntry(o: Obs, c: string)
    ensures Entries([o], c) == if o.client == c then 1 else 0
  {
    assert [o][1..] == [];
  }

  lemma OneWatching(x: string, n: string)
    ensures Watching([x], n) == if Leads(x) == n then 1 else 0
  {
    hide Leads;
    assert [x][1..] == [];
  }

  /** A stop keeps both sides in step exactly when the pair is registered with the variable if and only if the name is
      registered with the client. */
  lemma StoppedBalanced(b: Book, v: string, o: Obs)
    requires Balanced(b) && v != []
    ensures Balanced(Stopped(b, v, o)) <==> (o in ObsOf(b, Controlled(v)) <==> "vars." + v in WatchedOf(b, o.client))
  {
    hide Leads, Controlled;
    LeadsBack(v);
    var n, b', x := Controlled(v), Stopped(b, v, o), "vars." + v;
    forall m, c ensures InStep(b', m, c) <==> m != n || c != o.client || (o in ObsOf(b, n) <==> x in WatchedOf(b, c)) {
      assert InStep(b, m, c);
      EntriesRemoved(ObsOf(b, n), o, c);
      WatchingRemoved(WatchedOf(b, o.client), x, m);
    }
    assert InStep(b', n, o.client) <==> (o in ObsOf(b, n) <==> x in WatchedOf(b, o.client));
  }

  ghost predicate Mentions(l: seq<Obs>, c: string) {
    exists o :: o in l && o.client == c
  }

  /** What deleteClient leaves of a variable's list. */
  lemma DeletedList(b: Book, c: string, n: string)
    ensures ObsOf(Deleted(b, c), n) == if n in Led(WatchedOf(b, c)) then Without(ObsOf(b, n), c) else ObsOf(b, n)
  {
  }

  /** After deleteClient no list mentions the client if and only if every list that mentioned it belonged to a variable
      to which one of its watched names leads. */
  lemma DeletedClean(b: Book, c: string)
    ensures (forall n :: !Mentions(ObsOf(Deleted(b, c), n), c)) <==>
            (forall n :: Mentions(ObsOf(b, n), c) ==> n in Led(WatchedOf(b, c)))
  {
    forall n ensures !Mentions(ObsOf(Deleted(b, c), n), c)
        <==> (Mentions(ObsOf(b, n), c) ==> n in Led(WatchedOf(b, c))) {
      DeletedList(b, c, n);
      WithoutMembers(ObsOf(b, n), c);
    }
  }

  /** When both sides are in step that is so: after a client is deleted no variable's observer list mentions it, every
      list keeps its other pairs in order, and both sides are still in step. */
  lemma DeletedBalanced(b: Book, c: string)
    requires Balanced(b)
    ensures Balanced(Deleted(b, c))
    ensures forall n :: ObsOf(Deleted(b, c), n) == Without(ObsOf(b, n), c)
    ensures forall n :: !Mentions(ObsOf(Deleted(b, c), n), c)
    ensures WatchedOf(Deleted(b, c), c) == [] && forall d :: d != c ==> WatchedOf(Deleted(b, c), d) == WatchedOf(b, d)
  {
    hide Leads;
    var b' := Deleted(b, c);
    forall n ensures ObsOf(b', n) == Without(ObsOf(b, n), c) {
      assert InStep(b, n, c);
      DeletedList(b, c, n);
      if n !in Led(WatchedOf(b, c)) {
        WatchingNone(WatchedOf(b, c), n);
        EntriesNone(ObsOf(b, n), c);
        WithoutNone(ObsOf(b, n), c);
      }
    }
    forall n ensures !Mentions(ObsOf(b', n), c) { WithoutMembers(ObsOf(b, n), c); }
    forall n, d ensures InStep(b', n, d) {
      assert InStep(b, n, d);
      EntriesWithout(ObsOf(b, n), c, d);
    }
  }

  /** Sweeping one more variable. */
  lemma SweptMore(b: Book, names: set<string>, n: string, c: string)
    ensures Swept(b, names + {n}, c) == WithObs(Swept(b, names, c), n, Without(ObsOf(Swept(b, names, c), n), c))
  {
    WithoutTwice(ObsOf(b, n), c);
  }

  lemma SweptNone(b: Book, c: string)
    ensures Swept(b, {}, c) == b
  {
  }

  lemma EmptyBalanced()
    ensures Balanced(Book(map[], map[]))
  {
    hide Leads;
  }

  // ----- Runs -----

  datatype Op = Observe(v: string, o: Obs) | Stop(v: string, o: Obs) | Delete(client: string)

  function Step(b: Book, op: Op): Book {
    match op
    case Observe(v, o) => Observed(b, v, o)
    case Stop(v, o) => Stopped(b, v, o)
    case Delete(c) => Deleted(b, c)
  }

  function After(b: Book, ops: seq<Op>): Book {
    if ops == [] then b else Step(After(b, ops[..|ops| - 1]), ops[|ops| - 1])
  }

  /** Every stop in the run concerns an observation on both sides, or on neither. */
  ghost predicate Matched(b: Book, ops: seq<Op>) {
    forall i {:trigger ops[i]} :: 0 <= i < |ops| ==>
      (ops[i].Stop? ==>
         var (now, v, o) := (After(b, ops[..i]), ops[i].v, ops[i].o);
         o in ObsOf(now, Controlled(v)) <==> "vars." + v in WatchedOf(now, o.client))
  }

  ghost predicate AlwaysBalanced(b: Book, ops: seq<Op>) {
    forall i {:trigger After(b, ops[..i])} :: 0 <= i <= |ops| ==> Balanced(After(b, ops[..i]))
  }

  /** The two sides are in step at every moment of a run exactly when all its stops matched. */
  lemma {:induction false} RunBalanced(b: Book, ops: seq<Op>)
    requires Balanced(b) && forall i :: 0 <= i < |ops| && !ops[i].Delete? ==> ops[i].v != []
    ensures AlwaysBalanced(b, ops) <==> Matched(b, ops)
  {
    hide Balanced, Observed, Stopped, Deleted, Controlled;
    forall i | 0 <= i < |ops| ensures ops[..i + 1][..i] == ops[..i] { }
    if AlwaysBalanced(b, ops) {
      forall i | 0 <= i < |ops| && ops[i].Stop?
        ensures ops[i].o in ObsOf(After(b, ops[..i]), Controlled(ops[i].v))
            <==> "vars." + ops[i].v in WatchedOf(After(b, ops[..i]), ops[i].o.client)
      {
        assert Balanced(After(b, ops[..i]));
        assert ops[..i + 1][..i] == ops[..i];
        assert Balanced(After(b, ops[..i + 1]));
        StoppedBalanced(After(b, ops[..i]), ops[i].v, ops[i].o);
      }
    }
    if Matched(b, ops) {
      forall i | 0 <= i <= |ops| ensures Balanced(After(b, ops[..i])) { BalancedSoFar(b, ops, i); }
    }
  }

  lemma {:induction false} BalancedSoFar(b: Book, ops: seq<Op>, i: nat)
    requires Balanced(b) && Matched(b, ops) && i <= |ops|
    requires forall k :: 0 <= k < |ops| && !ops[k].Delete? ==> ops[k].v != []
    ensures Balanced(After(b, ops[..i]))
    decreases i
  {
    hide Balanced, Observed, Stopped, Deleted, Controlled;
    if i > 0 {
      BalancedSoFar(b, ops, i - 1);
      assert ops[..i][..i - 1] == ops[..i - 1];
      var now := After(b, ops[..i - 1]);
      match ops[i - 1] {
        case Observe(v, o) => ObservedBalanced(now, v, o);
        case Stop(v, o) => StoppedBalanced(now, v, o);
        case Delete(c) => DeletedBalanced(now, c);
      }
    }
  }

  /** A run that takes the two sides out of step: a client observes a variable and stops with other metadata.  Its pair
      stays with the variable, and the name is gone from the client's list. */
  lemma OneSidedStop()
    ensures var b, x, o := Book(map[], map[]), "x", Obs("c", "a");
            var b' := After(b, [Observe(x, o), Stop(x, Obs("c", "b"))]);
            !Balanced(b') && ObsOf(b', "vars.x") == [o] && WatchedOf(b', "c") == []
  {
    var b, x, o, other := Book(map[], map[]), "x", Obs("c", "a"), Obs("c", "b");
    var first, second := Observe(x, o), Stop(x, other);
    var b1, b2 := Step(b, first), Step(Step(b, first), second);
    AfterTwo(b, first, second);
    assert Controlled(x) == "vars.x" == "vars." + x;
    assert o.meta[0] != other.meta[0];
    EmptyBalanced();
    ObservedBalanced(b, x, o);
    StoppedBalanced(b1, x, other);
    assert ObsOf(b1, "vars.x") == [o] && WatchedOf(b1, "c") == ["vars.x"];
    RemoveFirstNone([o], other);
    RemoveFirstAt(["vars.x"], "vars.x", 0);
  }

  lemma AfterTwo(b: Book, first: Op, second: Op)
    ensures After(b, [first, second]) == Step(Step(b, first), second)
  {
    assert [first, second][..1] == [first] && [first][..0] == [];
    assert After(b, [first]) == Step(After(b, []), first);
  }
}
