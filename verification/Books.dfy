/** Who observes what: the lists that the entries of a database stand for, and what keeps the lists of the variables
    and the lists of the clients in step (sources/controller/controller.go:589-632, 703-711). */
module Books {
  import opened Numerals
  import opened DotPaths
  import opened Cells

  datatype Obs = Obs(client: string, meta: string)

  /** For every variable the list of its observers, and for every client the list of the names it watches. */
  datatype Book = Book(observers: map<string, seq<Obs>>, watched: map<string, seq<string>>)

  function ObsOf(b: Book, n: string): seq<Obs> {
    if n in b.observers then b.observers[n] else []
  }

  function WatchedOf(b: Book, c: string): seq<string> {
    if c in b.watched then b.watched[c] else []
  }

  /** GetObservingVars: a watched name without the prefix it was registered with. */
  function Stripped(w: string): string {
    if |w| > 5 && "vars." <= w then w[5..] else w
  }

  /** That is the name that was registered; any other name is left alone, and so is the bare prefix. */
  lemma StrippedBack(v: string)
    ensures v != [] ==> Stripped("vars." + v) == v
    ensures v == "vars." || !("vars." <= v) ==> Stripped(v) == v
  {
    assert ("vars." + v)[5..] == v;
  }

  /** The variable to which a watched name leads deleteClient. */
  function Leads(w: string): string {
    Controlled(Stripped(w))
  }

  /** A name registered with a client leads back to the variable that was observed. */
  lemma LeadsBack(v: string)
    requires v != []
    ensures Leads("vars." + v) == Controlled(v)
  {
    StrippedBack(v);
  }

  // ----- The entries that stand for a book -----

  ghost function IdKey(n: string, o: Obs): Key {
    ObsById(n, o.client, o.meta)
  }

  /** The reverse index gives `i` for the pair `o`. */
  ghost predicate IdAt(cells: Cells, n: string, o: Obs, i: nat) {
    IdKey(n, o) in cells && cells[IdKey(n, o)] == Itoa(i)
  }

  ghost predicate EntryKept(cells: Cells, n: string, l: seq<Obs>, i: nat) {
    if i < |l| then
      && ObsClient(n, i) in cells && cells[ObsClient(n, i)] == l[i].client
      && ObsMeta(n, i) in cells && cells[ObsMeta(n, i)] == l[i].meta
    else ObsClient(n, i) !in cells && ObsMeta(n, i) !in cells
  }

  /** A count that was never set stands for 0. */
  ghost predicate CountKept(cells: Cells, k: Key, x: nat) {
    if k in cells then cells[k] == Itoa(x) else x == 0
  }

  /** The entries of variable `n` hold the list `l`: dense, and with the reverse index of its pairs. */
  ghost predicate VarKept(cells: Cells, n: string, l: seq<Obs>) {
    && CountKept(cells, ObsCount(n), |l|)
    && (forall i: nat {:trigger EntryKept(cells, n, l, i)} :: EntryKept(cells, n, l, i))
    && (forall i {:trigger l[i]} :: 0 <= i < |l| ==>
          IdAt(cells, n, l[i], i) && IsSegment(l[i].client) && IsSegment(l[i].meta))
    && (forall o {:trigger IdKey(n, o)} :: IdKey(n, o) in cells ==> o in l)
  }

  ghost predicate WatchKept(cells: Cells, c: string, w: seq<string>, i: nat) {
    if i < |w| then WatchAt(c, i) in cells && cells[WatchAt(c, i)] == w[i] && VarName(Leads(w[i]))
    else WatchAt(c, i) !in cells
  }

  ghost predicate ClientKept(cells: Cells, c: string, w: seq<string>) {
    && CountKept(cells, WatchCount(c), |w|)
    && (forall i: nat {:trigger WatchKept(cells, c, w, i)} :: WatchKept(cells, c, w, i))
  }

  ghost predicate Kept(cells: Cells, b: Book) {
    && (forall n {:trigger VarKept(cells, n, ObsOf(b, n))} :: VarName(n) ==> VarKept(cells, n, ObsOf(b, n)))
    && (forall c {:trigger ClientKept(cells, c, WatchedOf(b, c))} ::
          IsSegment(c) ==> ClientKept(cells, c, WatchedOf(b, c)))
  }

  lemma EmptyKept()
    ensures Kept(map[], Book(map[], map[]))
  {
    hide VarName, IsSegment, VarKept, ClientKept;
    forall n ensures VarKept(map[], n, []) { NoVar(n); }
    forall c ensures ClientKept(map[], c, []) { NoClient(c); }
  }

  lemma NoVar(n: string)
    ensures VarKept(map[], n, [])
  {
  }

  lemma NoClient(c: string)
    ensures ClientKept(map[], c, [])
  {
  }

  /** What is read from a count entry. */
  lemma CountRead(cells: Cells, k: Key, x: nat)
    requires CountKept(cells, k, x)
    ensures GetInt64(if k in cells then cells[k] else "0") == x
  {
    ItoaRoundTrip(x);
    ItoaRoundTrip(0);
    assert Itoa(0) == "0";
  }

  /** The reverse index maps a pair to `i` exactly when list entry `i` is that pair. */
  lemma IndexExact(cells: Cells, n: string, l: seq<Obs>, o: Obs, i: nat)
    requires VarKept(cells, n, l)
    ensures IdAt(cells, n, o, i) <==> i < |l| && l[i] == o
  {
    if IdAt(cells, n, o, i) {
      var j :| 0 <= j < |l| && l[j] == o;
      assert IdAt(cells, n, l[j], j);
      ItoaInjective(i, j);
    }
  }

  /** A list determines its entries, those that are there and those that are not; counts alone may be absent for 0. */
  lemma EntriesDetermined(cells: Cells, other: Cells, n: string, l: seq<Obs>, k: Key)
    requires VarKept(cells, n, l) && VarKept(other, n, l)
    requires (k.ObsClient? || k.ObsMeta? || k.ObsById?) && k.name == n
    ensures (k in cells <==> k in other) && (k in cells ==> cells[k] == other[k])
  {
    if k.ObsById? {
      var o := Obs(k.client, k.meta);
      assert k == IdKey(n, o);
      if o in l {
        var i :| 0 <= i < |l| && l[i] == o;
        assert IdAt(cells, n, l[i], i) && IdAt(other, n, l[i], i);
      }
    } else {
      assert EntryKept(cells, n, l, k.i) && EntryKept(other, n, l, k.i);
    }
  }

  /** The observer list holds no pair twice. */
  lemma NoDuplicates(cells: Cells, n: string, l: seq<Obs>)
    requires VarKept(cells, n, l)
    ensures forall i, j :: 0 <= i < j < |l| ==> l[i] != l[j]
  {
    forall i, j | 0 <= i < j < |l| ensures l[i] != l[j] {
      assert IdAt(cells, n, l[i], i);
      IndexExact(cells, n, l, l[j], j);
      if l[i] == l[j] { ItoaInjective(i, j); }
    }
  }

  lemma SegmentsOf(cells: Cells, n: string, l: seq<Obs>)
    requires VarKept(cells, n, l)
    ensures forall o :: o in l ==> IsSegment(o.client) && IsSegment(o.meta)
  {
  }

  lemma EntryRead(cells: Cells, n: string, l: seq<Obs>, i: nat)
    requires VarKept(cells, n, l) && i < |l|
    ensures ObsClient(n, i) in cells && cells[ObsClient(n, i)] == l[i].client
    ensures ObsMeta(n, i) in cells && cells[ObsMeta(n, i)] == l[i].meta
  {
    assert EntryKept(cells, n, l, i);
  }

  /** HasValue on the index entry tells whether the pair is in the list. */
  lemma IndexTells(cells: Cells, n: string, l: seq<Obs>, o: Obs)
    requires VarKept(cells, n, l)
    ensures IdKey(n, o) in cells <==> o in l
  {
    if o in l {
      var i :| 0 <= i < |l| && l[i] == o;
      assert IdAt(cells, n, l[i], i);
    }
  }

  // ----- Changes to the entries of one variable -----

  ghost predicate OfVar(k: Key, n: string) {
    !k.WatchCount? && !k.WatchAt? && k.name == n
  }

  ghost predicate OfClient(k: Key, c: string) {
    (k.WatchCount? || k.WatchAt?) && k.client == c
  }

  ghost predicate Same(cells: Cells, cells': Cells, k: Key) {
    (k in cells <==> k in cells') && (k in cells ==> cells[k] == cells'[k])
  }

  ghost predicate OnlyVar(cells: Cells, cells': Cells, n: string) {
    forall k {:trigger Same(cells, cells', k)} :: !OfVar(k, n) ==> Same(cells, cells', k)
  }

  ghost predicate OnlyClient(cells: Cells, cells': Cells, c: string) {
    forall k {:trigger Same(cells, cells', k)} :: !OfClient(k, c) ==> Same(cells, cells', k)
  }

  lemma VarSame(cells: Cells, cells': Cells, n: string, l: seq<Obs>)
    requires VarKept(cells, n, l) && forall k :: OfVar(k, n) ==> Same(cells, cells', k)
    ensures VarKept(cells', n, l)
  {
    assert Same(cells, cells', ObsCount(n));
    forall i: nat ensures EntryKept(cells', n, l, i) {
      assert EntryKept(cells, n, l, i);
      assert Same(cells, cells', ObsClient(n, i)) && Same(cells, cells', ObsMeta(n, i));
    }
    forall i | 0 <= i < |l| ensures IdAt(cells', n, l[i], i) {
      assert Same(cells, cells', IdKey(n, l[i]));
    }
    forall o | IdKey(n, o) in cells' ensures o in l {
      assert Same(cells, cells', IdKey(n, o));
    }
  }

  lemma ClientSame(cells: Cells, cells': Cells, c: string, w: seq<string>)
    requires ClientKept(cells, c, w) && forall k :: OfClient(k, c) ==> Same(cells, cells', k)
    ensures ClientKept(cells', c, w)
  {
    assert Same(cells, cells', WatchCount(c));
    forall i: nat ensures WatchKept(cells', c, w, i) {
      assert WatchKept(cells, c, w, i);
      assert Same(cells, cells', WatchAt(c, i));
    }
  }

  function WithObs(b: Book, n: string, l: seq<Obs>): Book {
    b.(observers := b.observers[n := l])
  }

  function WithWatched(b: Book, c: string, w: seq<string>): Book {
    b.(watched := b.watched[c := w])
  }

  lemma VarChanged(cells: Cells, cells': Cells, b: Book, n: string, l: seq<Obs>)
    requires Kept(cells, b) && OnlyVar(cells, cells', n) && VarKept(cells', n, l)
    ensures Kept(cells', WithObs(b, n, l))
  {
    hide VarKept, ClientKept, Same, VarName, IsSegment;
    var b' := WithObs(b, n, l);
    forall m | VarName(m) ensures VarKept(cells', m, ObsOf(b', m)) {
      if m != n { VarSame(cells, cells', m, ObsOf(b, m)); }
    }
    forall c | IsSegment(c) ensures ClientKept(cells', c, WatchedOf(b', c)) {
      ClientSame(cells, cells', c, WatchedOf(b, c));
    }
  }

  lemma ClientChanged(cells: Cells, cells': Cells, b: Book, c: string, w: seq<string>)
    requires Kept(cells, b) && OnlyClient(cells, cells', c) && ClientKept(cells', c, w)
    ensures Kept(cells', WithWatched(b, c, w))
  {
    hide VarKept, ClientKept, Same, VarName, IsSegment;
    var b' := WithWatched(b, c, w);
    forall m | VarName(m) ensures VarKept(cells', m, ObsOf(b', m)) {
      VarSame(cells, cells', m, ObsOf(b, m));
    }
    forall d | IsSegment(d) ensures ClientKept(cells', d, WatchedOf(b', d)) {
      if d != c { ClientSame(cells, cells', d, WatchedOf(b, d)); }
    }
  }

  lemma VarOf(cells: Cells, b: Book, n: string)
    requires Kept(cells, b) && VarName(n)
    ensures VarKept(cells, n, ObsOf(b, n))
  {
  }

  lemma ClientOf(cells: Cells, b: Book, c: string)
    requires Kept(cells, b) && IsSegment(c)
    ensures ClientKept(cells, c, WatchedOf(b, c))
  {
  }

  lemma OnlyVarSame(cells: Cells, n: string)
    ensures OnlyVar(cells, cells, n)
  {
  }

  lemma OnlyVarMore(cells: Cells, cells': Cells, cells'': Cells, n: string)
    requires OnlyVar(cells, cells', n) && OnlyVar(cells', cells'', n)
    ensures OnlyVar(cells, cells'', n)
  {
    forall k | !OfVar(k, n) ensures Same(cells, cells'', k) {
      assert Same(cells, cells', k) && Same(cells', cells'', k);
    }
  }

  lemma OnlyClientSame(cells: Cells, c: string)
    ensures OnlyClient(cells, cells, c)
  {
  }

  lemma OnlyClientMore(cells: Cells, cells': Cells, cells'': Cells, c: string)
    requires OnlyClient(cells, cells', c) && OnlyClient(cells', cells'', c)
    ensures OnlyClient(cells, cells'', c)
  {
    forall k | !OfClient(k, c) ensures Same(cells, cells'', k) {
      assert Same(cells, cells', k) && Same(cells', cells'', k);
    }
  }

  lemma ClientDropped(cells: Cells, b: Book, c: string)
    requires Kept(cells, b)
    ensures Kept(WithoutClient(cells, c), b.(watched := b.watched - {c}))
  {
    hide VarKept, ClientKept, VarName, IsSegment;
    var cells', b' := WithoutClient(cells, c), b.(watched := b.watched - {c});
    forall n | VarName(n) ensures VarKept(cells', n, ObsOf(b', n)) { VarSame(cells, cells', n, ObsOf(b, n)); }
    forall d | IsSegment(d) ensures ClientKept(cells', d, WatchedOf(b', d)) {
      if d == c {
        NothingKept(cells', c);
      } else {
        ClientSame(cells, cells', d, WatchedOf(b, d));
      }
    }
  }

  lemma NothingKept(cells: Cells, c: string)
    requires forall k :: OfClient(k, c) ==> k !in cells
    ensures ClientKept(cells, c, [])
  {
    assert OfClient(WatchCount(c), c);
    forall i: nat ensures WatchKept(cells, c, [], i) { assert OfClient(WatchAt(c, i), c); }
  }

  lemma WatchRead(cells: Cells, c: string, w: seq<string>, i: nat)
    requires ClientKept(cells, c, w) && i < |w|
    ensures WatchAt(c, i) in cells && cells[WatchAt(c, i)] == w[i] && VarName(Leads(w[i]))
  {
    hide VarName, Leads;
    assert WatchKept(cells, c, w, i);
  }

  /** The numbers below a client's "observing" node are the places of its list. */
  lemma WatchNumbers(cells: Cells, c: string, w: seq<string>, names: set<string>)
    requires ClientKept(cells, c, w) && forall i: nat :: Itoa(i) in names <==> WatchAt(c, i) in cells
    ensures forall i: nat :: Itoa(i) in names <==> i < |w|
  {
    hide VarName, Leads, Itoa;
    forall i: nat ensures Itoa(i) in names <==> i < |w| {
      assert WatchKept(cells, c, w, i);
    }
  }

  // ----- Registering -----

  /** The pair `o` written as list entry `i`, with its index entry. */
  ghost function Placed(cells: Cells, n: string, o: Obs, i: nat): Cells {
    cells[ObsClient(n, i) := o.client][ObsMeta(n, i) := o.meta][IdKey(n, o) := Itoa(i)]
  }

  ghost function Registered(cells: Cells, n: string, o: Obs, i: nat): Cells {
    Placed(cells, n, o, i)[ObsCount(n) := Itoa(i + 1)]
  }

  lemma RegisteredKept(cells: Cells, n: string, l: seq<Obs>, o: Obs)
    requires VarKept(cells, n, l) && o !in l && IsSegment(o.client) && IsSegment(o.meta)
    ensures VarKept(Registered(cells, n, o, |l|), n, l + [o])
    ensures OnlyVar(cells, Registered(cells, n, o, |l|), n)
  {
    hide IsSegment;
    var cells', l' := Registered(cells, n, o, |l|), l + [o];
    forall i: nat ensures EntryKept(cells', n, l', i) { assert EntryKept(cells, n, l, i); }
    forall i | 0 <= i < |l'| ensures IdAt(cells', n, l'[i], i) && IsSegment(l'[i].client) && IsSegment(l'[i].meta) {
      if i < |l| { assert l'[i] == l[i] && l[i] in l && IdAt(cells, n, l[i], i); }
    }
    forall p | IdKey(n, p) in cells' ensures p in l' {
      if p != o { assert IdKey(n, p) in cells; }
    }
  }

  /** A registered pair keeps the book exactly when it was not in the list already. */
  lemma RegisteredBook(cells: Cells, b: Book, n: string, o: Obs)
    requires Kept(cells, b) && VarName(n) && IsSegment(o.client) && IsSegment(o.meta)
    ensures var l := ObsOf(b, n); Kept(Registered(cells, n, o, |l|), WithObs(b, n, l + [o])) <==> o !in l
  {
    hide VarKept, Kept, VarName, IsSegment, Registered, OnlyVar;
    var l := ObsOf(b, n);
    var cells', b' := Registered(cells, n, o, |l|), WithObs(b, n, l + [o]);
    VarOf(cells, b, n);
    if o !in l {
      RegisteredKept(cells, n, l, o);
      VarChanged(cells, cells', b, n, l + [o]);
    } else {
      var i :| 0 <= i < |l| && l[i] == o;
      assert (l + [o])[i] == (l + [o])[|l|];
      if Kept(cells', b') {
        VarOf(cells', b', n);
        NoDuplicates(cells', n, l + [o]);
      }
    }
  }

  ghost function WatchAdded(cells: Cells, c: string, i: nat, x: string): Cells {
    cells[WatchCount(c) := Itoa(i + 1)][WatchAt(c, i) := x]
  }

  lemma WatchAddedKept(cells: Cells, c: string, w: seq<string>, x: string)
    requires ClientKept(cells, c, w) && VarName(Leads(x))
    ensures ClientKept(WatchAdded(cells, c, |w|, x), c, w + [x])
    ensures OnlyClient(cells, WatchAdded(cells, c, |w|, x), c)
  {
    hide VarName, Leads;
    var cells', w' := WatchAdded(cells, c, |w|, x), w + [x];
    forall i: nat ensures WatchKept(cells', c, w', i) { assert WatchKept(cells, c, w, i); }
  }

  // ----- Shifting -----

  /** While the entries behind `i` move one place forward, up to place `j`. */
  function Shifted<T>(l: seq<T>, i: nat, j: nat): (r: seq<T>)
    requires i <= j < |l|
    ensures |r| == |l|
    ensures forall t :: 0 <= t < |l| ==> r[t] == if i <= t < j then l[t + 1] else l[t]
  {
    l[..i] + l[i + 1..j + 1] + l[j..]
  }

  function Cut<T>(l: seq<T>, i: nat): (r: seq<T>)
    requires i < |l|
    ensures |r| == |l| - 1
    ensures forall t :: 0 <= t < |r| ==> r[t] == if t < i then l[t] else l[t + 1]
  {
    l[..i] + l[i + 1..]
  }

  /** Where the reverse index points meanwhile. */
  function ShiftedIndex(t: nat, i: nat, j: nat): nat {
    if i < t <= j then t - 1 else t
  }

  ghost predicate Shifting(cells: Cells, n: string, l: seq<Obs>, i: nat, j: nat)
    requires i <= j < |l|
  {
    && CountKept(cells, ObsCount(n), |l|)
    && (forall t: nat {:trigger EntryKept(cells, n, Shifted(l, i, j), t)} :: EntryKept(cells, n, Shifted(l, i, j), t))
    && (forall t {:trigger l[t]} :: 0 <= t < |l| ==> IdAt(cells, n, l[t], ShiftedIndex(t, i, j)))
    && (forall o {:trigger IdKey(n, o)} :: IdKey(n, o) in cells ==> o in l)
  }

  lemma ShiftStart(cells: Cells, n: string, l: seq<Obs>, i: nat)
    requires i < |l| && VarKept(cells, n, l)
    ensures Shifting(cells, n, l, i, i)
  {
    hide IsSegment;
    assert Shifted(l, i, i) == l;
  }

  lemma ShiftStepEntry(cells: Cells, n: string, l: seq<Obs>, i: nat, j: nat, t: nat)
    requires i <= j && j + 1 < |l| && EntryKept(cells, n, Shifted(l, i, j), t)
    ensures EntryKept(Placed(cells, n, l[j + 1], j), n, Shifted(l, i, j + 1), t)
  {
    var a, b := Shifted(l, i, j), Shifted(l, i, j + 1);
    assert t < |l| && t != j ==> a[t] == b[t];
  }

  lemma ShiftStepIndex(cells: Cells, n: string, l: seq<Obs>, i: nat, j: nat, t: nat)
    requires i <= j && j + 1 < |l| && t < |l| && (t != j + 1 ==> l[t] != l[j + 1])
    requires IdAt(cells, n, l[t], ShiftedIndex(t, i, j))
    ensures IdAt(Placed(cells, n, l[j + 1], j), n, l[t], ShiftedIndex(t, i, j + 1))
  {
    hide IsSegment, Itoa;
  }

  lemma ShiftStep(cells: Cells, n: string, l: seq<Obs>, i: nat, j: nat)
    requires i <= j && j + 1 < |l| && Shifting(cells, n, l, i, j) && forall s, t :: 0 <= s < t < |l| ==> l[s] != l[t]
    ensures Shifting(Placed(cells, n, l[j + 1], j), n, l, i, j + 1)
    ensures OnlyVar(cells, Placed(cells, n, l[j + 1], j), n)
  {
    hide IsSegment, Itoa, EntryKept, IdAt, Shifted, ShiftedIndex;
    var k := j + 1;
    var cells' := Placed(cells, n, l[k], j);
    forall t: nat ensures EntryKept(cells', n, Shifted(l, i, k), t) {
      assert EntryKept(cells, n, Shifted(l, i, j), t);
      ShiftStepEntry(cells, n, l, i, j, t);
    }
    forall t | 0 <= t < |l| ensures IdAt(cells', n, l[t], ShiftedIndex(t, i, k)) {
      assert IdAt(cells, n, l[t], ShiftedIndex(t, i, j));
      ShiftStepIndex(cells, n, l, i, j, t);
    }
  }

  /** The entry that is moved next has not been overwritten. */
  lemma ShiftRead(cells: Cells, n: string, l: seq<Obs>, i: nat, j: nat)
    requires i <= j && j + 1 < |l| && Shifting(cells, n, l, i, j)
    ensures ObsClient(n, j + 1) in cells && cells[ObsClient(n, j + 1)] == l[j + 1].client
    ensures ObsMeta(n, j + 1) in cells && cells[ObsMeta(n, j + 1)] == l[j + 1].meta
  {
    assert EntryKept(cells, n, Shifted(l, i, j), j + 1);
  }

  ghost function ShiftedOut(cells: Cells, n: string, last: nat, gone: Obs): Cells {
    (cells - {ObsClient(n, last), ObsMeta(n, last)})[ObsCount(n) := Itoa(last)] - {IdKey(n, gone)}
  }

  lemma ShiftEndEntry(cells: Cells, n: string, l: seq<Obs>, i: nat, t: nat)
    requires i < |l| && EntryKept(cells, n, Shifted(l, i, |l| - 1), t)
    ensures EntryKept(ShiftedOut(cells, n, |l| - 1, l[i]), n, Cut(l, i), t)
  {
    var a, b := Shifted(l, i, |l| - 1), Cut(l, i);
    assert t < |b| ==> a[t] == b[t];
  }

  lemma ShiftEndIndex(cells: Cells, n: string, l: seq<Obs>, i: nat, u: nat)
    requires i < |l| && u < |l| && l[u] != l[i] && IdAt(cells, n, l[u], ShiftedIndex(u, i, |l| - 1))
    ensures IdAt(ShiftedOut(cells, n, |l| - 1, l[i]), n, l[u], if u < i then u else u - 1)
  {
    hide Itoa;
    assert u != i;
  }

  lemma ShiftEnd(cells: Cells, n: string, l: seq<Obs>, i: nat)
    requires i < |l| && Shifting(cells, n, l, i, |l| - 1) && forall s, t :: 0 <= s < t < |l| ==> l[s] != l[t]
    requires forall o :: o in l ==> IsSegment(o.client) && IsSegment(o.meta)
    ensures VarKept(ShiftedOut(cells, n, |l| - 1, l[i]), n, Cut(l, i))
    ensures OnlyVar(cells, ShiftedOut(cells, n, |l| - 1, l[i]), n)
  {
    hide IsSegment, Itoa, EntryKept, IdAt, Shifted, ShiftedIndex;
    var last := |l| - 1;
    var cells', b := ShiftedOut(cells, n, last, l[i]), Cut(l, i);
    forall t: nat ensures EntryKept(cells', n, b, t) {
      assert EntryKept(cells, n, Shifted(l, i, last), t);
      ShiftEndEntry(cells, n, l, i, t);
    }
    forall t | 0 <= t < |b| ensures IdAt(cells', n, b[t], t) && IsSegment(b[t].client) && IsSegment(b[t].meta) {
      var u := if t < i then t else t + 1;
      assert b[t] == l[u] && l[u] in l;
      assert IdAt(cells, n, l[u], ShiftedIndex(u, i, last));
      ShiftEndIndex(cells, n, l, i, u);
    }
    forall o | IdKey(n, o) in cells' ensures o in b {
      assert IdKey(n, o) in cells && o != l[i];
      CutHas(l, i, o);
    }
  }

  lemma CutHas<T>(l: seq<T>, i: nat, o: T)
    requires i < |l| && o in l && o != l[i]
    ensures o in Cut(l, i)
  {
    var u :| 0 <= u < |l| && l[u] == o;
    assert Cut(l, i)[if u < i then u else u - 1] == o;
  }

  ghost predicate WatchShifting(cells: Cells, c: string, w: seq<string>, i: nat, j: nat)
    requires i <= j < |w|
  {
    && CountKept(cells, WatchCount(c), |w|)
    && (forall t: nat {:trigger WatchKept(cells, c, Shifted(w, i, j), t)} :: WatchKept(cells, c, Shifted(w, i, j), t))
  }

  lemma WatchShiftStart(cells: Cells, c: string, w: seq<string>, i: nat)
    requires i < |w| && ClientKept(cells, c, w)
    ensures WatchShifting(cells, c, w, i, i)
  {
    hide VarName, Leads;
    assert Shifted(w, i, i) == w;
  }

  lemma WatchShiftRead(cells: Cells, c: string, w: seq<string>, i: nat, j: nat)
    requires i <= j && j + 1 < |w| && WatchShifting(cells, c, w, i, j)
    ensures WatchAt(c, j + 1) in cells && cells[WatchAt(c, j + 1)] == w[j + 1]
  {
    hide VarName, Leads;
    assert WatchKept(cells, c, Shifted(w, i, j), j + 1);
  }

  lemma WatchShiftStep(cells: Cells, c: string, w: seq<string>, i: nat, j: nat)
    requires i <= j && j + 1 < |w| && WatchShifting(cells, c, w, i, j)
    ensures WatchShifting(cells[WatchAt(c, j) := w[j + 1]], c, w, i, j + 1)
    ensures OnlyClient(cells, cells[WatchAt(c, j) := w[j + 1]], c)
  {
    hide VarName, Leads;
    var cells', a, b := cells[WatchAt(c, j) := w[j + 1]], Shifted(w, i, j), Shifted(w, i, j + 1);
    assert WatchKept(cells, c, a, j + 1);
    forall t: nat ensures WatchKept(cells', c, b, t) { assert WatchKept(cells, c, a, t); }
  }

  ghost function WatchShiftedOut(cells: Cells, c: string, last: nat): Cells {
    (cells - {WatchAt(c, last)})[WatchCount(c) := Itoa(last)]
  }

  lemma WatchShiftEnd(cells: Cells, c: string, w: seq<string>, i: nat)
    requires i < |w| && WatchShifting(cells, c, w, i, |w| - 1)
    ensures ClientKept(WatchShiftedOut(cells, c, |w| - 1), c, Cut(w, i))
    ensures OnlyClient(cells, WatchShiftedOut(cells, c, |w| - 1), c)
  {
    hide VarName, Leads;
    var cells', a, b := WatchShiftedOut(cells, c, |w| - 1), Shifted(w, i, |w| - 1), Cut(w, i);
    forall t: nat ensures WatchKept(cells', c, b, t) { assert WatchKept(cells, c, a, t); }
  }
}
