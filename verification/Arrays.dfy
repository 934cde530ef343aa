/** Objects whose members are numbered become arrays (sources/services/apis/httpapi/httpapi.go:531-578). */
module NumberedObjects {
  import opened Numerals
  import opened Options
  import opened NestedNames

  /** strconv.Atoi, on a 64-bit machine. */
  function Atoi(s: string): Option<int> {
    var signed := s != "" && (s[0] == '-' || s[0] == '+');
    var digits := if signed then s[1..] else s;
    if digits == "" || exists c :: c in digits && !IsDigit(c) then None else
    var size: int := Decimal(digits);
    var n := if signed && s[0] == '-' then -size else size;
    if -0x8000_0000_0000_0000 <= n < 0x8000_0000_0000_0000 then Some(n) else None
  }

  /** Each key once. */
  ghost predicate Orders(ks: set<string>, order: seq<string>) {
    (forall k :: k in order <==> k in ks) && forall i, j :: 0 <= i < j < |order| ==> order[i] != order[j]
  }

  /** Visited in this order the keys read 0, 1, 2 and so on. */
  ghost predicate Counts(order: seq<string>) {
    forall i :: 0 <= i < |order| ==> Atoi(order[i]) == Some(i)
  }

  /** What an object with these members becomes when its keys are visited in this order. */
  ghost function Outcome(kids: Members, order: seq<string>): Json
    requires Orders(kids.Keys, order)
  {
    if order != [] && Counts(order) then Arr(seq(|order|, i requires 0 <= i < |order| => kids[order[i]]))
    else Obj(kids)
  }

  /** The outcomes of normalizeArrays: Go visits the keys of an object in any order. */
  ghost predicate Normalized(j: Json, out: Json)
    decreases j
  {
    match j
    case Text(_) => out == j
    case Atom(_) => out == j
    case Arr(items) =>
      out.Arr? && |out.items| == |items| && forall i :: 0 <= i < |items| ==> Normalized(items[i], out.items[i])
    case Obj(m) =>
      exists kids: Members, order ::
        && kids.Keys == m.Keys && (forall k :: k in m ==> Normalized(m[k], kids[k]))
        && Orders(kids.Keys, order) && out == Outcome(kids, order)
  }

  /** The keys of a map in the order of a range loop over it. */
  method RangeOrder(ks: set<string>) returns (order: seq<string>)
    ensures Orders(ks, order)
  {
    order := [];
    var todo := ks;
    while todo != {}
      invariant todo <= ks && Orders(ks - todo, order)
      decreases todo
    {
      var k :| k in todo;
      order := order + [k];
      todo := todo - {k};
    }
    assert ks - todo == ks;
  }

  method NormalizeArrays(j: Json) returns (out: Json)
    ensures Normalized(j, out)
    decreases j, 1
  {
    hide Orders, Counts, Atoi;
    match j {
      case Text(_) => out := j;
      case Atom(_) => out := j;
      case Arr(items) =>
        var done: seq<Json> := [];
        for i := 0 to |items|
          invariant |done| == i && forall k :: 0 <= k < i ==> Normalized(items[k], done[k])
        {
          var item := NormalizeArrays(items[i]);
          done := done + [item];
        }
        out := Arr(done);
      case Obj(m) =>
        var kids := NormalizeMembers(m);
        var order := RangeOrder(m.Keys);
        out := NormalizeObject(kids, order);
    }
  }

  /** The first loop over an object: its members, one after another. */
  method NormalizeMembers(m: Members) returns (kids: Members)
    ensures kids.Keys == m.Keys && forall k :: k in m ==> Normalized(m[k], kids[k])
    decreases Obj(m), 0
  {
    kids := map[];
    var todo := m.Keys;
    while todo != {}
      invariant todo <= m.Keys && kids.Keys == m.Keys - todo
      invariant forall k :: k in kids ==> Normalized(m[k], kids[k])
      decreases todo
    {
      var k :| k in todo;
      var kid := NormalizeArrays(m[k]);
      kids := kids[k := kid];
      todo := todo - {k};
    }
  }

  /** The loops over the keys: each must be the number after the one before. */
  method NormalizeObject(kids: Members, order: seq<string>) returns (out: Json)
    requires Orders(kids.Keys, order)
    ensures out == Outcome(kids, order)
  {
    hide Atoi;
    if |order| == 0 {
      return Obj(kids);
    }
    var previousNum := -1;
    for i := 0 to |order|
      invariant previousNum == i - 1 && forall k :: 0 <= k < i ==> Atoi(order[k]) == Some(k)
    {
      var idx := Atoi(order[i]);
      if idx.None? || idx.value < 0 || idx.value != previousNum + 1 {
        return Obj(kids);
      }
      previousNum := idx.value;
    }
    var arr := seq(previousNum + 1, _ => Atom("null"));
    for i := 0 to |order|
      invariant |arr| == |order| && forall k :: 0 <= k < i ==> arr[k] == kids[order[k]]
    {
      assert order[i] in order;
      arr := arr[Atoi(order[i]).value := kids[order[i]]];
    }
    out := Arr(arr);
    assert forall i :: 0 <= i < |order| ==> order[i] in order;
    assert arr == seq(|order|, i requires 0 <= i < |order| => kids[order[i]]);
  }

  // ----- What an array holds -----

  /** A number is read from the text that strconv.Itoa writes for it. */
  lemma AtoiItoa(n: nat)
    requires n < 0x8000_0000_0000_0000
    ensures Atoi(Itoa(n)) == Some(n)
  {
    ItoaDecimal(n);
    var s := Itoa(n);
    assert s[0] in s;
  }

  /** So is a number with a sign or a leading zero, and none that is too large. */
  lemma AtoiSigned(n: int)
    requires n >= 0
    ensures n <= 0x8000_0000_0000_0000 ==> Atoi("-" + Itoa(n)) == Some(-n)
    ensures n < 0x8000_0000_0000_0000 ==> Atoi("+" + Itoa(n)) == Some(n) && Atoi("0" + Itoa(n)) == Some(n)
    ensures n >= 0x8000_0000_0000_0000 ==> Atoi(Itoa(n)) == None
  {
    hide Itoa, Decimal;
    ItoaDecimal(n);
    var t := Itoa(n);
    assert t[0] in t && ("-" + t)[1..] == t && ("+" + t)[1..] == t && ("0" + t)[0] == '0';
    LeadingZero(t);
  }

  lemma AtoiOther(s: string, c: char)
    ensures c in s && !IsDigit(c) && c != '-' && c != '+' ==> Atoi(s) == None
    ensures Atoi("") == None && Atoi("-") == None
  {
    if c in s {
      var i :| 0 <= i < |s| && s[i] == c;
      assert i > 0 ==> s[1..][i - 1] == c;
    }
  }

  /** An array that an object becomes has one item for each member, at the place that the member's name is the number
      of. */
  lemma ArrayItems(m: Members, out: Json)
    requires Normalized(Obj(m), out) && out.Arr?
    ensures |out.items| == |m|
    ensures forall k :: k in m ==> Atoi(k).Some? && 0 <= Atoi(k).value < |out.items|
    ensures forall k :: k in m ==> Normalized(m[k], out.items[Atoi(k).value])
  {
    hide Atoi, Normalized;
    var kids, order := ArrayOrder(m, out);
    OrderLength(m.Keys, order);
    forall k | k in m
      ensures Atoi(k).Some? && 0 <= Atoi(k).value < |out.items| && Normalized(m[k], out.items[Atoi(k).value])
    {
      assert k in order;
      var i :| 0 <= i < |order| && order[i] == k;
      assert Atoi(order[i]) == Some(i) && out.items[i] == kids[order[i]];
    }
  }

  lemma ArrayOrder(m: Members, out: Json) returns (kids: Members, order: seq<string>)
    requires Normalized(Obj(m), out) && out.Arr?
    ensures kids.Keys == m.Keys && (forall k :: k in m ==> Normalized(m[k], kids[k]))
    ensures Orders(kids.Keys, order) && Counts(order) && out == Outcome(kids, order)
  {
    hide Orders, Counts, Outcome;
    kids, order :|
      && kids.Keys == m.Keys && (forall k :: k in m ==> Normalized(m[k], kids[k]))
      && Orders(kids.Keys, order) && out == Outcome(kids, order);
    OutcomeArr(kids, order);
  }

  lemma OutcomeArr(kids: Members, order: seq<string>)
    requires Orders(kids.Keys, order) && Outcome(kids, order).Arr?
    ensures Counts(order)
  {
  }

  lemma {:induction false} OrderLength(ks: set<string>, order: seq<string>)
    requires Orders(ks, order)
    ensures |order| == |ks|
    decreases |order|
  {
    if order != [] {
      var rest, last := order[..|order| - 1], order[|order| - 1];
      assert last in order && order == rest + [last];
      forall k ensures k in rest <==> k in ks - {last} {
        if k in rest { var i :| 0 <= i < |rest| && rest[i] == k; assert order[i] == k; }
        if k in ks - {last} { assert k in order; }
      }
      OrderLength(ks - {last}, rest);
    } else {
      forall k ensures k !in ks { assert k !in order; }
      assert ks == {};
    }
  }

  // ----- The outcome that makes every array it can -----

  ghost predicate Numbered(ks: set<string>) {
    ks != {} && exists order :: Orders(ks, order) && Counts(order)
  }

  /** Some order of the keys, the counting one if there is one. */
  ghost function BestOrder(ks: set<string>): (order: seq<string>)
    ensures Orders(ks, order) && (Numbered(ks) ==> Counts(order))
  {
    AnyOrder(ks);
    if Numbered(ks) then (var order :| Orders(ks, order) && Counts(order); order)
    else (var order :| Orders(ks, order); order)
  }

  lemma {:induction false} AnyOrder(ks: set<string>)
    ensures exists order :: Orders(ks, order)
    decreases ks
  {
    if ks == {} {
      assert Orders(ks, []);
    } else {
      var k :| k in ks;
      AnyOrder(ks - {k});
      var order :| Orders(ks - {k}, order);
      assert Orders(ks, order + [k]);
    }
  }

  ghost function Settled(j: Json): Json
    decreases j
  {
    match j
    case Text(_) => j
    case Atom(_) => j
    case Arr(items) => Arr(seq(|items|, i requires 0 <= i < |items| => Settled(items[i])))
    case Obj(m) =>
      var kids := map k | k in m :: Settled(m[k]);
      assert kids.Keys == m.Keys;
      Outcome(kids, BestOrder(m.Keys))
  }

  /** No object anywhere in the document can become an array. */
  ghost predicate NoNumbers(j: Json)
    decreases j
  {
    match j
    case Text(_) => true
    case Atom(_) => true
    case Arr(items) => forall i :: 0 <= i < |items| ==> NoNumbers(items[i])
    case Obj(m) => !Numbered(m.Keys) && forall k :: k in m ==> NoNumbers(m[k])
  }

  lemma {:induction false} SettledOutcome(j: Json)
    ensures Normalized(j, Settled(j))
    decreases j
  {
    hide Orders, Counts, Numbered;
    match j {
      case Text(_) =>
      case Atom(_) =>
      case Arr(items) =>
        forall i | 0 <= i < |items| ensures Normalized(items[i], Settled(j).items[i]) { SettledOutcome(items[i]); }
      case Obj(m) =>
        var kids := map k | k in m :: Settled(m[k]);
        forall k | k in m ensures Normalized(m[k], kids[k]) { SettledOutcome(m[k]); }
        assert kids.Keys == m.Keys && Settled(j) == Outcome(kids, BestOrder(m.Keys));
    }
  }

  /** Without numbered objects every outcome is the document itself. */
  lemma {:induction false} NoNumbersStays(j: Json, out: Json)
    requires NoNumbers(j) && Normalized(j, out)
    ensures out == j
    decreases j
  {
    hide Orders, Counts, Numbered, Outcome;
    match j {
      case Text(_) =>
      case Atom(_) =>
      case Arr(items) =>
        forall i | 0 <= i < |items| ensures out.items[i] == items[i] { NoNumbersStays(items[i], out.items[i]); }
        assert out.items == items;
      case Obj(m) =>
        var kids: Members, order :|
          && kids.Keys == m.Keys && (forall k :: k in m ==> Normalized(m[k], kids[k]))
          && Orders(kids.Keys, order) && out == Outcome(kids, order);
        forall k | k in m ensures kids[k] == m[k] { NoNumbersStays(m[k], kids[k]); }
        assert kids == m;
        OutcomeStays(m, order);
    }
  }

  lemma OutcomeStays(m: Members, order: seq<string>)
    requires !Numbered(m.Keys) && Orders(m.Keys, order)
    ensures Outcome(m, order) == Obj(m)
  {
    if order != [] { assert order[0] in order; }
  }

  /** A document that settles as itself has no numbered object. */
  lemma {:induction false} SettledSame(j: Json)
    requires Settled(j) == j
    ensures NoNumbers(j)
    decreases j
  {
    hide Orders, Counts;
    match j {
      case Text(_) =>
      case Atom(_) =>
      case Arr(items) =>
        forall i | 0 <= i < |items| ensures NoNumbers(items[i]) {
          assert Settled(j).items[i] == Settled(items[i]);
          SettledSame(items[i]);
        }
      case Obj(m) =>
        SettledObject(m);
        forall k | k in m ensures NoNumbers(m[k]) { SettledSame(m[k]); }
    }
  }

  /** An object that stays one is not numbered, and its members settle by themselves. */
  lemma SettledObject(m: Members)
    ensures Settled(Obj(m)).Obj? <==> !Numbered(m.Keys)
    ensures Numbered(m.Keys) ==> Settled(Obj(m)).Arr?
    ensures !Numbered(m.Keys) ==> Settled(Obj(m)) == Obj(map k | k in m :: Settled(m[k]))
  {
    var order := BestOrder(m.Keys);
    if m.Keys != {} {
      var k :| k in m.Keys;
      assert k in order;
    }
    if order != [] { assert order[0] in order; }
  }

  /** Whatever the orders in which maps are visited, the outcome is `out`. */
  ghost predicate Always(j: Json, out: Json) {
    forall other :: Normalized(j, other) ==> other == out
  }

  lemma AlwaysSettled(j: Json, out: Json)
    requires Always(j, out)
    ensures Settled(j) == out
  {
    hide Settled;
    SettledOutcome(j);
    assert Normalized(j, Settled(j));
  }

  /** All outcomes are the document itself if and only if it has no numbered object. */
  lemma ArraysBack(j: Json)
    ensures Always(j, j) <==> NoNumbers(j)
  {
    hide NoNumbers, Settled;
    if Always(j, j) {
      AlwaysSettled(j, j);
      SettledSame(j);
    }
    if NoNumbers(j) {
      forall other | Normalized(j, other) ensures other == j { NoNumbersStays(j, other); }
    }
  }
}
