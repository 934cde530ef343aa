/** The decimal text in which counts and indices are stored (strconv.Itoa and DynamicVar.GetInt64). */
module Numerals {

  function Digit(d: nat): char
    requires d < 10
  {
    "0123456789"[d]
  }

  predicate IsDigit(c: char) {
    '0' <= c <= '9'
  }

  function Itoa(n: nat): (s: string)
    ensures s != [] && forall c :: c in s ==> IsDigit(c)
  {
    if n < 10 then [Digit(n)] else Itoa(n / 10) + [Digit(n % 10)]
  }

  /** The value of a string of digits. */
  function Decimal(s: string): nat
    requires forall c :: c in s ==> IsDigit(c)
    decreases |s|
  {
    if s == [] then 0 else
    var last := s[|s| - 1];
    assert last in s && IsDigit(last);
    10 * Decimal(s[..|s| - 1]) + (last as nat - '0' as nat)
  }

  /** DynamicVar.GetInt64: 0 for text that is no number. */
  function GetInt64(s: string): int {
    if s != [] && forall c :: c in s ==> IsDigit(c) then Decimal(s)
    else if |s| > 1 && (s[0] == '-' || s[0] == '+') && forall c :: c in s[1..] ==> IsDigit(c)
    then
      var size: int := Decimal(s[1..]);
      if s[0] == '-' then -size else size
    else 0
  }

  lemma {:induction false} ItoaDecimal(n: nat)
    ensures Decimal(Itoa(n)) == n
    decreases n
  {
    if n < 10 {
      assert [Digit(n)][..0] == [];
    } else {
      ItoaDecimal(n / 10);
      assert Itoa(n)[..|Itoa(n)| - 1] == Itoa(n / 10);
    }
  }

  /** What was stored as a number is read back as that number. */
  lemma ItoaRoundTrip(n: nat)
    ensures GetInt64(Itoa(n)) == n
  {
    ItoaDecimal(n);
  }

  /** A sign is read, and what is no number is read as 0. */
  lemma SignedText(n: int, s: string, c: char)
    requires n >= 0
    ensures GetInt64("-" + Itoa(n)) == -n && GetInt64("+" + Itoa(n)) == n && GetInt64("0" + Itoa(n)) == n
    ensures c in s && !IsDigit(c) && c != '-' && c != '+' ==> GetInt64(s) == 0
    ensures GetInt64("") == 0 && GetInt64("-") == 0
  {
    ItoaDecimal(n);
    var t := Itoa(n);
    assert ("-" + t)[1..] == t && ("+" + t)[1..] == t && ("-" + t)[0] in "-" + t && ("+" + t)[0] in "+" + t;
    LeadingZero(t);
    if c in s && |s| > 1 {
      var i :| 0 <= i < |s| && s[i] == c;
      assert i > 0 ==> s[1..][i - 1] == c;
    }
  }

  lemma {:induction false} LeadingZero(s: string)
    requires forall c :: c in s ==> IsDigit(c)
    ensures (forall c :: c in "0" + s ==> IsDigit(c)) && Decimal("0" + s) == Decimal(s)
    decreases |s|
  {
    if s == "" {
      assert "0" + s == "0" && "0"[..0] == "";
    } else {
      LeadingZero(s[..|s| - 1]);
      assert ("0" + s)[..|s|] == "0" + s[..|s| - 1];
    }
  }

  lemma ItoaInjective(m: nat, n: nat)
    requires Itoa(m) == Itoa(n)
    ensures m == n
  {
    ItoaDecimal(m);
    ItoaDecimal(n);
  }
}
