/** Numbered names of tents and cooking patrols (internal/domain/event/tent.go, cooking_patrol.go). */
module Names {
  import opened Common

  // Go's int on the platforms the program targets.
  const INT_MIN := -0x8000_0000_0000_0000
  const INT_MAX := 0x7FFF_FFFF_FFFF_FFFF

  const TENT_PREFIX := "Tent "
  const PATROL_PREFIX := "Cooking "
  const ADULTS_NAME := "Adults"

  predicate IsDigit(c: char) {
    '0' <= c <= '9'
  }

  function DigitChar(d: nat): char
    requires d < 10
  {
    '0' + d as char
  }

  function DigitValue(c: char): nat
    requires IsDigit(c)
  {
    (c - '0') as nat
  }

  /** Decimal digits of a number, as the %d verb prints them. */
  function Decimal(n: nat): string {
    if n < 10 then [DigitChar(n)] else Decimal(n / 10) + [DigitChar(n % 10)]
  }

  function Itoa(n: int): string {
    if n < 0 then "-" + Decimal(-n) else Decimal(n)
  }

  predicate AllDigits(s: string) {
    forall i | 0 <= i < |s| :: IsDigit(s[i])
  }

  function DigitsValue(s: string): nat
    requires AllDigits(s)
  {
    if s == "" then 0
    else 10 * DigitsValue(s[..|s| - 1]) + DigitValue(s[|s| - 1])
  }

  /** strconv.Atoi: an optional sign, at least one digit, and a value that fits Go's int. */
  function Atoi(s: string): Option<int> {
    var signed := s != "" && (s[0] == '-' || s[0] == '+');
    var digits := if signed then s[1..] else s;
    if digits == "" || !AllDigits(digits) then None
    else
      var v: int := DigitsValue(digits);
      var n := if signed && s[0] == '-' then -v else v;
      if INT_MIN <= n <= INT_MAX then Some(n) else None
  }

  function NextName(prefix: string, n: int): string {
    prefix + Itoa(n)
  }

  function Number(prefix: string, name: string): Option<int> {
    if prefix <= name then Atoi(name[|prefix|..]) else None
  }

  /** Incrementing a Go int wraps around at the largest value. */
  function Increment(n: int): int {
    if n == INT_MAX then INT_MIN else n + 1
  }

  lemma {:induction false} DecimalDigits(n: nat)
    ensures Decimal(n) != "" && AllDigits(Decimal(n)) && DigitsValue(Decimal(n)) == n
  {
    var s := Decimal(n);
    if n >= 10 {
      DecimalDigits(n / 10);
      assert s[..|s| - 1] == Decimal(n / 10);
    } else {
      assert s[..0] == "";
    }
  }

  lemma AtoiInvertsItoa(n: int)
    requires INT_MIN <= n <= INT_MAX
    ensures Atoi(Itoa(n)) == Some(n)
  {
    var s := Itoa(n);
    if n < 0 {
      DecimalDigits(-n);
      assert s[0] == '-' && s[1..] == Decimal(-n);
    } else {
      DecimalDigits(n);
      assert IsDigit(s[0]);
    }
  }

  /** Parsing inverts printing for every Go int and either prefix. */
  lemma NumberInvertsNextName(prefix: string, n: int)
    requires INT_MIN <= n <= INT_MAX
    ensures Number(prefix, NextName(prefix, n)) == Some(n)
  {
    assert NextName(prefix, n)[|prefix|..] == Itoa(n);
    AtoiInvertsItoa(n);
  }

  lemma NextNameInjective(prefix: string, m: int, n: int)
    requires INT_MIN <= m <= INT_MAX && INT_MIN <= n <= INT_MAX
    requires NextName(prefix, m) == NextName(prefix, n)
    ensures m == n
  {
    NumberInvertsNextName(prefix, m);
    NumberInvertsNextName(prefix, n);
  }

  lemma {:induction false} NoLeadingZero(n: nat)
    requires n > 0
    ensures Decimal(n)[0] != '0'
  {
    DecimalDigits(n / 10);
    if n >= 10 {
      NoLeadingZero(n / 10);
      assert Decimal(n)[0] == Decimal(n / 10)[0];
    }
  }

  /** The names as people see them. */
  lemma PrintedNames()
    ensures NextName(TENT_PREFIX, 1) == "Tent 1" && NextName(PATROL_PREFIX, 12) == "Cooking 12"
    ensures Itoa(-305) == "-305" && Itoa(0) == "0" && ADULTS_NAME == "Adults"
    ensures Number(TENT_PREFIX, "Tent 7") == Some(7) && Number(TENT_PREFIX, "Tent") == None
  {
    assert Decimal(30) == "30" && Decimal(12) == "12";
    NumberInvertsNextName(TENT_PREFIX, 7);
    assert NextName(TENT_PREFIX, 7) == "Tent 7";
  }
}
