/**
 The pieces of Go's string library the driver leans on. Go strings are byte
 strings, so one `char` here stands for one byte.
 */
module GoText {

  datatype Option<+T> = None | Some(value: T) {
    function GetOr(default: T): T {
      if Some? then value else default
    }
  }

  const MIN_INT := -0x8000_0000_0000_0000
  const MAX_INT := 0x7fff_ffff_ffff_ffff

  predicate IsInt(n: int) {
    MIN_INT <= n <= MAX_INT
  }

  // A Go map lookup: the zero value when the key is absent.
  function Lookup(m: map<string, string>, key: string): string {
    if key in m then m[key] else ""
  }

  // `label[:n]`, guarded by a length test as the driver always does.
  function Take(s: string, n: nat): string {
    if |s| <= n then s else s[..n]
  }

  // strings.SplitN(s, "-", 2): None when the separator is absent.
  function Cut(s: string): (r: Option<(string, string)>)
    ensures r.Some? <==> '-' in s
    ensures r.Some? ==> s == r.value.0 + "-" + r.value.1 && '-' !in r.value.0
  {
    if s == "" then None
    else if s[0] == '-' then Some(("", s[1..]))
    else
      match Cut(s[1..])
      case None => None
      case Some(p) => Some(([s[0]] + p.0, p.1))
  }

  lemma {:induction false} CutOfJoined(a: string, b: string)
    requires '-' !in a
    ensures Cut(a + "-" + b) == Some((a, b))
  {
    var s := a + "-" + b;
    if a == "" {
      assert s[1..] == b;
    } else {
      assert s[1..] == a[1..] + "-" + b;
      CutOfJoined(a[1..], b);
      assert [s[0]] + a[1..] == a;
    }
  }

  predicate IsDigit(c: char) {
    '0' <= c <= '9'
  }

  predicate AllDigits(s: string) {
    forall i :: 0 <= i < |s| ==> IsDigit(s[i])
  }

  function DigitChar(d: int): char
    requires 0 <= d < 10
  {
    "0123456789"[d]
  }

  function DigitValue(c: char): int {
    c as int - '0' as int
  }

  function DigitsValue(s: string): int {
    if s == "" then 0 else 10 * DigitsValue(s[..|s| - 1]) + DigitValue(s[|s| - 1])
  }

  function DecimalDigits(n: nat): string {
    if n < 10 then [DigitChar(n)] else DecimalDigits(n / 10) + [DigitChar(n % 10)]
  }

  // strconv.Itoa and the %d verb.
  function Itoa(n: int): string {
    if n < 0 then "-" + DecimalDigits(-n) else DecimalDigits(n)
  }

  // strconv.Atoi: an optional sign, at least one decimal digit, nothing else,
  // and a value that fits a 64-bit int.
  function Atoi(s: string): Option<int> {
    var signed := s != "" && (s[0] == '-' || s[0] == '+');
    var digits := if signed then s[1..] else s;
    if digits == "" || !AllDigits(digits) then None
    else
      var value := if signed && s[0] == '-' then -DigitsValue(digits) else DigitsValue(digits);
      if IsInt(value) then Some(value) else None
  }

  lemma {:induction false} DecimalDigitsReadBack(n: nat)
    ensures DecimalDigits(n) != "" && AllDigits(DecimalDigits(n))
    ensures DigitsValue(DecimalDigits(n)) == n
  {
    var s := DecimalDigits(n);
    if n < 10 {
      assert s[..|s| - 1] == "";
    } else {
      DecimalDigitsReadBack(n / 10);
      assert s[..|s| - 1] == DecimalDigits(n / 10);
    }
  }

  lemma AtoiOfDigits(digits: string)
    requires digits != "" && AllDigits(digits)
    ensures IsInt(DigitsValue(digits)) ==> Atoi(digits) == Some(DigitsValue(digits))
    ensures IsInt(-DigitsValue(digits)) ==> Atoi("-" + digits) == Some(-DigitsValue(digits))
  {
    assert IsDigit(digits[0]);
    assert ("-" + digits)[1..] == digits;
  }

  ghost predicate Spells(s: string, digits: string, n: int) {
    && digits != "" && AllDigits(digits)
    && ((s == digits && n == DigitsValue(digits))
        || (s == "+" + digits && n == DigitsValue(digits))
        || (s == "-" + digits && n == -DigitsValue(digits)))
  }

  // Atoi reads exactly the numbers of 64 bits spelled in digits, with or without a sign.
  lemma AtoiExactly(s: string, n: int)
    ensures Atoi(s) == Some(n) <==> IsInt(n) && exists digits :: Spells(s, digits, n)
  {
    if Atoi(s) == Some(n) {
      var signed := s[0] == '-' || s[0] == '+';
      var digits := if signed then s[1..] else s;
      assert signed ==> s == [s[0]] + digits;
      assert Spells(s, digits, n);
    }
    if digits :| IsInt(n) && Spells(s, digits, n) {
      assert IsDigit(digits[0]);
      assert s != digits ==> s[1..] == digits;
    }
  }

  // Printing and reading back an int is the identity on the 64-bit range.
  lemma AtoiOfItoa(n: int)
    requires IsInt(n)
    ensures Atoi(Itoa(n)) == Some(n)
  {
    var magnitude: nat := if n < 0 then -n else n;
    DecimalDigitsReadBack(magnitude);
    AtoiOfDigits(DecimalDigits(magnitude));
  }

  lemma NoDashInDigits(s: string)
    requires AllDigits(s)
    ensures '-' !in s
  {
  }
}
