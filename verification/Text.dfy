/** Decimal text, as produced by Go's `%d` and read back by `strconv.Atoi`. */
module Text {

  datatype Option<+T> = None | Some(value: T)

  const DIGITS := "0123456789"

  /** The largest and smallest values of Go's 64-bit `int`. */
  const MAX_INT := 0x7fff_ffff_ffff_ffff
  const MIN_INT := -0x8000_0000_0000_0000

  predicate IsDigit(c: char) {
    '0' <= c <= '9'
  }

  ghost predicate AllDigits(s: string) {
    forall i :: 0 <= i < |s| ==> IsDigit(s[i])
  }

  /** The decimal digits of a natural number, most significant first. */
  function Digits(n: nat): (s: string)
    ensures |s| > 0 && AllDigits(s)
  {
    if n < 10 then [DIGITS[n]] else Digits(n / 10) + [DIGITS[n % 10]]
  }

  /** What `%d` prints. */
  function Decimal(n: int): (s: string)
    ensures |s| > 0
  {
    if n < 0 then "-" + Digits(-n) else Digits(n)
  }

  /** The value of a string of decimal digits; None when some character is not a digit. */
  function ParseDigits(s: string): Option<nat> {
    if s == "" then Some(0)
    else
      var last := s[|s| - 1];
      var front := ParseDigits(s[..|s| - 1]);
      if front.None? || !IsDigit(last) then None
      else Some(front.value * 10 + (last as int - '0' as int))
  }

  /** `strconv.Atoi`: an optional sign, at least one digit, and a value that fits 64 bits. */
  function Atoi(s: string): Option<int> {
    var negative := |s| > 0 && s[0] == '-';
    var signed := negative || (|s| > 0 && s[0] == '+');
    var body := if signed then s[1..] else s;
    var magnitude := ParseDigits(body);
    if body == "" || magnitude.None? then None
    else
      var m: int := magnitude.value;
      var v := if negative then -m else m;
      if MIN_INT <= v <= MAX_INT then Some(v) else None
  }

  lemma {:induction false} ParseDigitsInverts(n: nat)
    ensures ParseDigits(Digits(n)) == Some(n)
  {
    var s := Digits(n);
    if n < 10 {
      assert s[..0] == "";
    } else {
      assert s[..|s| - 1] == Digits(n / 10);
      ParseDigitsInverts(n / 10);
    }
  }

  lemma AtoiOfDigits(s: string, m: int)
    requires s != "" && AllDigits(s) && m >= 0 && ParseDigits(s) == Some(m)
    ensures m <= MAX_INT ==> Atoi(s) == Some(m)
    ensures MIN_INT <= -m ==> Atoi("-" + s) == Some(-m)
  {
    assert IsDigit(s[0]);
    assert ("-" + s)[1..] == s;
  }

  /** Reading back a printed 64-bit integer yields that integer. */
  lemma AtoiInverts(n: int)
    requires MIN_INT <= n <= MAX_INT
    ensures Atoi(Decimal(n)) == Some(n)
  {
    var m := if n < 0 then -n else n;
    ParseDigitsInverts(m);
    AtoiOfDigits(Digits(m), m);
  }

  lemma DigitsInjective(m: nat, n: nat)
    requires Digits(m) == Digits(n)
    ensures m == n
  {
    ParseDigitsInverts(m);
    ParseDigitsInverts(n);
  }

  // ---- Which texts denote which number ---------------------------------------------------

  function Pow10(k: nat): nat {
    if k == 0 then 1 else 10 * Pow10(k - 1)
  }

  /** Counted from the right and from zero, the k-th digit of n is n / 10^k modulo 10; the first one is not zero. */
  lemma {:induction false} DigitAt(n: nat, k: nat)
    requires k < |Digits(n)|
    ensures Pow10(k) > 0 && Digits(n)[|Digits(n)| - 1 - k] == "0123456789"[(n / Pow10(k)) % 10]
    ensures n > 0 ==> Digits(n)[0] != '0'
  {
    DigitsSplit(n);
    if n >= 10 {
      DigitAt(n / 10, if k > 0 then k - 1 else 0);
      if k > 0 {
        FurtherDigit(n, k);
        DivideTwice(n, Pow10(k - 1));
      }
    }
  }

  lemma FurtherDigit(n: nat, k: nat)
    requires n >= 10 && 0 < k < |Digits(n)|
    ensures |Digits(n / 10)| == |Digits(n)| - 1
    ensures Digits(n)[|Digits(n)| - 1 - k] == Digits(n / 10)[|Digits(n / 10)| - 1 - (k - 1)]
  {
  }

  lemma DivideTwice(n: nat, m: nat)
    requires m > 0
    ensures n / 10 / m == n / (10 * m)
  {
    var q := n / 10 / m;
    assert n / 10 == q * m + (n / 10) % m;
    var r := n % 10 + 10 * ((n / 10) % m);
    assert n == q * (10 * m) + r;
    assert 0 <= r < 10 * m;
    QuotientIs(n, 10 * m, q, r);
  }

  lemma QuotientIs(n: nat, d: nat, q: nat, r: nat)
    requires d > 0 && n == q * d + r && r < d
    ensures n / d == q
  {
    var q' := n / d;
    assert n == q' * d + n % d;
    assert (q - q') * d == q * d - q' * d;
    SmallMultiple(q - q', d, n % d - r);
  }

  lemma SmallMultiple(a: int, d: nat, b: int)
    requires a * d == b && -(d as int) < b < d
    ensures a == 0
  {
    MultipleGrows(a, d);
  }

  lemma MultipleGrows(a: int, d: nat)
    ensures a >= 1 ==> a * d >= d
    ensures a <= -1 ==> -(a * d) >= d
  {
    if a >= 1 {
      assert (a - 1) * d >= 0;
    } else if a <= -1 {
      assert (-a - 1) * d >= 0;
    }
  }

  function Zeros(z: nat): (s: string)
    ensures |s| == z && AllDigits(s)
  {
    seq(z, _ => '0')
  }

  /** The digits of n, with any zeros in front. */
  ghost predicate Denotes(s: string, n: nat) {
    exists z: nat :: s == Zeros(z) + Digits(n)
  }

  lemma {:induction false} ParseZeros(z: nat)
    ensures ParseDigits(Zeros(z)) == Some(0)
  {
    if z > 0 {
      assert Zeros(z)[..z - 1] == Zeros(z - 1);
      ParseZeros(z - 1);
    }
  }

  /** One more digit behind a text that parses. */
  lemma ParseOneMore(front: string, m: nat, d: nat)
    requires d < 10 && ParseDigits(front) == Some(m)
    ensures ParseDigits(front + [DIGITS[d]]) == Some(10 * m + d)
  {
    var s := front + [DIGITS[d]];
    assert s[..|s| - 1] == front && s[|s| - 1] == DIGITS[d];
    DigitValue(d);
  }

  lemma DigitValue(d: nat)
    requires d < 10
    ensures IsDigit(DIGITS[d]) && DIGITS[d] as int - '0' as int == d
  {
  }

  lemma DigitsSplit(n: nat)
    ensures Digits(n) == (if n < 10 then "" else Digits(n / 10)) + [DIGITS[n % 10]]
  {
  }

  lemma {:induction false} ParsePadded(z: nat, n: nat)
    ensures ParseDigits(Zeros(z) + Digits(n)) == Some(n)
    decreases n
  {
    DigitsSplit(n);
    if n < 10 {
      ParseZeros(z);
      ParseOneMore(Zeros(z), 0, n);
      assert Zeros(z) + Digits(n) == Zeros(z) + [DIGITS[n]];
    } else {
      ParsePadded(z, n / 10);
      ParseOneMore(Zeros(z) + Digits(n / 10), n / 10, n % 10);
      assert Zeros(z) + Digits(n) == Zeros(z) + Digits(n / 10) + [DIGITS[n % 10]];
    }
  }

  /** s is the digits of n, with z zeros in front. */
  ghost predicate Padded(s: string, z: nat, n: nat) {
    s == Zeros(z) + Digits(n)
  }

  /** A text that parses is the digits of its value, with zeros in front. */
  lemma {:induction false} ParsedIsPadded(s: string, n: nat) returns (z: nat)
    requires s != "" && ParseDigits(s) == Some(n)
    ensures Padded(s, z, n)
    decreases |s|, 1
  {
    var front, f, d := LastParsed(s, n);
    z := PaddedBehind(front, f, d);
  }

  lemma {:induction false} PaddedBehind(front: string, f: nat, d: nat) returns (z: nat)
    requires ParseDigits(front) == Some(f) && d < 10 && (front == "" ==> f == 0)
    ensures Padded(front + Digits(d), z, 10 * f + d)
    decreases |front| + 1, 0
  {
    if front == "" {
      z := 0;
      NotPadded(front, d);
    } else {
      var y := ParsedIsPadded(front, f);
      z := if f == 0 then y + 1 else y;
      StillPadded(front, y, f, d);
    }
  }

  lemma NotPadded(front: string, d: nat)
    requires front == ""
    ensures Padded(front + Digits(d), 0, d)
  {
  }

  lemma StillPadded(front: string, z: nat, f: nat, d: nat)
    requires Padded(front, z, f) && d < 10
    ensures Padded(front + Digits(d), if f == 0 then z + 1 else z, 10 * f + d)
  {
    PaddedMore(z, f, d);
  }

  lemma LastParsed(s: string, n: nat) returns (front: string, f: nat, d: nat)
    requires s != "" && ParseDigits(s) == Some(n)
    ensures |front| < |s| && s == front + Digits(d) && ParseDigits(front) == Some(f)
    ensures d < 10 && n == 10 * f + d && (front == "" ==> f == 0)
  {
    var last := s[|s| - 1];
    front := s[..|s| - 1];
    f := ParseDigits(front).value;
    d := last as int - '0' as int;
    DigitValue(d);
    assert Digits(d) == [last];
  }

  lemma PaddedMore(z: nat, f: nat, d: nat)
    requires d < 10
    ensures Zeros(z) + Digits(f) + Digits(d) == Zeros(if f == 0 then z + 1 else z) + Digits(10 * f + d)
  {
    if f > 0 {
      DigitsOfMore(f, d);
      assert Zeros(z) + Digits(f) + Digits(d) == Zeros(z) + (Digits(f) + Digits(d));
    } else {
      assert Zeros(z) + Digits(0) == Zeros(z + 1);
    }
  }

  lemma DigitsOfMore(f: nat, d: nat)
    requires d < 10 && f > 0
    ensures Digits(10 * f + d) == Digits(f) + Digits(d)
  {
    var n := 10 * f + d;
    assert n / 10 == f && n % 10 == d;
  }

  /** What `Atoi` reads: an optional sign and the digits of a 64-bit number, with any zeros in front. */
  ghost predicate IsNumeral(s: string, v: int) {
    && -0x8000_0000_0000_0000 <= v <= 0x7fff_ffff_ffff_ffff
    && (|| (v >= 0 && Denotes(s, v))
        || (v >= 0 && |s| > 0 && s[0] == '+' && Denotes(s[1..], v))
        || (v <= 0 && |s| > 0 && s[0] == '-' && Denotes(s[1..], -v)))
  }

  lemma DenotesParses(s: string, n: nat)
    ensures Denotes(s, n) <==> s != "" && ParseDigits(s) == Some(n)
  {
    if Denotes(s, n) {
      var z: nat :| s == Zeros(z) + Digits(n);
      ParsePadded(z, n);
    } else if s != "" && ParseDigits(s) == Some(n) {
      var z := ParsedIsPadded(s, n);
    }
  }

  /** The digits begin with a digit, so no text is a number both with and without a sign. */
  lemma DenotesUnsigned(s: string, n: nat)
    requires Denotes(s, n)
    ensures s != "" && IsDigit(s[0])
  {
  }

  /** What `Atoi` makes of the text behind the sign. */
  function Signed(negative: bool, body: string): Option<int> {
    var magnitude := ParseDigits(body);
    if body == "" || magnitude.None? then None
    else
      var m: int := magnitude.value;
      var v := if negative then -m else m;
      if MIN_INT <= v <= MAX_INT then Some(v) else None
  }

  lemma SignedExactly(negative: bool, body: string, v: int)
    ensures Signed(negative, body) == Some(v) <==>
              MIN_INT <= v <= MAX_INT && (if negative then v <= 0 && Denotes(body, -v) else v >= 0 && Denotes(body, v))
  {
    var m: nat := if v < 0 then -v else v;
    DenotesParses(body, m);
  }

  /** `Atoi` accepts exactly the numerals. */
  lemma AtoiExactly(s: string, v: int)
    ensures Atoi(s) == Some(v) <==> IsNumeral(s, v)
  {
    var negative := |s| > 0 && s[0] == '-';
    var signed := negative || (|s| > 0 && s[0] == '+');
    var body := if signed then s[1..] else s;
    assert Atoi(s) == Signed(negative, body);
    SignedExactly(negative, body, v);
    SignedHasNoDigits(s, v);
  }

  lemma SignedHasNoDigits(s: string, v: int)
    ensures |s| > 0 && (s[0] == '-' || s[0] == '+') && v >= 0 ==> !Denotes(s, v)
  {
    if v >= 0 && Denotes(s, v) {
      DenotesUnsigned(s, v);
    }
  }
}
