/**
 * Integer-to-text conversion of the serial console (`itoa`) and its use by
 * `print_number`. The AVR `int` is 16 bits wide, and C's `/` and `%`
 * truncate toward zero; both are written out here. The conversion emits the
 * digits least significant first into the caller's buffer, terminates them
 * with NUL, and reverses them in place.
 */
module SerialLite {
  const INT_MIN: int := -0x8000
  const INT_MAX: int := 0x7FFF
  /** Size of the stack buffer `print_number` hands to the conversion. */
  const PRINT_BUFFER_SIZE: nat := 10
  const NUL: char := '\0'

  function Abs(x: int): nat
  {
    if x < 0 then -x else x
  }

  /** C's `/` on `int`: the quotient truncated toward zero. */
  function CDiv(a: int, b: int): int
    requires b > 0
  {
    if a >= 0 then a / b else -((-a) / b)
  }

  /** C's `%` on `int`: the remainder that goes with the truncated quotient. */
  function CRem(a: int, b: int): int
    requires b > 0
  {
    if a >= 0 then a % b else -((-a) % b)
  }

  /** `(rem > 9) ? (rem - 10) + 'a' : rem + '0'` */
  function DigitChar(rem: int): char
    requires -36 < rem < 36
  {
    if rem > 9 then (rem - 10 + 'a' as int) as char else (rem + '0' as int) as char
  }

  /** The digit a character stands for: the inverse of `DigitChar` on `0 .. 35`. */
  function DigitValue(c: char): int
  {
    if '0' <= c <= '9' then c as int - '0' as int else c as int - 'a' as int + 10
  }

  /** The characters of the digit loop, in the order it writes them (least significant first). */
  function LsbDigits(num: int, base: int): seq<char>
    requires 2 <= base <= 36
    decreases Abs(num)
  {
    CDivShrinks(num, base);
    if num == 0 then [] else [DigitChar(CRem(num, base))] + LsbDigits(CDiv(num, base), base)
  }

  function Reverse<T>(s: seq<T>): (r: seq<T>)
    ensures |r| == |s|
  {
    if s == [] then [] else Reverse(s[1..]) + [s[0]]
  }

  /** The text `itoa(num, str, base)` leaves in `str` before its NUL. */
  function Rendered(num: int, base: int): seq<char>
    requires 2 <= base <= 36
  {
    if num == 0 then ['0'] else Reverse(LsbDigits(num, base))
  }

  /** The number a most-significant-first string of digits denotes. */
  function Value(s: seq<char>, base: int): int
  {
    if s == [] then 0 else Value(s[..|s| - 1], base) * base + DigitValue(s[|s| - 1])
  }

  predicate IsDigitOf(c: char, base: int)
  {
    ('0' <= c <= '9' && DigitValue(c) < base) || ('a' <= c <= 'z' && DigitValue(c) < base)
  }

  /**
   * itoa: writes the text of `num` in `base` at the start of `str`, a NUL after
   * it, and nothing beyond; returns `str`.
   */
  method Itoa(num: int, str: array<char>, base: int) returns (r: array<char>)
    requires INT_MIN <= num <= INT_MAX && 2 <= base <= 36
    requires |Rendered(num, base)| < str.Length
    modifies str
    ensures r == str
    ensures str[..|Rendered(num, base)|] == Rendered(num, base)
    ensures str[|Rendered(num, base)|] == NUL
    ensures str[|Rendered(num, base)| + 1..] == old(str[|Rendered(num, base)| + 1..])
  {
    r := str;
    var i := 0;
    if num == 0 {
      str[i] := '0';
      i := i + 1;
      str[i] := NUL;
      return;
    }
    i := WriteDigits(num, str, base);
    str[i] := NUL;
    ReverseInPlace(str, i);
  }

  /** The digit loop of itoa: returns the count `i` of digits written, least significant first. */
  method WriteDigits(num: int, str: array<char>, base: int) returns (i: nat)
    requires 2 <= base <= 36 && |LsbDigits(num, base)| < str.Length
    modifies str
    ensures i == |LsbDigits(num, base)|
    ensures str[..i] == LsbDigits(num, base)
    ensures str[i..] == old(str[i..])
  {
    var n := num;
    i := 0;
    while n != 0
      invariant i + |LsbDigits(n, base)| == |LsbDigits(num, base)|
      invariant str[..i] + LsbDigits(n, base) == LsbDigits(num, base)
      invariant str[i..] == old(str[i..])
      decreases Abs(n)
    {
      CDivShrinks(n, base);
      var rem := CRem(n, base);
      str[i] := DigitChar(rem);
      assert str[..i + 1] == str[..i] + [DigitChar(rem)];
      i := i + 1;
      n := CDiv(n, base);
    }
  }

  /** The swap loop of itoa: `str[0 .. n)` is reversed, the rest untouched. */
  method ReverseInPlace(str: array<char>, n: nat)
    requires n <= str.Length
    modifies str
    ensures str[..n] == Reverse(old(str[..n]))
    ensures str[n..] == old(str[n..])
  {
    ghost var s := str[..n];
    if n == 0 {
      return;
    }
    var start, end := 0, n - 1;
    while start < end
      invariant 0 <= start <= n && -1 <= end < n && start + end == n - 1
      invariant forall j :: 0 <= j < start ==> str[j] == s[n - 1 - j]
      invariant forall j :: end < j < n ==> str[j] == s[n - 1 - j]
      invariant forall j :: start <= j <= end ==> str[j] == s[j]
      invariant str[n..] == old(str[n..])
    {
      var temp := str[start];
      str[start] := str[end];
      str[end] := temp;
      start := start + 1;
      end := end - 1;
    }
    ReverseAt(s);
  }

  /**
   * print_number: the text of `value` in base 10 is formed in a 10-character
   * buffer; `printed` is what `print_string` sends, the characters before the
   * first NUL.
   */
  method PrintNumber(value: int) returns (printed: seq<char>)
    requires INT_MIN <= value <= INT_MAX
    ensures printed == Rendered(value, 10)
  {
    var buffer := new char[PRINT_BUFFER_SIZE];
    FitsPrintBuffer(value);
    var _ := Itoa(value, buffer, 10);
    var k := 0;
    while buffer[k] != NUL
      invariant 0 <= k <= |Rendered(value, 10)|
      invariant buffer[..|Rendered(value, 10)|] == Rendered(value, 10)
      invariant buffer[|Rendered(value, 10)|] == NUL
      decreases |Rendered(value, 10)| - k
    {
      RenderedHasNoNul(value, 10);
      assert buffer[k] == Rendered(value, 10)[k];
      k := k + 1;
    }
    RenderedHasNoNul(value, 10);
    printed := buffer[..k];
  }

  // ---------------------------------------------------------------------------
  // Properties

  /** C division: quotient and remainder recombine, the remainder is smaller than the base and takes the sign of the dividend. */
  lemma CDivision(a: int, b: int)
    requires b > 0
    ensures b * CDiv(a, b) + CRem(a, b) == a
    ensures Abs(CRem(a, b)) < b
    ensures (a >= 0 ==> CRem(a, b) >= 0) && (a <= 0 ==> CRem(a, b) <= 0)
    ensures Abs(CDiv(a, b)) == Abs(a) / b
  {
    CDivRecombine(a, b);
    CRemBounds(a, b);
    CDivMagnitude(a, b);
  }

  lemma CDivRecombine(a: int, b: int)
    requires b > 0
    ensures b * CDiv(a, b) + CRem(a, b) == a
  {
    if a < 0 {
      var n := -a;
      assert b * (n / b) + n % b == n;
      assert b * CDiv(a, b) == -(b * (n / b));
    }
  }

  lemma CRemBounds(a: int, b: int)
    requires b > 0
    ensures Abs(CRem(a, b)) < b
    ensures (a >= 0 ==> CRem(a, b) >= 0) && (a <= 0 ==> CRem(a, b) <= 0)
  {
  }

  lemma CDivMagnitude(a: int, b: int)
    requires b > 0
    ensures Abs(CDiv(a, b)) == Abs(a) / b
  {
  }

  /** Each step of the digit loop brings `num` strictly closer to zero. */
  lemma CDivShrinks(num: int, base: int)
    requires base >= 2
    ensures -base < CRem(num, base) < base
    ensures num != 0 ==> Abs(CDiv(num, base)) < Abs(num)
  {
    CRemBounds(num, base);
    if num != 0 {
      CDivMagnitude(num, base);
      QuotientShrinks(Abs(num), base);
    }
  }

  lemma QuotientShrinks(n: nat, b: int)
    requires n > 0 && b >= 2
    ensures n / b < n
  {
    var q := n / b;
    assert n == b * q + n % b;
    assert b * q >= 2 * q by {
      assert (b - 2) * q >= 0;
    }
  }

  lemma {:induction false} ReverseAt<T>(s: seq<T>)
    ensures forall j :: 0 <= j < |s| ==> Reverse(s)[j] == s[|s| - 1 - j]
  {
    if s != [] {
      ReverseAt(s[1..]);
    }
  }

  /** Every digit character maps back to the digit it was made from. */
  lemma DigitRoundTrip(d: int, base: int)
    requires 0 <= d < base <= 36
    ensures DigitValue(DigitChar(d)) == d
    ensures IsDigitOf(DigitChar(d), base)
    ensures DigitChar(d) != '-'
  {
  }

  /** One more digit on the right multiplies the value by the base and adds the digit. */
  lemma ValueAppend(s: seq<char>, c: char, base: int)
    ensures Value(s + [c], base) == Value(s, base) * base + DigitValue(c)
  {
    assert (s + [c])[..|s|] == s;
  }

  /** For a positive number the digit loop's step is Euclidean division. */
  lemma PositiveStep(num: int, base: int)
    requires num > 0 && 2 <= base <= 36
    ensures CDiv(num, base) == num / base >= 0 && CRem(num, base) == num % base
    ensures 0 <= CRem(num, base) < base
    ensures CDiv(num, base) * base + CRem(num, base) == num
    ensures CDiv(num, base) == 0 ==> CRem(num, base) == num
  {
    assert num == base * (num / base) + num % base;
  }

  /** Rendering a positive number is rendering its quotient, then its last digit. */
  lemma RenderedStep(num: int, base: int)
    requires num > 0 && 2 <= base <= 36
    ensures CRem(num, base) >= 0 && num / base >= 0
    ensures Rendered(num, base) == (if num / base == 0 then [] else Rendered(num / base, base)) + [DigitChar(CRem(num, base))]
  {
    PositiveStep(num, base);
    assert LsbDigits(num, base) == [DigitChar(CRem(num, base))] + LsbDigits(num / base, base);
  }

  /** For `num > 0` the text read back in its base is `num`, and every character is a digit of that base. */
  lemma {:induction false} PositiveRoundTrip(num: int, base: int)
    requires num > 0 && 2 <= base <= 36
    ensures Value(Rendered(num, base), base) == num
    ensures forall c :: c in Rendered(num, base) ==> IsDigitOf(c, base)
  {
    var q, rem := num / base, CRem(num, base);
    PositiveStep(num, base);
    RenderedStep(num, base);
    DigitRoundTrip(rem, base);
    if q == 0 {
      ValueAppend([], DigitChar(rem), base);
    } else {
      QuotientShrinks(num, base);
      PositiveRoundTrip(q, base);
      ValueAppend(Rendered(q, base), DigitChar(rem), base);
    }
  }

  /** For `num > 0` the most significant digit is not zero. */
  lemma {:induction false} NoLeadingZero(num: int, base: int)
    requires num > 0 && 2 <= base <= 36
    ensures Rendered(num, base)[0] != '0'
  {
    var q := num / base;
    PositiveStep(num, base);
    RenderedStep(num, base);
    if q != 0 {
      QuotientShrinks(num, base);
      NoLeadingZero(q, base);
    }
  }

  /** Zero is written as the single digit `0`. */
  lemma ZeroIsOneDigit(base: int)
    requires 2 <= base <= 36
    ensures Rendered(0, base) == "0"
  {
  }

  /** For `num >= 0` no minus sign appears. */
  lemma NoMinusSign(num: int, base: int)
    requires num >= 0 && 2 <= base <= 36
    ensures '-' !in Rendered(num, base)
  {
    if num > 0 {
      PositiveRoundTrip(num, base);
    }
  }

  /** Negative numbers are not handled: each truncated remainder is written as `'0' + rem`. */
  lemma NegativeExamples()
    ensures Rendered(-3, 10) == "-"
    ensures Rendered(-12, 10) == "/."
  {
    assert LsbDigits(-3, 10) == ['-'] + LsbDigits(0, 10);
    assert LsbDigits(-1, 10) == ['/'] + LsbDigits(0, 10);
    assert LsbDigits(-12, 10) == ['.'] + LsbDigits(-1, 10);
  }

  function Pow(b: nat, k: nat): nat
  {
    if k == 0 then 1 else b * Pow(b, k - 1)
  }

  lemma QuotientBelow(x: nat, b: nat, p: nat)
    requires b > 0 && x < b * p
    ensures x / b < p
  {
    var q := x / b;
    assert b * q <= x;
    assert b * (p - q) > 0;
  }

  /** A number below `base^k` in magnitude has at most `k` digits. */
  lemma {:induction false} DigitCount(num: int, base: int, k: nat)
    requires 2 <= base <= 36 && Abs(num) < Pow(base, k)
    ensures |LsbDigits(num, base)| <= k
    decreases k
  {
    if num != 0 {
      CDivision(num, base);
      QuotientBelow(Abs(num), base, Pow(base, k - 1));
      DigitCount(CDiv(num, base), base, k - 1);
    }
  }

  /** Every 16-bit `int` has at most 5 decimal digits, so text and NUL fit `print_number`'s buffer. */
  lemma FitsPrintBuffer(value: int)
    requires INT_MIN <= value <= INT_MAX
    ensures |Rendered(value, 10)| <= 5
    ensures |Rendered(value, 10)| < PRINT_BUFFER_SIZE
  {
    assert Pow(10, 5) == 100000;
    DigitCount(value, 10, 5);
  }

  /** The text never contains NUL, so `print_string` sends all of it. */
  lemma RenderedHasNoNul(num: int, base: int)
    requires INT_MIN <= num <= INT_MAX && 2 <= base <= 36
    ensures NUL !in Rendered(num, base)
  {
    if num != 0 {
      DigitsAreNotNul(num, base);
      ReverseAt(LsbDigits(num, base));
    }
  }

  lemma {:induction false} DigitsAreNotNul(num: int, base: int)
    requires 2 <= base <= 36
    ensures NUL !in LsbDigits(num, base)
    decreases Abs(num)
  {
    if num != 0 {
      CDivShrinks(num, base);
      DigitsAreNotNul(CDiv(num, base), base);
    }
  }
}
