/**
 * Money and numbers as the shop's pages and routes read and print them.
 *
 * Amounts are whole numbers of cents. `price.toFixed(2)` prints them;
 * `parseInt` and `parseFloat`, applied by the catalog to the metadata strings
 * stored with each upload, read them. JavaScript numbers are doubles; here a
 * number is `Cart.Num`, NaN or a whole number, and a parsed price keeps its
 * first two fraction digits as cents.
 */
module Money {
  import opened Wrappers
  import opened JsStrings
  import opened Cart

  // ------------------------------------------------------------------ printing

  /** `(cents / 100).toFixed(2)` for a non-negative amount: whole dollars, a point, two digits. */
  function CentsText(cents: nat): (s: string)
    ensures |s| >= 4 && s[|s| - 3] == '.'
    ensures forall i :: 0 <= i < |s| && i != |s| - 3 ==> IsDigit(s[i])
  {
    Decimal(cents / 100) + ['.', DigitChar(cents / 10 % 10), DigitChar(cents % 10)]
  }

  /** Reads a `toFixed(2)` text back into cents. */
  function ParseCents(s: string): nat
    requires |s| >= 4 && s[|s| - 3] == '.'
    requires forall i :: 0 <= i < |s| && i != |s| - 3 ==> IsDigit(s[i])
  {
    DigitsValue(s[..|s| - 3]) * 100 + DigitsValue(s[|s| - 2..])
  }

  /** The printed amount loses nothing: it reads back as the cents it was written from. */
  lemma CentsTextRoundTrip(cents: nat)
    ensures ParseCents(CentsText(cents)) == cents
  {
    var whole := Decimal(cents / 100);
    ParseCentsOfParts(whole, cents / 10 % 10, cents % 10);
    DecimalRoundTrip(cents / 100);
    CentsDigits(cents);
  }

  /** A whole part, a point and two digits read back as whole * 100 plus the two-digit value. */
  lemma ParseCentsOfParts(whole: string, a: nat, b: nat)
    requires |whole| >= 1 && forall i :: 0 <= i < |whole| ==> IsDigit(whole[i])
    requires a < 10 && b < 10
    ensures ParseCents(whole + ['.', DigitChar(a), DigitChar(b)]) == DigitsValue(whole) * 100 + 10 * a + b
  {
    var tail := [DigitChar(a), DigitChar(b)];
    var s := whole + ['.'] + tail;
    assert s[..|s| - 3] == whole;
    assert s[|s| - 2..] == tail;
    forall i | 0 <= i < |s| && i != |s| - 3
      ensures IsDigit(s[i])
    {
      if i < |whole| { assert s[i] == whole[i]; } else { assert s[i] == tail[i - |whole| - 1]; }
    }
    TwoDigitsValue(a, b);
    assert s == whole + ['.', DigitChar(a), DigitChar(b)];
  }

  /** The cents split into the whole units and the two digits `toFixed(2)` prints. */
  lemma CentsDigits(cents: nat)
    ensures cents == cents / 100 * 100 + 10 * (cents / 10 % 10) + cents % 10
  {
    var r := cents % 100;
    assert cents / 10 == cents / 100 * 10 + r / 10;
    assert cents / 10 % 10 == r / 10;
  }

  /** Two printed digits read back as their two-digit value. */
  lemma TwoDigitsValue(a: nat, b: nat)
    requires a < 10 && b < 10
    ensures DigitsValue([DigitChar(a), DigitChar(b)]) == 10 * a + b
  {
    var t := [DigitChar(a), DigitChar(b)];
    assert t[..1][..0] == [];
    assert DigitsValue(t[..1]) == a;
  }

  /** `price.toFixed(2)` for a price in cents; NaN prints as "NaN" and a negative price with a minus sign. */
  function PriceText(price: Num): string {
    match price
    case NaN => "NaN"
    case Val(c) => SignText(c < 0) + CentsText(Magnitude(c))
  }

  function SignText(negative: bool): string {
    if negative then "-" else ""
  }

  function Magnitude(c: int): nat {
    if c < 0 then -c else c
  }

  // ------------------------------------------------------------------ reading

  /** The value of a character as a digit: 0-9 for the decimal digits, 10-35 for the letters in
      either case, and 36 (a digit in no radix) for anything else. */
  function DigitValue(c: char): (v: nat)
    ensures IsDigit(c) <==> v < 10
    ensures IsDigit(c) ==> v == c as int - '0' as int
    ensures v <= 36
  {
    if '0' <= c <= '9' then c as int - '0' as int
    else if 'a' <= c <= 'z' then c as int - 'a' as int + 10
    else if 'A' <= c <= 'Z' then c as int - 'A' as int + 10
    else 36
  }

  /** The length of the longest prefix of digits in `radix`. */
  function RunLength(s: string, radix: nat): (n: nat)
    ensures n <= |s|
    ensures forall i :: 0 <= i < n ==> DigitValue(s[i]) < radix
    ensures n < |s| ==> DigitValue(s[n]) >= radix
    decreases |s|
  {
    if s == [] || DigitValue(s[0]) >= radix then 0 else 1 + RunLength(s[1..], radix)
  }

  /** The value of a string of digits in `radix`, most significant first. */
  function RunValue(s: string, radix: nat): nat
    requires forall i :: 0 <= i < |s| ==> DigitValue(s[i]) < radix
    decreases |s|
  {
    if s == [] then 0 else radix * RunValue(s[..|s| - 1], radix) + DigitValue(s[|s| - 1])
  }

  /** In radix ten the digit value is the decimal value. */
  lemma {:induction false} RunValueDecimal(s: string)
    requires forall i :: 0 <= i < |s| ==> IsDigit(s[i])
    ensures RunValue(s, 10) == DigitsValue(s)
    decreases |s|
  {
    if s != [] {
      RunValueDecimal(s[..|s| - 1]);
    }
  }

  /** A run of digits stops where the digits stop. */
  lemma {:induction false} RunOfDigits(digits: string, rest: string, radix: nat)
    requires forall i :: 0 <= i < |digits| ==> DigitValue(digits[i]) < radix
    requires rest == [] || DigitValue(rest[0]) >= radix
    ensures RunLength(digits + rest, radix) == |digits|
    decreases |digits|
  {
    if digits != [] {
      assert (digits + rest)[1..] == digits[1..] + rest;
      RunOfDigits(digits[1..], rest, radix);
    }
  }

  /** An optional leading sign: whether it is a minus, and the text after it. */
  function SignSplit(t: string): (r: (bool, string))
    ensures r.1 == t || (t != [] && r.1 == t[1..] && (t[0] == '-' || t[0] == '+'))
    ensures r.0 <==> t != [] && t[0] == '-'
  {
    if t != [] && t[0] == '-' then (true, t[1..])
    else if t != [] && t[0] == '+' then (false, t[1..])
    else (false, t)
  }

  function Signed(negative: bool, v: nat): int {
    if negative then -(v as int) else v
  }

  /** A sign and an unsigned reading: NaN when there was no digit. */
  function SignedNum(negative: bool, magnitude: Option<nat>): Num {
    if magnitude.None? then NaN else Val(Signed(negative, magnitude.value))
  }

  /** The digits `parseInt` reads after the sign: a `0x` or `0X` prefix selects hexadecimal, then the
      longest run of digits is read; `None` when there is none. */
  function UnsignedInt(rest: string): Option<nat> {
    var hex := |rest| >= 2 && rest[0] == '0' && (rest[1] == 'x' || rest[1] == 'X');
    var radix := if hex then 16 else 10;
    var body := if hex then rest[2..] else rest;
    var n := RunLength(body, radix);
    if n == 0 then None else Some(RunValue(body[..n], radix))
  }

  /** `parseInt(s)` with no radix: leading white space and one sign are skipped before the digits. */
  function ParseInt(s: string): Num {
    var (negative, rest) := SignSplit(TrimStart(s));
    SignedNum(negative, UnsignedInt(rest))
  }

  /** The cents of the fraction digits: the first two count, the rest are dropped. */
  function FractionCents(frac: string): (c: nat)
    requires forall i :: 0 <= i < |frac| ==> IsDigit(frac[i])
    ensures c < 100
  {
    if |frac| == 0 then 0
    else if |frac| == 1 then 10 * DigitValue(frac[0])
    else 10 * DigitValue(frac[0]) + DigitValue(frac[1])
  }

  /** The digits `parseFloat` reads after the sign, in cents: whole digits, then fraction digits after
      a point; `None` when there is no digit on either side of the point. */
  function UnsignedCents(rest: string): Option<nat> {
    var i := RunLength(rest, 10);
    var frac := FractionDigits(rest[i..]);
    if i == 0 && frac == [] then None else Some(RunValue(rest[..i], 10) * 100 + FractionCents(frac))
  }

  /** The digits after a leading point: none when `after` does not start with `.`. */
  function FractionDigits(after: string): (frac: string)
    ensures forall k :: 0 <= k < |frac| ==> IsDigit(frac[k])
    ensures after == [] || after[0] != '.' ==> frac == []
  {
    if after != [] && after[0] == '.' then
      var n := RunLength(after[1..], 10);
      assert forall k :: 0 <= k < n ==> after[1..][..n][k] == after[1..][k];
      after[1..][..n]
    else []
  }

  /** `parseFloat(s)` in cents: leading white space and one sign are skipped before the digits. */
  function ParsePrice(s: string): Num {
    var (negative, rest) := SignSplit(TrimStart(s));
    SignedNum(negative, UnsignedCents(rest))
  }

  /** Text that starts with white space and an optional minus sign is read past the sign. */
  lemma SignedText(spaces: string, negative: bool, body: string)
    requires forall i :: 0 <= i < |spaces| ==> IsSpace(spaces[i])
    requires body != [] && IsDigit(body[0])
    ensures SignSplit(TrimStart(spaces + (if negative then "-" else "") + body)) == (negative, body)
  {
    if negative {
      MinusText(spaces, body);
    } else {
      UnsignedText(spaces, body);
    }
  }

  lemma MinusText(spaces: string, body: string)
    requires forall i :: 0 <= i < |spaces| ==> IsSpace(spaces[i])
    requires body != [] && IsDigit(body[0])
    ensures SignSplit(TrimStart(spaces + "-" + body)) == (true, body)
  {
    var signed := ['-'] + body;
    assert spaces + "-" + body == spaces + signed;
    TrimStartOfSpaces(spaces, signed);
    assert signed[1..] == body;
  }

  lemma UnsignedText(spaces: string, body: string)
    requires forall i :: 0 <= i < |spaces| ==> IsSpace(spaces[i])
    requires body != [] && IsDigit(body[0])
    ensures SignSplit(TrimStart(spaces + "" + body)) == (false, body)
  {
    assert SignSplit(body) == (false, body) by {
      assert body[0] != '-' && body[0] != '+';
    }
    assert TrimStart(spaces + "" + body) == body by {
      assert spaces + "" + body == spaces + body;
      TrimStartOfSpaces(spaces, body);
    }
  }

  // ------------------------------------------------------------------ properties

  /** A decimal integer, after any white space and with an optional minus sign, reads back as itself;
      reading stops at the first character that is not a digit, except that a "0" followed by an `x`
      is read as a hexadecimal prefix instead. */
  lemma ParseIntOfDecimal(spaces: string, negative: bool, n: nat, rest: string)
    requires forall i :: 0 <= i < |spaces| ==> IsSpace(spaces[i])
    requires rest == [] || (!IsDigit(rest[0]) && rest[0] != 'x' && rest[0] != 'X')
    ensures ParseInt(spaces + (if negative then "-" else "") + Decimal(n) + rest) == Val(Signed(negative, n))
  {
    var d := Decimal(n);
    var body := d + rest;
    assert spaces + (if negative then "-" else "") + d + rest == spaces + (if negative then "-" else "") + body;
    SignedText(spaces, negative, body);
    UnsignedIntOfDecimal(n, rest);
  }

  lemma UnsignedIntOfDecimal(n: nat, rest: string)
    requires rest == [] || (!IsDigit(rest[0]) && rest[0] != 'x' && rest[0] != 'X')
    ensures UnsignedInt(Decimal(n) + rest) == Some(n)
  {
    var d := Decimal(n);
    var body := d + rest;
    assert !(|body| >= 2 && body[0] == '0' && (body[1] == 'x' || body[1] == 'X')) by {
      if |body| >= 2 {
        if |d| >= 2 {
          assert body[1] == d[1];
        } else {
          assert body[1] == rest[0];
        }
      }
    }
    RunOfDigits(d, rest, 10);
    assert body[..|d|] == d;
    RunValueDecimal(d);
    DecimalRoundTrip(n);
  }

  /** `parseInt(n.toString())` is `n`. */
  lemma DecimalReadsBack(n: nat)
    ensures ParseInt(Decimal(n)) == Val(n)
  {
    var d := Decimal(n);
    assert IsDigit(d[0]);
    assert TrimStart(d) == d;
    assert SignSplit(d) == (false, d);
    UnsignedIntOfDecimal(n, []);
    assert d + [] == d;
  }

  /** `parseFloat(n.toString())` is `n` whole units: `100 * n` cents. */
  lemma WholePriceReadsBack(n: nat)
    ensures ParsePrice(Decimal(n)) == Val(100 * n)
  {
    var d := Decimal(n);
    UnsignedText("", d);
    assert "" + "" + d == d;
    WholeDigitsCents(d);
    DecimalRoundTrip(n);
  }

  /** A run of decimal digits alone reads as that many whole units. */
  lemma UnsignedCentsOfRun(d: string)
    requires d != [] && forall i :: 0 <= i < |d| ==> IsDigit(d[i])
    ensures UnsignedCents(d) == Some(100 * RunValue(d, 10))
  {
    assert RunLength(d, 10) == |d| by {
      RunOfDigits(d, [], 10);
      assert d + [] == d;
    }
    assert d[|d|..] == [];
    TakeAllRunValue(d);
    UnsignedCentsNoPoint(d, |d|, RunValue(d, 10));
  }

  /** Digits to the end, with no point after them, read as whole units. */
  lemma UnsignedCentsNoPoint(rest: string, i: nat, v: nat)
    requires i == RunLength(rest, 10) && 0 < i && rest[i..] == []
    requires v == RunValue(rest[..i], 10)
    ensures UnsignedCents(rest) == Some(v * 100)
  {
  }

  /** Taking all of a digit run keeps its value. */
  lemma TakeAllRunValue(d: string)
    requires forall i :: 0 <= i < |d| ==> IsDigit(d[i])
    ensures RunValue(d[..|d|], 10) == RunValue(d, 10)
  {
    assert d[..|d|] == d;
  }

  lemma WholeDigitsCents(d: string)
    requires d != [] && forall i :: 0 <= i < |d| ==> IsDigit(d[i])
    ensures UnsignedCents(d) == Some(100 * DigitsValue(d))
  {
    assert RunValue(d, 10) == DigitsValue(d) by {
      RunValueDecimal(d);
    }
    UnsignedCentsOfRun(d);
  }

  /** Blank text has no digits: `parseInt` gives NaN. */
  lemma ParseIntOfBlank(spaces: string)
    requires forall i :: 0 <= i < |spaces| ==> IsSpace(spaces[i])
    ensures ParseInt(spaces) == NaN
  {
    TrimStartOfSpaces(spaces, "");
    assert spaces + "" == spaces;
  }

  /** Every printed price reads back as itself: `parseFloat(price.toFixed(2))` is the price in cents,
      negative amounts and NaN included. */
  lemma PriceTextRoundTrip(price: Num)
    ensures ParsePrice(PriceText(price)) == price
  {
    if price.NaN? {
      NaNTextIsNaN();
    } else {
      AmountTextRoundTrip(price.v);
    }
  }

  lemma NaNTextIsNaN()
    ensures ParsePrice("NaN") == NaN
  {
    TrimStartOfSpaces("", "NaN");
    assert "" + "NaN" == "NaN";
    assert RunLength("NaN", 10) == 0;
  }

  lemma AmountTextRoundTrip(c: int)
    ensures ParsePrice(PriceText(Val(c))) == Val(c)
  {
    SignedAmountText(c < 0, Magnitude(c));
    assert Signed(c < 0, Magnitude(c)) == c;
  }

  /** A non-negative amount, printed with or without a minus sign, reads back with that sign. */
  lemma SignedAmountText(negative: bool, m: nat)
    ensures ParsePrice(SignText(negative) + CentsText(m)) == SignedNum(negative, Some(m))
  {
    var s := CentsText(m);
    UnsignedCentsOfText(m);
    assert IsDigit(s[0]);
    ParseSignedBody(negative, s, m);
  }

  /** An optional minus sign before digits that read as `m` cents gives `m` cents with that sign. */
  lemma ParseSignedBody(negative: bool, body: string, m: nat)
    requires body != [] && IsDigit(body[0]) && UnsignedCents(body) == Some(m)
    ensures ParsePrice(SignText(negative) + body) == SignedNum(negative, Some(m))
  {
    SignedText("", negative, body);
    assert "" + (if negative then "-" else "") + body == SignText(negative) + body;
  }

  /** The two printed cent digits are read as the fraction, and make up the cents below a dollar. */
  lemma FractionOfCentDigits(cents: nat)
    ensures var frac := [DigitChar(cents / 10 % 10), DigitChar(cents % 10)];
      && RunLength(frac, 10) == 2
      && FractionCents(frac) == cents % 100
  {
    TwoDigitFraction(cents / 10 % 10, cents % 10);
    LastTwoDigits(cents);
  }

  /** Two digits after the point are read whole, as `10 * a + b` cents. */
  lemma TwoDigitFraction(a: nat, b: nat)
    requires a < 10 && b < 10
    ensures var frac := [DigitChar(a), DigitChar(b)];
      RunLength(frac, 10) == 2 && FractionCents(frac) == 10 * a + b
  {
    var frac := [DigitChar(a), DigitChar(b)];
    RunOfDigits(frac, [], 10);
    assert frac + [] == frac;
  }

  /** The tens and units digits make up the remainder below a hundred. */
  lemma LastTwoDigits(n: nat)
    ensures 10 * (n / 10 % 10) + n % 10 == n % 100
  {
    var r := n % 100;
    assert n / 10 == n / 100 * 10 + r / 10;
    assert n % 10 == r % 10;
  }

  /** The unsigned part of the round trip. */
  lemma UnsignedCentsOfText(cents: nat)
    ensures UnsignedCents(CentsText(cents)) == Some(cents)
  {
    var whole := Decimal(cents / 100);
    var frac := [DigitChar(cents / 10 % 10), DigitChar(cents % 10)];
    var tail := ['.'] + frac;
    var s := CentsText(cents);
    assert s == whole + tail;
    RunOfDigits(whole, tail, 10);
    assert s[..|whole|] == whole;
    assert s[|whole|..] == tail;
    assert tail[1..] == frac;
    FractionOfCentDigits(cents);
    assert frac[..2] == frac;
    RunValueDecimal(whole);
    DecimalRoundTrip(cents / 100);
  }
}
