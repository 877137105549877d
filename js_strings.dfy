/**
 * The JavaScript string operations the shop's code leans on, with the
 * semantics of the ECMAScript built-ins: `trim`, `split` on a one-character
 * separator, `toLowerCase`, `endsWith`, `replace` of the first occurrence,
 * `split(sep).pop()`, `x || fallback` on a possibly missing string, and the
 * decimal rendering of a non-negative integer (`n.toString()`).
 */
module JsStrings {
  import opened Wrappers

  /** White space as `String.prototype.trim` and the regex class `\s` see it
      (ECMAScript WhiteSpace and LineTerminator code points). */
  predicate IsSpace(c: char) {
    || c == ' ' || c == '\t' || c == '\n' || c == '\r'
    || c == '\U{0B}' || c == '\U{0C}' || c == '\U{A0}' || c == '\U{1680}'
    || ('\U{2000}' <= c <= '\U{200A}')
    || c == '\U{2028}' || c == '\U{2029}' || c == '\U{202F}' || c == '\U{205F}'
    || c == '\U{3000}' || c == '\U{FEFF}'
  }

  // ---------------------------------------------------------------- trim

  /** `s.trimStart()`: drops the longest all-space prefix. */
  function TrimStart(s: string): (r: string)
    ensures |r| <= |s| && r == s[|s| - |r|..]
    ensures r == [] || !IsSpace(r[0])
    ensures forall i :: 0 <= i < |s| - |r| ==> IsSpace(s[i])
    decreases |s|
  {
    if s != [] && IsSpace(s[0]) then TrimStart(s[1..]) else s
  }

  /** Leading white space is exactly what `trimStart` drops. */
  lemma {:induction false} TrimStartOfSpaces(spaces: string, s: string)
    requires forall i :: 0 <= i < |spaces| ==> IsSpace(spaces[i])
    requires s == [] || !IsSpace(s[0])
    ensures TrimStart(spaces + s) == s
    decreases |spaces|
  {
    if spaces != [] {
      assert (spaces + s)[1..] == spaces[1..] + s;
      TrimStartOfSpaces(spaces[1..], s);
    }
  }

  /** `s.trimEnd()`: drops the longest all-space suffix. */
  function TrimEnd(s: string): (r: string)
    ensures |r| <= |s| && r == s[..|r|]
    ensures r == [] || !IsSpace(r[|r| - 1])
    ensures forall i :: |r| <= i < |s| ==> IsSpace(s[i])
    decreases |s|
  {
    if s != [] && IsSpace(s[|s| - 1]) then TrimEnd(s[..|s| - 1]) else s
  }

  /** `s.trim()`: drops the white space at both ends and nothing else. */
  function Trim(s: string): (r: string)
    ensures |r| <= |s|
    ensures r == [] || (!IsSpace(r[0]) && !IsSpace(r[|r| - 1]))
    ensures exists k :: TrimmedAt(s, r, k)
  {
    var t := TrimStart(s);
    var r := TrimEnd(t);
    TrimmedAtStart(s, t, r);
    assert TrimmedAt(s, r, |s| - |t|);
    r
  }

  /** `r` is the piece of `s` starting at `k`, and everything of `s` outside it is white space. */
  predicate TrimmedAt(s: string, r: string, k: nat) {
    && k + |r| <= |s| && r == s[k..k + |r|]
    && (forall i :: 0 <= i < k ==> IsSpace(s[i]))
    && (forall i :: k + |r| <= i < |s| ==> IsSpace(s[i]))
  }

  /** A prefix `r` of a suffix `t` of `s`, with only white space before `t` and after `r`, is trimmed at `|s| - |t|`. */
  lemma TrimmedAtStart(s: string, t: string, r: string)
    requires |t| <= |s| && t == s[|s| - |t|..] && forall i :: 0 <= i < |s| - |t| ==> IsSpace(s[i])
    requires |r| <= |t| && r == t[..|r|] && forall j :: |r| <= j < |t| ==> IsSpace(t[j])
    requires t == [] || !IsSpace(t[0])
    requires r == [] || !IsSpace(r[|r| - 1])
    ensures TrimmedAt(s, r, |s| - |t|)
    ensures r == [] || (!IsSpace(r[0]) && !IsSpace(r[|r| - 1]))
  {
    var k := |s| - |t|;
    forall i | k + |r| <= i < |s| ensures IsSpace(s[i]) {
      assert s[i] == t[i - k];
    }
  }

  /** What `trim` keeps is the contiguous piece of the input starting at `k`, with only white space
      dropped before and after it. */
  lemma TrimIsInfix(s: string) returns (k: nat)
    ensures k + |Trim(s)| <= |s| && Trim(s) == s[k..k + |Trim(s)|]
    ensures forall i :: 0 <= i < k ==> IsSpace(s[i])
    ensures forall i :: k + |Trim(s)| <= i < |s| ==> IsSpace(s[i])
  {
    k :| TrimmedAt(s, Trim(s), k);
  }

  /** Trimming a string that neither starts nor ends with white space changes nothing. */
  lemma TrimUnchanged(s: string)
    requires s == [] || (!IsSpace(s[0]) && !IsSpace(s[|s| - 1]))
    ensures Trim(s) == s
  {
  }

  /** A string made only of white space trims to the empty string. */
  lemma TrimAllSpace(s: string)
    requires forall i :: 0 <= i < |s| ==> IsSpace(s[i])
    ensures Trim(s) == ""
  {
  }

  // ---------------------------------------------------------------- split

  /** Index of the first `c` in `s`, or `|s|` when `c` does not occur. */
  function FirstIndex(s: string, c: char): (i: nat)
    ensures i <= |s|
    ensures i < |s| ==> s[i] == c
    ensures forall k :: 0 <= k < i ==> s[k] != c
    decreases |s|
  {
    if s == [] || s[0] == c then 0 else 1 + FirstIndex(s[1..], c)
  }

  /** The first `c` in `a + [c] + b` is at `|a|` when `a` has none. */
  lemma {:induction false} FirstIndexOfJoin(a: string, c: char, b: string)
    requires c !in a
    ensures FirstIndex(a + [c] + b, c) == |a|
    decreases |a|
  {
    if a != [] {
      assert (a + [c] + b)[1..] == a[1..] + [c] + b;
      FirstIndexOfJoin(a[1..], c, b);
    }
  }

  /** `s.split(sep)` for a one-character separator. Never empty: "" splits to [""]. */
  function Split(s: string, sep: char): (parts: seq<string>)
    ensures |parts| >= 1
    ensures forall i :: 0 <= i < |parts| ==> sep !in parts[i]
    decreases |s|
  {
    var i := FirstIndex(s, sep);
    if i == |s| then [s] else [s[..i]] + Split(s[i + 1..], sep)
  }

  /** `parts.join(sep)` for a one-character separator. */
  function Join(parts: seq<string>, sep: char): string
    decreases |parts|
  {
    if parts == [] then ""
    else if |parts| == 1 then parts[0]
    else parts[0] + [sep] + Join(parts[1..], sep)
  }

  /** Joining the pieces of a split with the same separator gives back the string. */
  lemma {:induction false} JoinSplit(s: string, sep: char)
    ensures Join(Split(s, sep), sep) == s
    decreases |s|
  {
    var i := FirstIndex(s, sep);
    if i < |s| {
      var t := s[i + 1..];
      JoinSplit(t, sep);
      JoinSplitStep(s, sep, i, t);
    }
  }

  /** The inductive step of `JoinSplit`, past the first separator. */
  lemma JoinSplitStep(s: string, sep: char, i: nat, t: string)
    requires i == FirstIndex(s, sep) < |s| && t == s[i + 1..]
    requires Join(Split(t, sep), sep) == t
    ensures Join(Split(s, sep), sep) == s
  {
    var parts := Split(s, sep);
    assert parts == [s[..i]] + Split(t, sep);
    assert parts[1..] == Split(t, sep);
    assert Join(parts, sep) == s[..i] + [sep] + t;
    assert s == s[..i] + [sep] + t;
  }

  /** Splitting a join of separator-free pieces gives back the pieces. */
  lemma {:induction false} SplitJoin(parts: seq<string>, sep: char)
    requires |parts| >= 1
    requires forall p | p in parts :: sep !in p
    ensures Split(Join(parts, sep), sep) == parts
    decreases |parts|
  {
    if |parts| > 1 {
      var s := Join(parts, sep);
      var rest := Join(parts[1..], sep);
      assert s == parts[0] + [sep] + rest;
      FirstIndexOfJoin(parts[0], sep, rest);
      assert s[..|parts[0]|] == parts[0];
      assert s[|parts[0]| + 1..] == rest;
      SplitJoin(parts[1..], sep);
      assert [parts[0]] + parts[1..] == parts;
    } else {
      assert Join(parts, sep) == parts[0];
      assert sep !in parts[0];
    }
  }

  /** `s.split(sep).map(p => p.trim())` */
  function SplitTrim(s: string, sep: char): (r: seq<string>)
    ensures |r| == |Split(s, sep)|
    ensures forall i :: 0 <= i < |r| ==> r[i] == Trim(Split(s, sep)[i])
  {
    var parts := Split(s, sep);
    seq(|parts|, i requires 0 <= i < |parts| => Trim(parts[i]))
  }

  /** Writing separator-free pieces separated by `sep`, with any spacing around them, and reading them
      back with `SplitTrim` gives the trimmed pieces, in order. */
  lemma SplitTrimJoin(parts: seq<string>, sep: char)
    requires |parts| >= 1
    requires forall p | p in parts :: sep !in p
    ensures var r := SplitTrim(Join(parts, sep), sep);
      |r| == |parts| && forall i :: 0 <= i < |r| ==> r[i] == Trim(parts[i])
  {
    SplitJoin(parts, sep);
  }

  /** `s.split(sep)[0]`: the text before the first separator. */
  function FirstSegment(s: string, sep: char): (r: string)
    ensures r == s[..FirstIndex(s, sep)]
    ensures sep !in r
  {
    Split(s, sep)[0]
  }

  /** Index of the last `c` in `s`, or -1 when `c` does not occur. */
  function LastIndex(s: string, c: char): (i: int)
    ensures -1 <= i < |s|
    ensures i >= 0 ==> s[i] == c
    ensures forall k :: i < k < |s| ==> s[k] != c
    decreases |s|
  {
    if s == [] then -1 else if s[|s| - 1] == c then |s| - 1 else LastIndex(s[..|s| - 1], c)
  }

  /** `s.split(sep).pop()`: the text after the last separator (all of `s` when there is none). */
  function LastSegment(s: string, sep: char): (r: string)
    ensures sep !in r
    ensures |r| <= |s| && r == s[|s| - |r|..]
    ensures |r| < |s| ==> s[|s| - |r| - 1] == sep
  {
    s[LastIndex(s, sep) + 1..]
  }

  /** The last segment is the one suffix free of separators that is all of `s` or follows a separator. */
  lemma LastSegmentUnique(s: string, sep: char, m: nat)
    requires m <= |s|
    requires m == |s| || s[|s| - m - 1] == sep
    requires forall k :: |s| - m <= k < |s| ==> s[k] != sep
    ensures LastSegment(s, sep) == s[|s| - m..]
  {
    var n := |s|;
    var seg := LastSegment(s, sep);
    assert |seg| <= m by {
      forall k | n - |seg| <= k < n ensures s[k] != sep {
        assert s[k] == seg[k - (n - |seg|)];
      }
    }
    assert |seg| == n || s[n - |seg| - 1] == sep;
  }

  /** Past the first separator, the split's last piece is the last piece of what follows it. */
  lemma SplitLastPastFirst(s: string, sep: char, i: nat)
    requires i == FirstIndex(s, sep) < |s|
    ensures Split(s, sep)[|Split(s, sep)| - 1] == Split(s[i + 1..], sep)[|Split(s[i + 1..], sep)| - 1]
  {
    var parts := Split(s, sep);
    var rest := Split(s[i + 1..], sep);
    assert parts == [s[..i]] + rest;
    assert parts[|parts| - 1] == parts[|rest|];
  }

  /** `LastSegment` is indeed the last piece of `Split`. */
  lemma LastSegmentIsLastPiece(s: string, sep: char)
    ensures LastSegment(s, sep) == Split(s, sep)[|Split(s, sep)| - 1]
  {
    var m := SplitLastIsSuffix(s, sep);
    var last := Split(s, sep)[|Split(s, sep)| - 1];
    assert sep !in last;
    forall k | |s| - m <= k < |s| ensures s[k] != sep {
      assert s[k] == last[k - (|s| - m)];
    }
    LastSegmentUnique(s, sep, m);
  }

  /** The split's last piece is the suffix of some length `m` that is all of `s` or follows a separator. */
  lemma {:induction false} SplitLastIsSuffix(s: string, sep: char) returns (m: nat)
    ensures m <= |s| && Split(s, sep)[|Split(s, sep)| - 1] == s[|s| - m..]
    ensures m == |s| || s[|s| - m - 1] == sep
    decreases |s|
  {
    var i := FirstIndex(s, sep);
    if i < |s| {
      var t := s[i + 1..];
      var n := SplitLastIsSuffix(t, sep);
      m := SplitLastStep(s, sep, i, t, n);
    } else {
      PlainSplit(s, sep);
      m := |s|;
      assert s[|s| - m..] == s;
    }
  }

  /** The inductive step of `SplitLastIsSuffix`, past the first separator. */
  lemma SplitLastStep(s: string, sep: char, i: nat, t: string, n: nat) returns (m: nat)
    requires i == FirstIndex(s, sep) < |s| && t == s[i + 1..]
    requires n <= |t| && Split(t, sep)[|Split(t, sep)| - 1] == t[|t| - n..]
    requires n == |t| || t[|t| - n - 1] == sep
    ensures m <= |s| && Split(s, sep)[|Split(s, sep)| - 1] == s[|s| - m..]
    ensures m == |s| || s[|s| - m - 1] == sep
  {
    m := n;
    SplitLastPastFirst(s, sep, i);
    SuffixPastSep(s, sep, i, t, m);
  }

  /** A suffix of `t == s[i + 1..]` that is all of `t` or follows a separator is, when `s[i]` is a
      separator, such a suffix of `s` too. */
  lemma SuffixPastSep(s: string, sep: char, i: nat, t: string, m: nat)
    requires i < |s| && s[i] == sep && t == s[i + 1..] && m <= |t|
    requires m == |t| || t[|t| - m - 1] == sep
    ensures t[|t| - m..] == s[|s| - m..]
    ensures m == |s| || s[|s| - m - 1] == sep
  {
    if m < |t| {
      assert t[|t| - m - 1] == s[|s| - m - 1];
    }
  }

  /** Text without a separator splits into itself alone, and is its own last segment. */
  lemma PlainSplit(s: string, sep: char)
    requires forall k :: 0 <= k < |s| ==> s[k] != sep
    ensures Split(s, sep) == [s] && LastSegment(s, sep) == s
  {
    assert FirstIndex(s, sep) == |s|;
    LastSegmentUnique(s, sep, |s|);
  }

  /** The last segment of `a + [sep] + b` is `b` when `b` has no separator. */
  lemma LastSegmentAfter(a: string, sep: char, b: string)
    requires sep !in b
    ensures LastSegment(a + [sep] + b, sep) == b
  {
    var s := a + [sep] + b;
    assert s[|s| - |b| - 1] == sep;
    forall k | |s| - |b| <= k < |s| ensures s[k] != sep {
      assert s[k] == b[k - (|s| - |b|)];
    }
    LastSegmentUnique(s, sep, |b|);
    assert s[|s| - |b|..] == b;
  }

  /** A string with no separator is its own last segment. */
  lemma LastSegmentOfPlain(s: string, sep: char)
    requires sep !in s
    ensures LastSegment(s, sep) == s
  {
    LastSegmentUnique(s, sep, |s|);
  }

  // ---------------------------------------------------------------- case and affixes

  /** `toLowerCase` on one character, for the ASCII letters. */
  function LowerChar(c: char): (d: char)
    ensures ('A' <= c <= 'Z') ==> 'a' <= d <= 'z' && d as int == c as int + 32
    ensures !('A' <= c <= 'Z') ==> d == c
  {
    if 'A' <= c <= 'Z' then (c as int + 32) as char else c
  }

  /** `s.toLowerCase()` (ASCII letters only; see README). */
  function ToLower(s: string): (r: string)
    ensures |r| == |s|
    ensures forall i :: 0 <= i < |s| ==> r[i] == LowerChar(s[i])
  {
    seq(|s|, i requires 0 <= i < |s| => LowerChar(s[i]))
  }

  /** Lower-casing twice is lower-casing once. */
  lemma ToLowerIdempotent(s: string)
    ensures ToLower(ToLower(s)) == ToLower(s)
  {
  }

  /** Lower-casing keeps every character that is not an upper-case letter where it was. */
  lemma ToLowerKeeps(s: string, i: nat, c: char)
    requires i < |s| && !('A' <= c <= 'Z') && !('a' <= c <= 'z')
    ensures ToLower(s)[i] == c <==> s[i] == c
  {
  }

  /** When the lower-cased text ends with a separator and a separator-free `ext`, its last segment,
      lower-cased, is `ext`. */
  lemma LowerLastSegment(s: string, sep: char, ext: string)
    requires !('A' <= sep <= 'Z') && !('a' <= sep <= 'z')
    requires sep !in ext && EndsWith(ToLower(s), [sep] + ext)
    ensures ToLower(LastSegment(s, sep)) == ext
  {
    LowerEnd(s, sep, ext);
    LastSegmentOfLowerEnd(s, sep, ext);
    LowerOfSuffix(s, |s| - |ext|);
  }

  /** Text whose lower-cased form ends with a separator and `ext` ends with `ext` once lower-cased. */
  lemma LowerEnd(s: string, sep: char, ext: string)
    requires EndsWith(ToLower(s), [sep] + ext)
    ensures |ext| < |s| && ToLower(s)[|s| - |ext| - 1] == sep && ToLower(s)[|s| - |ext|..] == ext
  {
    var low := ToLower(s);
    var m := |ext|;
    assert low[|s| - m - 1..] == [sep] + ext;
    assert low[|s| - m..] == low[|s| - m - 1..][1..];
  }

  /** The same text's last segment is its last `|ext|` characters. */
  lemma LastSegmentOfLowerEnd(s: string, sep: char, ext: string)
    requires !('A' <= sep <= 'Z') && !('a' <= sep <= 'z')
    requires sep !in ext
    requires |ext| < |s| && ToLower(s)[|s| - |ext| - 1] == sep && ToLower(s)[|s| - |ext|..] == ext
    ensures LastSegment(s, sep) == s[|s| - |ext|..]
  {
    var n := |s|;
    var m := |ext|;
    var low := ToLower(s);
    ToLowerKeeps(s, n - m - 1, sep);
    forall k | n - m <= k < n ensures s[k] != sep {
      assert low[k] == ext[k - (n - m)];
      ToLowerKeeps(s, k, sep);
    }
    LastSegmentUnique(s, sep, m);
  }

  /** Lower-casing commutes with taking a suffix. */
  lemma LowerOfSuffix(s: string, k: nat)
    requires k <= |s|
    ensures ToLower(s[k..]) == ToLower(s)[k..]
  {
  }

  predicate StartsWith(s: string, prefix: string) {
    |prefix| <= |s| && s[..|prefix|] == prefix
  }

  /** `s.endsWith(suffix)` */
  predicate EndsWith(s: string, suffix: string) {
    |suffix| <= |s| && s[|s| - |suffix|..] == suffix
  }

  /** Index of the first occurrence of a non-empty `pat` in `s` (`indexOf`; None for -1). */
  function Find(s: string, pat: string): (r: Option<nat>)
    requires pat != []
    ensures r.Some? ==> r.value + |pat| <= |s| && s[r.value..r.value + |pat|] == pat
    ensures r.Some? ==> forall j :: 0 <= j < r.value ==> !StartsWith(s[j..], pat)
    ensures r.None? ==> forall j :: 0 <= j <= |s| ==> !StartsWith(s[j..], pat)
    decreases |s|
  {
    if |s| < |pat| then
      assert forall j :: 0 <= j <= |s| ==> |s[j..]| < |pat|;
      None
    else if s[..|pat|] == pat then Some(0)
    else
      match Find(s[1..], pat)
      case None =>
        FindNoneStep(s, pat, s[1..]);
        None
      case Some(k) =>
        FindSomeStep(s, pat, s[1..], k);
        Some(k + 1)
  }

  /** When `pat` does not start `s` and occurs nowhere in `t == s[1..]`, it occurs nowhere in `s`. */
  lemma FindNoneStep(s: string, pat: string, t: string)
    requires |s| >= |pat| > 0 && s[..|pat|] != pat && t == s[1..]
    requires forall j :: 0 <= j <= |t| ==> !StartsWith(t[j..], pat)
    ensures forall j :: 0 <= j <= |s| ==> !StartsWith(s[j..], pat)
  {
    forall j | 1 <= j <= |s| ensures !StartsWith(s[j..], pat) {
      assert s[j..] == t[j - 1..];
    }
  }

  /** When `pat` does not start `s` and first occurs at `k` in `t == s[1..]`, it first occurs at `k + 1`
      in `s`. */
  lemma FindSomeStep(s: string, pat: string, t: string, k: nat)
    requires |s| >= |pat| > 0 && s[..|pat|] != pat && t == s[1..]
    requires k + |pat| <= |t| && t[k..k + |pat|] == pat
    requires forall j :: 0 <= j < k ==> !StartsWith(t[j..], pat)
    ensures k + 1 + |pat| <= |s| && s[k + 1..k + 1 + |pat|] == pat
    ensures forall j :: 0 <= j < k + 1 ==> !StartsWith(s[j..], pat)
  {
    assert s[k + 1..k + 1 + |pat|] == t[k..k + |pat|];
    forall j | 1 <= j < k + 1 ensures !StartsWith(s[j..], pat) {
      assert s[j..] == t[j - 1..];
    }
  }

  /** `s.replace(pat, rep)` with a string pattern: only the first occurrence is replaced. */
  function ReplaceFirst(s: string, pat: string, rep: string): (r: string)
    requires pat != []
    ensures Find(s, pat).None? ==> r == s
    ensures Find(s, pat).Some? ==>
              var i := Find(s, pat).value; r == s[..i] + rep + s[i + |pat|..]
  {
    match Find(s, pat)
    case None => s
    case Some(i) => s[..i] + rep + s[i + |pat|..]
  }

  // ---------------------------------------------------------------- falsy strings

  /** A string value that is neither missing nor empty (JavaScript truthiness). */
  predicate Truthy(x: Option<string>) {
    x.Some? && x.value != ""
  }

  /** `x || fallback` for a possibly missing string. */
  function Or(x: Option<string>, fallback: string): (r: string)
    ensures Truthy(x) ==> r == x.value
    ensures !Truthy(x) ==> r == fallback
  {
    if Truthy(x) then x.value else fallback
  }

  // ---------------------------------------------------------------- decimal numbers

  function Pow10(k: nat): (p: nat)
    ensures p >= 1
  {
    if k == 0 then 1 else 10 * Pow10(k - 1)
  }

  predicate IsDigit(c: char) {
    '0' <= c <= '9'
  }

  function DigitChar(d: nat): (c: char)
    requires d < 10
    ensures IsDigit(c) && c as int - '0' as int == d
  {
    ('0' as int + d) as char
  }

  /** `n.toString()` for a non-negative integer. */
  function Decimal(n: nat): (r: string)
    ensures |r| >= 1
    ensures forall i :: 0 <= i < |r| ==> IsDigit(r[i])
    decreases n
  {
    if n < 10 then [DigitChar(n)] else Decimal(n / 10) + [DigitChar(n % 10)]
  }

  /** The value of a string of decimal digits. */
  function DigitsValue(s: string): nat
    requires forall i :: 0 <= i < |s| ==> IsDigit(s[i])
    decreases |s|
  {
    if s == [] then 0
    else
      assert IsDigit(s[|s| - 1]);
      10 * DigitsValue(s[..|s| - 1]) + (s[|s| - 1] as int - '0' as int)
  }

  /** Reading back the decimal rendering of `n` gives `n`. */
  lemma {:induction false} DecimalRoundTrip(n: nat)
    ensures DigitsValue(Decimal(n)) == n
    decreases n
  {
    if n >= 10 {
      DecimalRoundTrip(n / 10);
      var r := Decimal(n);
      assert r[..|r| - 1] == Decimal(n / 10);
    }
  }

  /** A number with exactly `k` decimal digits renders as `k` characters. */
  lemma {:induction false} DecimalLength(n: nat, k: nat)
    requires k >= 1 && Pow10(k - 1) <= n < Pow10(k)
    ensures |Decimal(n)| == k
    decreases k
  {
    if k > 1 {
      assert Pow10(k - 2) <= n / 10 < Pow10(k - 1);
      DecimalLength(n / 10, k - 1);
    } else {
      assert n < 10;
    }
  }
}
