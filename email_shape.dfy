/**
 * The e-mail shape check shared by the checkout code request and the contact
 * form: `/^[^\s@]+@[^\s@]+\.[^\s@]+$/.test(email)`.
 *
 * `MatchesEmailPattern` is the language of the regular expression, stated by
 * its decomposition; `IsValidEmail` is a direct scan. `EmailCheckIsPattern`
 * proves they accept exactly the same strings.
 */
module EmailShape {
  import opened JsStrings

  /** A character of the class `[^\s@]`. */
  predicate Plain(c: char) {
    !IsSpace(c) && c != '@'
  }

  predicate AllPlain(s: string) {
    forall i :: 0 <= i < |s| ==> Plain(s[i])
  }

  /** `s` is a non-empty run of `[^\s@]`, then `@`, then a non-empty run, `.`, and a non-empty run. */
  ghost predicate MatchesEmailPattern(s: string) {
    exists i, j ::
      && 0 < i && i + 1 < j && j + 1 < |s|
      && s[i] == '@' && s[j] == '.'
      && AllPlain(s[..i]) && AllPlain(s[i + 1..j]) && AllPlain(s[j + 1..])
  }

  /** Some `.` in `d` has text on both sides. */
  predicate HasInnerDot(d: string) {
    exists j :: 0 < j < |d| - 1 && d[j] == '.'
  }

  /** The scan the handlers run: no white space, a non-empty local part before the
      first `@`, no further `@`, and a `.` strictly inside the domain. */
  predicate IsValidEmail(s: string) {
    var at := FirstIndex(s, '@');
    && 0 < at < |s|
    && (forall k :: 0 <= k < |s| ==> !IsSpace(s[k]))
    && (forall k :: at < k < |s| ==> s[k] != '@')
    && HasInnerDot(s[at + 1..])
  }

  /** Every address the scan accepts is in the language of the regular expression. */
  lemma EmailCheckSound(s: string)
    requires IsValidEmail(s)
    ensures MatchesEmailPattern(s)
  {
    var at := FirstIndex(s, '@');
    var d := s[at + 1..];
    var jd :| 0 < jd < |d| - 1 && d[jd] == '.';
    var j := at + 1 + jd;
    assert s[j] == '.';
    assert AllPlain(s[..at]) by {
      forall k | 0 <= k < at ensures Plain(s[..at][k]) {
        assert s[..at][k] == s[k];
      }
    }
    var mid, tail := s[at + 1..j], s[j + 1..];
    forall k | 0 <= k < |mid| ensures Plain(mid[k]) {
      assert mid[k] == s[at + 1 + k];
    }
    forall k | 0 <= k < |tail| ensures Plain(tail[k]) {
      assert tail[k] == s[j + 1 + k];
    }
  }

  /** Every string in the language of the regular expression passes the scan. */
  lemma EmailCheckComplete(s: string)
    requires MatchesEmailPattern(s)
    ensures IsValidEmail(s)
  {
    var i, j :|
      && 0 < i && i + 1 < j && j + 1 < |s|
      && s[i] == '@' && s[j] == '.'
      && AllPlain(s[..i]) && AllPlain(s[i + 1..j]) && AllPlain(s[j + 1..]);
    PlainOutside(s, i, j);
    ScanAccepts(s, i, j);
  }

  /** In the decomposition, every character but the `@` and the `.` is plain. */
  lemma PlainOutside(s: string, i: nat, j: nat)
    requires 0 < i && i + 1 < j && j + 1 < |s|
    requires AllPlain(s[..i]) && AllPlain(s[i + 1..j]) && AllPlain(s[j + 1..])
    ensures forall k :: 0 <= k < |s| && k != i && k != j ==> Plain(s[k])
  {
    forall k | 0 <= k < |s| && k != i && k != j ensures Plain(s[k]) {
      if k < i {
        assert s[k] == s[..i][k];
      } else if k < j {
        assert s[k] == s[i + 1..j][k - i - 1];
      } else {
        assert s[k] == s[j + 1..][k - j - 1];
      }
    }
  }

  /** An `@` at `i` and a `.` at `j`, with text around both and everything else plain, pass the scan. */
  lemma ScanAccepts(s: string, i: nat, j: nat)
    requires 0 < i && i + 1 < j && j + 1 < |s| && s[i] == '@' && s[j] == '.'
    requires forall k :: 0 <= k < |s| && k != i && k != j ==> Plain(s[k])
    ensures IsValidEmail(s)
  {
    assert FirstIndex(s, '@') == i;
    var d := s[i + 1..];
    assert d[j - i - 1] == '.';
  }

  /** The scan accepts exactly the language of the regular expression. */
  lemma EmailCheckIsPattern(s: string)
    ensures IsValidEmail(s) <==> MatchesEmailPattern(s)
  {
    if IsValidEmail(s) {
      EmailCheckSound(s);
    }
    if MatchesEmailPattern(s) {
      EmailCheckComplete(s);
    }
  }

  /** A valid address has no white space and exactly one `@`, preceded by some text. */
  lemma ValidEmailHasOneAt(s: string)
    requires IsValidEmail(s)
    ensures forall k :: 0 <= k < |s| ==> !IsSpace(s[k])
    ensures exists at :: 0 < at < |s| && s[at] == '@' && forall k :: 0 <= k < |s| && s[k] == '@' ==> k == at
  {
    var at := FirstIndex(s, '@');
    assert s[at] == '@';
  }
}
