/**
 * The email check the three public submission handlers share, the regular expression
 * `^[^\s@]+@[^\s@]+\.[^\s@]+$`. `MatchesPattern` is the expression read structurally;
 * `ValidEmail` is the rule it enforces, in words: no whitespace, exactly one `@`, something
 * before it, and after it a `.` that is neither the first nor the last character of the domain.
 * `ValidEmailIsPattern` proves the two agree on every string.
 */
module Email {
  import Text

  /** A character of the class `[^\s@]`. */
  predicate Plain(c: char) {
    !Text.IsJsWhitespace(c) && c != '@'
  }

  /** `[^\s@]*` over the whole of `s`. */
  predicate AllPlain(s: string) {
    forall k :: 0 <= k < |s| ==> Plain(s[k])
  }

  /**
   * The regular expression: a non-empty plain run, `@` at index `i`, a non-empty plain run,
   * `.` at index `j`, and a non-empty plain run to the end.
   */
  ghost predicate MatchesPattern(s: string) {
    exists i, j :: 0 < i && i + 1 < j < |s| - 1 && s[i] == '@' && s[j] == '.'
      && AllPlain(s[..i]) && AllPlain(s[i + 1..j]) && AllPlain(s[j + 1..])
  }

  /** `emailRegex.test(email)`, as the rule it enforces. */
  predicate ValidEmail(s: string) {
    && (forall k :: 0 <= k < |s| ==> !Text.IsJsWhitespace(s[k]))
    && multiset(s)['@'] == 1
    && exists i :: 0 < i < |s| && s[i] == '@' && exists j :: i + 1 < j < |s| - 1 && s[j] == '.'
  }

  /** A character that occurs exactly at one index occurs once. */
  lemma OccursOnce(s: string, i: int, c: char)
    requires 0 <= i < |s| && s[i] == c
    requires forall k :: 0 <= k < |s| && k != i ==> s[k] != c
    ensures multiset(s)[c] == 1
  {
    assert s == s[..i] + [c] + s[i + 1..];
    assert c !in s[..i];
    assert c !in s[i + 1..];
  }

  /** A character at two different indices occurs at least twice. */
  lemma OccursTwice(s: string, i: int, k: int, c: char)
    requires 0 <= i < k < |s| && s[i] == c && s[k] == c
    ensures multiset(s)[c] >= 2
  {
    assert s == s[..k] + s[k..];
    assert c in s[..k] by { assert s[..k][i] == c; }
    assert c in s[k..] by { assert s[k..][0] == c; }
  }

  /** The stated rule and the regular expression accept exactly the same strings. */
  lemma ValidEmailIsPattern(s: string)
    ensures ValidEmail(s) <==> MatchesPattern(s)
  {
    if ValidEmail(s) {
      var i, j :| 0 < i < |s| && s[i] == '@' && i + 1 < j < |s| - 1 && s[j] == '.';
      forall k | 0 <= k < |s| && k != i
        ensures s[k] != '@'
      {
        if s[k] == '@' {
          if k < i { OccursTwice(s, k, i, '@'); } else { OccursTwice(s, i, k, '@'); }
        }
      }
      assert AllPlain(s[..i]);
      assert AllPlain(s[i + 1..j]);
      assert AllPlain(s[j + 1..]);
    }
    if MatchesPattern(s) {
      var i, j :| 0 < i && i + 1 < j < |s| - 1 && s[i] == '@' && s[j] == '.'
        && AllPlain(s[..i]) && AllPlain(s[i + 1..j]) && AllPlain(s[j + 1..]);
      forall k | 0 <= k < |s| && k != i
        ensures Plain(s[k]) || k == j
      {
        if k < i {
          assert s[k] == s[..i][k];
        } else if k < j {
          assert s[k] == s[i + 1..j][k - i - 1];
        } else if k > j {
          assert s[k] == s[j + 1..][k - j - 1];
        }
      }
      OccursOnce(s, i, '@');
    }
  }

  /** An address that passes has a non-empty local part and a domain with an inner `.`. */
  lemma ValidEmailParts(s: string)
    requires ValidEmail(s)
    ensures exists local, domain :: s == local + "@" + domain && ValidParts(local, domain)
  {
    var i :| 0 < i < |s| && s[i] == '@' && exists j :: i + 1 < j < |s| - 1 && s[j] == '.';
    var j :| i + 1 < j < |s| - 1 && s[j] == '.';
    var local, domain := s[..i], s[i + 1..];
    assert s == local + "@" + domain;
    assert domain[j - i - 1] == '.';
    assert ValidParts(local, domain);
  }

  /** The two halves of a passing address. */
  predicate ValidParts(local: string, domain: string) {
    && local != []
    && exists d :: 0 < d < |domain| - 1 && domain[d] == '.'
  }
}
