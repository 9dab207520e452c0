/**
 * The e-mail shape check `^[^\s@]+@[^\s@]+\.[^\s@]+$` that the deployed
 * endpoint and the contact page both apply.
 */
module EmailShape {
  import opened Text

  /** A character of the class `[^\s@]`. */
  predicate Plain(c: char) {
    !IsWhitespace(c) && c != '@'
  }

  predicate AllPlain(s: string) {
    forall i :: 0 <= i < |s| ==> Plain(s[i])
  }

  /** `s` splits at `at` and `dot` into the regex's four pieces: local part, `@`, name, `.`, suffix. */
  predicate SplitsAt(s: string, at: int, dot: int) {
    0 < at && at + 1 < dot && dot + 1 < |s| && s[at] == '@' && s[dot] == '.'
    && AllPlain(s[..at]) && AllPlain(s[at + 1..dot]) && AllPlain(s[dot + 1..])
  }

  /** The regex read literally: some way of splitting `s` matches it. */
  ghost predicate MatchesRegex(s: string) {
    exists at, dot :: SplitsAt(s, at, dot)
  }

  /** Index of the first `@`, or `|s|` when there is none. */
  function IndexOfAt(s: string): (k: nat)
    ensures k <= |s| && (k < |s| ==> s[k] == '@')
    ensures forall i :: 0 <= i < k ==> s[i] != '@'
  {
    if s == [] || s[0] == '@' then 0 else 1 + IndexOfAt(s[1..])
  }

  /** The part after `@`: plain characters with a `.` somewhere strictly inside. */
  predicate DomainOk(d: string) {
    AllPlain(d) && exists k :: 0 < k < |d| - 1 && d[k] == '.'
  }

  /** The check as a scan: find the `@`, then check the local part and the domain. */
  function IsValidEmail(s: string): (ok: bool)
    ensures ok <==> MatchesRegex(s)
  {
    var at := IndexOfAt(s);
    var ok := 0 < at < |s| && AllPlain(s[..at]) && DomainOk(s[at + 1..]);
    assert ok ==> MatchesRegex(s) by {
      if ok {
        var d := s[at + 1..];
        var k :| 0 < k < |d| - 1 && d[k] == '.';
        assert s[at + 1..at + 1 + k] == d[..k] && s[at + 1 + k + 1..] == d[k + 1..];
        assert SplitsAt(s, at, at + 1 + k);
      }
    }
    assert MatchesRegex(s) ==> ok by {
      if MatchesRegex(s) {
        var a, dot :| SplitsAt(s, a, dot);
        assert forall i :: 0 <= i < a ==> s[i] == s[..a][i];
        assert at == a;
        var d := s[at + 1..];
        assert d[dot - at - 1] == '.';
        assert forall i :: 0 <= i < |d| ==> Plain(d[i]) by {
          forall i | 0 <= i < |d| ensures Plain(d[i]) {
            if at + 1 + i < dot {
              assert d[i] == s[at + 1..dot][i];
            } else if at + 1 + i > dot {
              assert d[i] == s[dot + 1..][at + i - dot];
            }
          }
        }
      }
    }
    ok
  }

  /** A valid address has no whitespace and exactly one `@`, with a non-empty part before it. */
  lemma ValidEmailShape(s: string)
    requires IsValidEmail(s)
    ensures NoWhitespace(s)
    ensures exists at :: 0 < at < |s| && s[at] == '@' && forall i :: 0 <= i < |s| && i != at ==> s[i] != '@'
  {
    var at := IndexOfAt(s);
    var d := s[at + 1..];
    assert forall i :: at < i < |s| ==> s[i] == d[i - at - 1];
    assert forall i :: 0 <= i < at ==> s[i] == s[..at][i];
  }

  /** Conversely, no whitespace, one `@` after a non-empty local part and a domain with an inner `.` is valid. */
  lemma ShapeIsValidEmail(s: string, at: nat)
    requires NoWhitespace(s) && 0 < at < |s| && s[at] == '@'
    requires forall i :: 0 <= i < |s| && i != at ==> s[i] != '@'
    requires exists k :: at + 1 < k < |s| - 1 && s[k] == '.'
    ensures IsValidEmail(s)
  {
    assert IndexOfAt(s) == at by {
      var k := IndexOfAt(s);
      assert k <= at;
    }
    var d := s[at + 1..];
    var k :| at + 1 < k < |s| - 1 && s[k] == '.';
    assert d[k - at - 1] == '.';
  }
}
