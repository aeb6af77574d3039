/** `validateEmail` (frontend/src/utils/helpers.js), the regular expression
    `^[^\s@]+@[^\s@]+\.[^\s@]+$`, as a scan over the string and as the
    language the expression denotes. */
module Email {
  import opened Base
  import opened Text

  /** A character of the class `[^\s@]`. */
  predicate Plain(c: char) {
    !IsSpace(c) && c != '@'
  }

  predicate AllPlain(s: string) {
    forall i :: 0 <= i < |s| ==> Plain(s[i])
  }

  /** A non-empty run of `[^\s@]+`. */
  predicate PlainRun(s: string) {
    |s| > 0 && AllPlain(s)
  }

  /** The language of the expression: three plain runs joined by an `@` at
      position `at` and a `.` at position `dot`. */
  ghost predicate MatchesPattern(s: string) {
    exists at, dot :: 0 <= at < dot < |s| && SplitsAt(s, at, dot)
  }

  predicate SplitsAt(s: string, at: int, dot: int)
    requires 0 <= at < dot < |s|
  {
    s[at] == '@' && s[dot] == '.' && PlainRun(s[..at]) && PlainRun(s[at + 1..dot]) && PlainRun(s[dot + 1..])
  }

  /** Position of the first occurrence of `c`. */
  function FirstIndex(s: string, c: char): (r: Option<nat>)
    ensures r.Some? ==> r.value < |s| && s[r.value] == c && c !in s[..r.value]
    ensures r.None? ==> c !in s
    decreases |s|
  {
    if |s| == 0 then None
    else if s[0] == c then Some(0)
    else
      match FirstIndex(s[1..], c)
      case None => None
      case Some(i) =>
        assert s[..i + 1] == [s[0]] + s[1..][..i];
        Some(i + 1)
  }

  /** The domain has a `.` that is neither its first nor its last character. */
  predicate InnerDot(domain: string) {
    |domain| >= 3 && '.' in domain[1..|domain| - 1]
  }

  /** The validator: a non-empty local part before the first `@`, no `@` or
      whitespace anywhere else, and an inner `.` in the domain. */
  predicate ValidateEmail(s: string) {
    match FirstIndex(s, '@')
    case None => false
    case Some(at) => at > 0 && AllPlain(s[..at]) && AllPlain(s[at + 1..]) && InnerDot(s[at + 1..])
  }

  /** The scan accepts exactly the strings the expression matches. */
  lemma ValidateMatchesPattern(s: string)
    ensures ValidateEmail(s) <==> MatchesPattern(s)
  {
    if ValidateEmail(s) {
      ValidIsMatch(s);
    }
    if MatchesPattern(s) {
      var at, dot :| 0 <= at < dot < |s| && SplitsAt(s, at, dot);
      MatchIsValid(s, at, dot);
    }
  }

  /** The scan's split points are a match of the expression. */
  lemma ValidIsMatch(s: string)
    requires ValidateEmail(s)
    ensures MatchesPattern(s)
  {
    var at := FirstIndex(s, '@').value;
    var domain := s[at + 1..];
    var k :| 1 <= k < |domain| - 1 && domain[k] == '.';
    var dot := at + 1 + k;
    assert s[at + 1..dot] == domain[..k];
    assert s[dot + 1..] == domain[k + 1..];
    assert SplitsAt(s, at, dot);
  }

  /** Any match makes the scan succeed: its `@` is the first one. */
  lemma MatchIsValid(s: string, at: int, dot: int)
    requires 0 <= at < dot < |s| && SplitsAt(s, at, dot)
    ensures ValidateEmail(s)
  {
    assert '@' !in s[..at];
    assert s[at] in s;
    assert FirstIndex(s, '@') == Some(at);
    var domain := s[at + 1..];
    forall i | 0 <= i < |domain| ensures Plain(domain[i]) {
      if i != dot - at - 1 {
        PlainAt(s, at, dot, at + 1 + i);
      }
    }
    assert domain[1..|domain| - 1][dot - at - 2] == '.';
  }

  /** Whitespace anywhere, or a second `@`, makes the address invalid. */
  lemma RejectsSpaceAndSecondAt(s: string, i: int, j: int)
    requires 0 <= i < |s| && 0 <= j < |s|
    requires IsSpace(s[i]) || (i != j && s[i] == '@' && s[j] == '@')
    ensures !ValidateEmail(s)
  {
    if ValidateEmail(s) {
      ValidateMatchesPattern(s);
      var at, dot :| 0 <= at < dot < |s| && SplitsAt(s, at, dot);
      PlainAt(s, at, dot, i);
      PlainAt(s, at, dot, j);
    }
  }

  /** Every position of a matched string other than the `@` and the chosen
      `.` holds a plain character. */
  lemma PlainAt(s: string, at: int, dot: int, i: int)
    requires 0 <= at < dot < |s| && SplitsAt(s, at, dot) && 0 <= i < |s|
    ensures i != at ==> !IsSpace(s[i]) && s[i] != '@'
  {
    if i < at {
      assert s[..at][i] == s[i];
    } else if at < i < dot {
      assert s[at + 1..dot][i - at - 1] == s[i];
    } else if i > dot {
      assert s[dot + 1..][i - dot - 1] == s[i];
    }
  }
}
