/** The subscribe route's address check, the regular expression
    `^[^\s@]+@[^\s@]+\.[^\s@]+$`, and the plain-words reading of it. */
module EmailPattern {
  import opened Strings

  /** A character of the class `[^\s@]`. */
  predicate Plain(c: char) {
    !IsSpace(c) && c != '@'
  }

  /** A match of `[^\s@]+`. */
  predicate PlainRun(s: string) {
    |s| > 0 && forall i :: 0 <= i < |s| ==> Plain(s[i])
  }

  /** The language of the regular expression: a plain run, `@`, a plain run, `.`, a plain
      run, covering the whole string. */
  ghost predicate MatchesPattern(s: string) {
    exists at, dot :: MatchesAt(s, at, dot)
  }

  /** The pattern matches `s` with its `@` at `at` and its `.` at `dot`. */
  predicate MatchesAt(s: string, at: int, dot: int) {
    && 0 <= at < dot < |s|
    && s[at] == '@' && s[dot] == '.'
    && PlainRun(s[..at]) && PlainRun(s[at + 1..dot]) && PlainRun(s[dot + 1..])
  }

  function Count(s: string, c: char): (n: nat)
    ensures n == 0 <==> c !in s
  {
    if s == [] then 0 else (if s[0] == c then 1 else 0) + Count(s[1..], c)
  }

  lemma {:induction false} CountConcat(a: string, b: string, c: char)
    ensures Count(a + b, c) == Count(a, c) + Count(b, c)
  {
    if a == [] {
      assert a + b == b;
    } else {
      assert (a + b)[1..] == a[1..] + b;
      CountConcat(a[1..], b, c);
    }
  }

  predicate NoSpace(s: string) {
    forall i :: 0 <= i < |s| ==> !IsSpace(s[i])
  }

  /** A domain with a `.` that has at least one character on each side. */
  predicate HasInnerDot(d: string) {
    |d| >= 3 && '.' in d[1..|d| - 1]
  }

  /** The address check in words: no whitespace, exactly one `@`, a non-empty part before
      it, and after it a domain containing a `.` with characters on both sides. */
  predicate ValidEmail(s: string) {
    && NoSpace(s)
    && '@' in s
    && Count(s, '@') == 1
    && var at := IndexOf(s, '@');
      && at > 0
      && HasInnerDot(s[at + 1..])
  }

  /** The words describe exactly the strings the regular expression accepts. */
  lemma ValidEmailIffPattern(s: string)
    ensures ValidEmail(s) <==> MatchesPattern(s)
  {
    if ValidEmail(s) {
      ValidEmailMatches(s);
    }
    if MatchesPattern(s) {
      var at, dot :| MatchesAt(s, at, dot);
      PatternIsValid(s, at, dot);
    }
  }

  lemma ValidEmailMatches(s: string)
    requires ValidEmail(s)
    ensures MatchesPattern(s)
  {
    var at := IndexOf(s, '@');
    var d := s[at + 1..];
    assert s == s[..at] + [s[at]] + d;
    CountConcat(s[..at] + [s[at]], d, '@');
    CountConcat(s[..at], [s[at]], '@');
    assert '@' !in d;
    var k :| 0 <= k < |d[1..|d| - 1]| && d[1..|d| - 1][k] == '.';
    var dot := at + 2 + k;
    assert s[dot] == '.';
    assert PlainRun(s[..at]);
    assert s[at + 1..dot] == d[..k + 1];
    assert PlainRun(s[at + 1..dot]);
    assert s[dot + 1..] == d[k + 2..];
    assert PlainRun(s[dot + 1..]);
    assert MatchesAt(s, at, dot);
  }

  lemma PatternIsValid(s: string, at: int, dot: int)
    requires 0 <= at < dot < |s|
    requires s[at] == '@' && s[dot] == '.'
    requires PlainRun(s[..at]) && PlainRun(s[at + 1..dot]) && PlainRun(s[dot + 1..])
    ensures ValidEmail(s)
  {
    PatternHasNoSpace(s, at, dot);
    var d := s[at + 1..];
    PatternDomainHasNoAt(s, at, dot);
    assert s == s[..at] + [s[at]] + d;
    CountConcat(s[..at] + [s[at]], d, '@');
    CountConcat(s[..at], [s[at]], '@');
    assert '@' !in s[..at];
    assert IndexOf(s, '@') == at;
    assert d[1..|d| - 1][dot - at - 2] == '.';
  }

  lemma PatternHasNoSpace(s: string, at: int, dot: int)
    requires 0 <= at < dot < |s|
    requires s[at] == '@' && s[dot] == '.'
    requires PlainRun(s[..at]) && PlainRun(s[at + 1..dot]) && PlainRun(s[dot + 1..])
    ensures NoSpace(s)
  {
    forall i | 0 <= i < |s| ensures !IsSpace(s[i]) {
      if i < at {
        assert s[i] == s[..at][i];
      } else if at < i < dot {
        assert s[i] == s[at + 1..dot][i - at - 1];
      } else if dot < i {
        assert s[i] == s[dot + 1..][i - dot - 1];
      }
    }
  }

  lemma PatternDomainHasNoAt(s: string, at: int, dot: int)
    requires 0 <= at < dot < |s|
    requires s[dot] == '.'
    requires PlainRun(s[at + 1..dot]) && PlainRun(s[dot + 1..])
    ensures '@' !in s[at + 1..]
  {
    var d := s[at + 1..];
    forall i | 0 <= i < |d| ensures d[i] != '@' {
      var j := at + 1 + i;
      if j < dot {
        assert d[i] == s[at + 1..dot][i];
      } else if j > dot {
        assert d[i] == s[dot + 1..][j - dot - 1];
      }
    }
  }
}
