/** The fixed e-mail expression of `validateField`,
    `/^[a-zA-Z0-9._%+-]+@[a-zA-Z0-9.-]+\.[a-zA-Z]{2,}$/` (no flags, so `$`
    is the end of the value and letters are case-sensitive). */
module Email {
  import opened Strings

  /** `[a-zA-Z0-9._%+-]` */
  predicate IsLocalChar(c: char) {
    IsAsciiLetter(c) || IsDigit(c) || c == '.' || c == '_' || c == '%' || c == '+' || c == '-'
  }

  /** `[a-zA-Z0-9.-]` */
  predicate IsDomainChar(c: char) {
    IsAsciiLetter(c) || IsDigit(c) || c == '.' || c == '-'
  }

  /** The expression read as a shape with the `@` at a and the last `.` at
      d: a local part s[..a], a domain head s[a+1..d] and two or more
      letters after d. */
  predicate Shape(s: string, a: int, d: int) {
    0 < a && a + 1 < d && d + 2 < |s| &&
    Run(s, 0, a, IsLocalChar) && s[a] == '@' && Run(s, a + 1, d, IsDomainChar) &&
    s[d] == '.' && Run(s, d + 1, |s|, IsAsciiLetter)
  }

  /** What the expression matches: some split has the shape. */
  predicate EmailPattern(s: string) {
    exists a, d | 0 <= a < |s| && 0 <= d < |s| :: Shape(s, a, d)
  }

  /** The matcher's test of one split, checking characters from the left. */
  predicate SplitOk(s: string, a: int, d: int) {
    0 < a && a + 1 < d && d + 2 < |s| &&
    Span(s, 0, a, IsLocalChar) && Span(s, a + 1, d, IsDomainChar) && Span(s, d + 1, |s|, IsAsciiLetter)
  }

  /** A deterministic reading of the same expression: split at the first `@`
      and at the last `.`. */
  predicate EmailCheck(s: string) {
    var at, dot := FirstIndex(s, '@'), LastIndex(s, '.');
    at.Some? && dot.Some? && SplitOk(s, at.value, dot.value)
  }

  /** The deterministic split accepts exactly what the expression matches. */
  lemma EmailCheckIff(s: string)
    ensures EmailCheck(s) <==> EmailPattern(s)
  {
    if EmailCheck(s) {
      EmailCheckSound(s);
    }
    if EmailPattern(s) {
      EmailCheckComplete(s);
    }
  }

  /** Where the split characters are the first `@` and the last `.`, the
      matcher's test and the shape agree. */
  lemma SplitIff(s: string, a: int, d: int)
    requires 0 <= a < |s| && s[a] == '@' && 0 <= d < |s| && s[d] == '.'
    ensures SplitOk(s, a, d) <==> Shape(s, a, d)
  {
    if 0 < a && a + 1 < d && d + 2 < |s| {
      SpanIff(s, 0, a, IsLocalChar);
      SpanIff(s, a + 1, d, IsDomainChar);
      SpanIff(s, d + 1, |s|, IsAsciiLetter);
    }
  }

  lemma EmailCheckSound(s: string)
    requires EmailCheck(s)
    ensures EmailPattern(s)
  {
    var a, d := FirstIndex(s, '@').value, LastIndex(s, '.').value;
    SplitIff(s, a, d);
  }

  lemma EmailCheckComplete(s: string)
    requires EmailPattern(s)
    ensures EmailCheck(s)
  {
    var a, d :| 0 <= a < |s| && 0 <= d < |s| && Shape(s, a, d);
    forall k | 0 <= k < a ensures s[k] != '@' {
      assert IsLocalChar(s[k]);
    }
    forall k | d < k < |s| ensures s[k] != '.' {
      assert IsAsciiLetter(s[k]);
    }
    FirstIndexIs(s, '@', a);
    LastIndexIs(s, '.', d);
    SplitIff(s, a, d);
  }

  /** An accepted address holds exactly one `@`, with a non-empty local part
      before it and a dot-separated domain after it whose last label is two
      or more letters. */
  lemma EmailStructure(s: string)
    requires EmailPattern(s)
    ensures exists a | 0 < a < |s| :: s[a] == '@' && forall k | 0 <= k < |s| && k != a :: s[k] != '@'
    ensures exists d | 0 < d < |s| - 2 :: s[d] == '.' && forall k | d < k < |s| :: IsAsciiLetter(s[k])
  {
    var a, d :| 0 <= a < |s| && 0 <= d < |s| && Shape(s, a, d);
    forall k | 0 <= k < |s| && k != a ensures s[k] != '@' {
      if k < a { assert IsLocalChar(s[k]); }
      else if k < d { assert IsDomainChar(s[k]); }
      else if k > d { assert IsAsciiLetter(s[k]); }
    }
  }

  /** An address whose last label is a single letter is refused. */
  lemma ShortTopLevelRefused()
    ensures !EmailPattern("a@b.c")
  {
    EmailCheckIff("a@b.c");
    assert FirstIndex("a@b.c", '@') == Some(1);
    assert LastIndex("a@b.c", '.') == Some(3);
  }

  /** A plain address is accepted. */
  lemma PlainAddressAccepted()
    ensures EmailPattern("jo@x.io")
  {
    var s := "jo@x.io";
    assert Run(s, 0, 2, IsLocalChar) && s[2] == '@' && Run(s, 3, 4, IsDomainChar);
    assert s[4] == '.' && Run(s, 5, 7, IsAsciiLetter);
    assert Shape(s, 2, 4);
  }
}
