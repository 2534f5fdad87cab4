/** `containsXSS`: eleven case-insensitive regular expressions, any one of
    which flags a value. Each expression is rebuilt on every call, so the
    `g` flag's `lastIndex` is always 0 and the detector is a pure function.
    A regular-expression search tries each start position in turn; a
    pattern "matches at i" when some match of it begins at index i. */
module Xss {
  import opened Strings

  /** `/<tag[\s\S]*?>/i` from i: the tag opener, then a `>` anywhere after it. */
  predicate TagAt(s: string, i: int, tag: string) {
    MatchesAt(s, i, tag) && exists j | i + |tag| <= j < |s| :: s[j] == '>'
  }

  /** `/name\s*\(/i` from i: the name, optional white space, then `(`. */
  predicate CallAt(s: string, i: int, name: string) {
    MatchesAt(s, i, name) &&
    exists m | i + |name| <= m < |s| :: Run(s, i + |name|, m, IsJsSpace) && s[m] == '('
  }

  /** `/on\w+\s*=/i` from i: `on`, one or more word characters, optional
      white space, then `=`. */
  predicate HandlerAt(s: string, i: int) {
    MatchesAt(s, i, "on") &&
    exists j, m | i + 2 < j <= m < |s| :: Run(s, i + 2, j, IsWordChar) && Run(s, j, m, IsJsSpace) && s[m] == '='
  }

  /** The shapes of the eleven expressions: `/<tag[\s\S]*?>/gi`,
      `/scheme:/gi`, `/name\s*\(/gi` and `/on\w+\s*=/gi`. */
  datatype Pattern = Tag(opener: string) | Scheme(prefix: string) | Call(name: string) | Handler

  /** `xssPatterns`, in the order the source lists them. */
  const PATTERNS: seq<Pattern> := [
    Tag("<script"), Scheme("javascript:"), Handler, Tag("<iframe"), Tag("<object"),
    Tag("<embed"), Tag("<link"), Call("eval"), Call("expression"), Call("url"), Scheme("data:")]

  /** Pattern p, read as a shape, matches at i. */
  predicate Matches(p: Pattern, s: string, i: int) {
    match p
    case Tag(t) => TagAt(s, i, t)
    case Scheme(l) => MatchesAt(s, i, l)
    case Call(n) => CallAt(s, i, n)
    case Handler => HandlerAt(s, i)
  }

  /** The patterns read as shapes: some pattern matches somewhere in s. */
  predicate Flagged(s: string) {
    exists n, i | 0 <= n < |PATTERNS| && 0 <= i < |s| :: Matches(PATTERNS[n], s, i)
  }

  /** The matcher for `[\s\S]*?>` from j: some index j or later holds `>`. */
  predicate CloseFrom(s: string, j: nat)
    decreases |s| - j
  {
    j < |s| && (s[j] == '>' || CloseFrom(s, j + 1))
  }

  /** The matcher for `\s*c` from j. */
  predicate SpacesThen(s: string, j: nat, c: char)
    decreases |s| - j
  {
    j < |s| && (s[j] == c || (IsJsSpace(s[j]) && SpacesThen(s, j + 1, c)))
  }

  /** The matcher for `\w+\s*=` from j. */
  predicate WordsThenEquals(s: string, j: nat)
    decreases |s| - j
  {
    j < |s| && IsWordChar(s[j]) && (SpacesThen(s, j + 1, '=') || WordsThenEquals(s, j + 1))
  }

  /** The matcher's attempt of pattern p at start position i. */
  predicate MatchFrom(p: Pattern, s: string, i: nat) {
    match p
    case Tag(t) => LitAt(s, i, t) && CloseFrom(s, i + |t|)
    case Scheme(l) => LitAt(s, i, l)
    case Call(n) => LitAt(s, i, n) && SpacesThen(s, i + |n|, '(')
    case Handler => LitAt(s, i, "on") && WordsThenEquals(s, i + 2)
  }

  /** `pattern.test(input)`: the search tries each start position in turn. */
  predicate Test(p: Pattern, s: string) {
    Search(i => 0 <= i && MatchFrom(p, s, i), 0, |s|)
  }

  /** `patterns.some(pattern => pattern.test(input))`, front to back. */
  predicate AnyTest(ps: seq<Pattern>, s: string) {
    |ps| > 0 && (Test(ps[0], s) || AnyTest(ps[1..], s))
  }

  /** `containsXSS(input)`. */
  predicate ContainsXSS(s: string) {
    AnyTest(PATTERNS, s)
  }

  lemma {:induction false} CloseFromIff(s: string, j: nat)
    ensures CloseFrom(s, j) <==> exists m | j <= m < |s| :: s[m] == '>'
    decreases |s| - j
  {
    if j < |s| {
      CloseFromIff(s, j + 1);
      if exists m | j <= m < |s| :: s[m] == '>' {
        var m :| j <= m < |s| && s[m] == '>';
        if m != j {
          assert j + 1 <= m;
        }
      }
    }
  }

  lemma {:induction false} SpacesThenIff(s: string, j: nat, c: char)
    ensures SpacesThen(s, j, c) <==> exists m | j <= m < |s| :: Run(s, j, m, IsJsSpace) && s[m] == c
    decreases |s| - j
  {
    if j < |s| {
      SpacesThenIff(s, j + 1, c);
      if SpacesThen(s, j, c) && s[j] != c {
        var m :| j + 1 <= m < |s| && Run(s, j + 1, m, IsJsSpace) && s[m] == c;
        assert Run(s, j, m, IsJsSpace);
      }
      if exists m | j <= m < |s| :: Run(s, j, m, IsJsSpace) && s[m] == c {
        var m :| j <= m < |s| && Run(s, j, m, IsJsSpace) && s[m] == c;
        if m != j {
          assert Run(s, j + 1, m, IsJsSpace);
        }
      }
    }
  }

  lemma {:induction false} WordsThenEqualsIff(s: string, j: nat)
    ensures WordsThenEquals(s, j) <==>
      exists w, m | j < w <= m < |s| :: Run(s, j, w, IsWordChar) && Run(s, w, m, IsJsSpace) && s[m] == '='
    decreases |s| - j
  {
    if j < |s| {
      WordsThenEqualsIff(s, j + 1);
      SpacesThenIff(s, j + 1, '=');
      if WordsThenEquals(s, j) {
        if SpacesThen(s, j + 1, '=') {
          var m :| j + 1 <= m < |s| && Run(s, j + 1, m, IsJsSpace) && s[m] == '=';
          assert Run(s, j, j + 1, IsWordChar);
        } else {
          var w, m :| j + 1 < w <= m < |s| && Run(s, j + 1, w, IsWordChar) && Run(s, w, m, IsJsSpace) && s[m] == '=';
          assert Run(s, j, w, IsWordChar);
        }
      }
      if exists w, m | j < w <= m < |s| :: Run(s, j, w, IsWordChar) && Run(s, w, m, IsJsSpace) && s[m] == '=' {
        var w, m :| j < w <= m < |s| && Run(s, j, w, IsWordChar) && Run(s, w, m, IsJsSpace) && s[m] == '=';
        assert IsWordChar(s[j]);
        if w == j + 1 {
          assert SpacesThen(s, j + 1, '=');
        } else {
          assert Run(s, j + 1, w, IsWordChar);
        }
      }
    }
  }

  lemma TagFromIff(s: string, i: nat, tag: string)
    ensures LitAt(s, i, tag) && CloseFrom(s, i + |tag|) <==> TagAt(s, i, tag)
  {
    LitAtIff(s, i, tag);
    CloseFromIff(s, i + |tag|);
  }

  lemma CallFromIff(s: string, i: nat, name: string)
    ensures LitAt(s, i, name) && SpacesThen(s, i + |name|, '(') <==> CallAt(s, i, name)
  {
    LitAtIff(s, i, name);
    SpacesThenIff(s, i + |name|, '(');
  }

  /** The matcher agrees with the shape at every position. */
  lemma MatchFromIff(p: Pattern, s: string, i: nat)
    ensures MatchFrom(p, s, i) <==> Matches(p, s, i)
  {
    match p
    case Tag(t) => TagFromIff(s, i, t);
    case Scheme(l) => LitAtIff(s, i, l);
    case Call(n) => CallFromIff(s, i, n);
    case Handler =>
      LitAtIff(s, i, "on");
      WordsThenEqualsIff(s, i + 2);
  }

  /** A test succeeds exactly when the pattern matches at some position. */
  lemma TestIff(p: Pattern, s: string)
    ensures Test(p, s) <==> exists i | 0 <= i < |s| :: Matches(p, s, i)
  {
    var q := i => 0 <= i && MatchFrom(p, s, i);
    SearchIff(q, 0, |s|);
    if Test(p, s) {
      var k :| 0 <= k < |s| && q(k);
      MatchFromIff(p, s, k);
    }
    if exists i | 0 <= i < |s| :: Matches(p, s, i) {
      var k :| 0 <= k < |s| && Matches(p, s, k);
      MatchFromIff(p, s, k);
      assert q(k);
    }
  }

  /** `some` succeeds exactly when one of the tests does. */
  lemma {:induction false} AnyTestIff(ps: seq<Pattern>, s: string)
    ensures AnyTest(ps, s) <==> exists n | 0 <= n < |ps| :: Test(ps[n], s)
    decreases |ps|
  {
    if |ps| > 0 {
      AnyTestIff(ps[1..], s);
      if exists n | 0 <= n < |ps| :: Test(ps[n], s) {
        var n :| 0 <= n < |ps| && Test(ps[n], s);
        if n > 0 {
          assert ps[1..][n - 1] == ps[n];
        }
      }
      if AnyTest(ps[1..], s) {
        var n :| 0 <= n < |ps| - 1 && Test(ps[1..][n], s);
        assert ps[n + 1] == ps[1..][n];
      }
    }
  }

  /** The detector flags exactly the values some pattern matches in. */
  lemma ContainsXSSIff(s: string)
    ensures ContainsXSS(s) <==> Flagged(s)
  {
    AnyTestIff(PATTERNS, s);
    if ContainsXSS(s) {
      var n :| 0 <= n < |PATTERNS| && Test(PATTERNS[n], s);
      TestIff(PATTERNS[n], s);
    }
    if Flagged(s) {
      var n, i :| 0 <= n < |PATTERNS| && 0 <= i < |s| && Matches(PATTERNS[n], s, i);
      TestIff(PATTERNS[n], s);
    }
  }

  /** Characters that agree up to case are the same character unless they
      are letters: none of `>`, `(`, `=`, `\s` and `\w` tell case apart. */
  lemma FoldKeepsClasses(c: char, d: char)
    requires Fold(c) == Fold(d)
    ensures IsJsSpace(c) == IsJsSpace(d)
    ensures IsWordChar(c) == IsWordChar(d)
    ensures (c == '>') == (d == '>') && (c == '(') == (d == '(') && (c == '=') == (d == '=')
  {
  }

  lemma MatchesAtFold(s: string, t: string, i: int, lit: string)
    requires SameFold(s, t) && MatchesAt(s, i, lit)
    ensures MatchesAt(t, i, lit)
  {
    forall k | 0 <= k < |lit| ensures Fold(t[i + k]) == lit[k] {
      assert Fold(s[i + k]) == Fold(t[i + k]);
    }
  }

  lemma RunFold(s: string, t: string, lo: int, hi: int)
    requires SameFold(s, t)
    ensures Run(s, lo, hi, IsJsSpace) ==> Run(t, lo, hi, IsJsSpace)
    ensures Run(s, lo, hi, IsWordChar) ==> Run(t, lo, hi, IsWordChar)
  {
    forall k | 0 <= lo <= k < hi <= |s| ensures IsJsSpace(s[k]) == IsJsSpace(t[k]) && IsWordChar(s[k]) == IsWordChar(t[k]) {
      FoldKeepsClasses(s[k], t[k]);
    }
  }

  lemma TagAtFold(s: string, t: string, i: int, tag: string)
    requires SameFold(s, t) && TagAt(s, i, tag)
    ensures TagAt(t, i, tag)
  {
    var j :| i + |tag| <= j < |s| && s[j] == '>';
    MatchesAtFold(s, t, i, tag);
    FoldKeepsClasses(s[j], t[j]);
  }

  lemma CallAtFold(s: string, t: string, i: int, name: string)
    requires SameFold(s, t) && CallAt(s, i, name)
    ensures CallAt(t, i, name)
  {
    var m :| i + |name| <= m < |s| && Run(s, i + |name|, m, IsJsSpace) && s[m] == '(';
    MatchesAtFold(s, t, i, name);
    RunFold(s, t, i + |name|, m);
    FoldKeepsClasses(s[m], t[m]);
  }

  lemma HandlerAtFold(s: string, t: string, i: int)
    requires SameFold(s, t) && HandlerAt(s, i)
    ensures HandlerAt(t, i)
  {
    var j, m :| i + 2 < j <= m < |s| && Run(s, i + 2, j, IsWordChar) && Run(s, j, m, IsJsSpace) && s[m] == '=';
    MatchesAtFold(s, t, i, "on");
    RunFold(s, t, i + 2, j);
    RunFold(s, t, j, m);
    FoldKeepsClasses(s[m], t[m]);
  }

  lemma MatchesFold(p: Pattern, s: string, t: string, i: int)
    requires SameFold(s, t) && Matches(p, s, i)
    ensures Matches(p, t, i)
  {
    match p
    case Tag(tag) => TagAtFold(s, t, i, tag);
    case Scheme(l) => MatchesAtFold(s, t, i, l);
    case Call(n) => CallAtFold(s, t, i, n);
    case Handler => HandlerAtFold(s, t, i);
  }

  /** The detector ignores ASCII case: two values that differ only in the
      case of their letters are flagged alike. */
  lemma CaseInsensitive(s: string, t: string)
    requires SameFold(s, t)
    ensures ContainsXSS(s) <==> ContainsXSS(t)
  {
    ContainsXSSIff(s);
    ContainsXSSIff(t);
    if Flagged(s) {
      var n, i :| 0 <= n < |PATTERNS| && 0 <= i < |s| && Matches(PATTERNS[n], s, i);
      MatchesFold(PATTERNS[n], s, t, i);
    }
    if Flagged(t) {
      var n, i :| 0 <= n < |PATTERNS| && 0 <= i < |t| && Matches(PATTERNS[n], t, i);
      assert SameFold(t, s);
      MatchesFold(PATTERNS[n], t, s, i);
    }
  }

  /** A value holding `javascript:` or `data:` in any mix of case is
      flagged, wherever the scheme appears. */
  lemma FlagsSchemes(s: string, i: int)
    requires MatchesAt(s, i, "javascript:") || MatchesAt(s, i, "data:")
    ensures ContainsXSS(s)
  {
    if MatchesAt(s, i, "javascript:") {
      assert Matches(PATTERNS[1], s, i);
    } else {
      assert Matches(PATTERNS[10], s, i);
    }
    ContainsXSSIff(s);
  }

  /** A concrete instance: an inline `onClick = ` handler is flagged. */
  lemma FlagsMixedCaseHandler()
    ensures ContainsXSS("<a OnClick = x>")
  {
    var s := "<a OnClick = x>";
    assert MatchesAt(s, 3, "on");
    assert Run(s, 5, 10, IsWordChar);
    assert Run(s, 10, 11, IsJsSpace);
    assert s[11] == '=';
    assert Matches(PATTERNS[2], s, 3);
    ContainsXSSIff(s);
  }

  lemma SchemeColon(s: string, i: int, lit: string)
    requires MatchesAt(s, i, lit) && |lit| > 0 && lit[|lit| - 1] == ':'
    ensures s[i + |lit| - 1] == ':'
  {
    var k := |lit| - 1;
    assert Fold(s[i + k]) == lit[k];
  }

  /** Every pattern ends in one of `>`, `:`, `(` or `=`: a value without
      these four characters matches none of them. */
  lemma NeedsTerminatorShapes(s: string)
    requires forall k | 0 <= k < |s| :: s[k] != '>' && s[k] != ':' && s[k] != '(' && s[k] != '='
    ensures !Flagged(s)
  {
    forall n, i | 0 <= n < |PATTERNS| && 0 <= i < |s| ensures !Matches(PATTERNS[n], s, i) {
      if n == 1 && MatchesAt(s, i, "javascript:") {
        SchemeColon(s, i, "javascript:");
      } else if n == 10 && MatchesAt(s, i, "data:") {
        SchemeColon(s, i, "data:");
      }
    }
  }

  /** A value without `>`, `:`, `(` or `=` is never flagged. */
  lemma NeedsTerminator(s: string)
    requires forall k | 0 <= k < |s| :: s[k] != '>' && s[k] != ':' && s[k] != '(' && s[k] != '='
    ensures !ContainsXSS(s)
  {
    NeedsTerminatorShapes(s);
    ContainsXSSIff(s);
  }
}
