/** Character classes and string primitives of JavaScript that the contact
    form relies on: `String.prototype.trim`, `.length` in UTF-16 code units,
    the regular-expression classes `\s` and `\w`, and ASCII case folding as
    the non-Unicode `i` flag performs it. */
module Strings {

  datatype Option<T> = None | Some(value: T)

  /** ECMAScript WhiteSpace and LineTerminator code points: the set that both
      `trim` and the regular-expression class `\s` use. */
  predicate IsJsSpace(c: char) {
    var n := c as int;
    n == 0x09 || n == 0x0A || n == 0x0B || n == 0x0C || n == 0x0D ||
    n == 0x20 || n == 0xA0 || n == 0x1680 || (0x2000 <= n <= 0x200A) ||
    n == 0x2028 || n == 0x2029 || n == 0x202F || n == 0x205F ||
    n == 0x3000 || n == 0xFEFF
  }

  predicate IsAsciiUpper(c: char) { 'A' <= c <= 'Z' }
  predicate IsAsciiLower(c: char) { 'a' <= c <= 'z' }
  predicate IsAsciiLetter(c: char) { IsAsciiUpper(c) || IsAsciiLower(c) }
  predicate IsDigit(c: char) { '0' <= c <= '9' }

  /** The regular-expression class `\w`. */
  predicate IsWordChar(c: char) { IsAsciiLetter(c) || IsDigit(c) || c == '_' }

  /** ASCII case folding. Without the `u` flag, the `i` flag canonicalises
      every character by upper-casing it, but no character at or above U+0080
      canonicalises onto an ASCII one; so for a pattern whose literals are all
      ASCII, comparing the folded character with the lower-case literal is
      exactly the `i` comparison. */
  function Fold(c: char): (d: char)
    ensures IsAsciiUpper(c) ==> d as int == c as int + 32
    ensures !IsAsciiUpper(c) ==> d == c
    ensures !IsAsciiUpper(d)
  {
    if IsAsciiUpper(c) then (c as int + 32) as char else c
  }

  /** Every character of s[lo..hi] satisfies p. */
  predicate Run(s: string, lo: int, hi: int, p: char -> bool) {
    0 <= lo <= hi <= |s| && forall k | lo <= k < hi :: p(s[k])
  }

  /** s holds the lower-case literal `lit` at index i, ignoring ASCII case. */
  predicate MatchesAt(s: string, i: int, lit: string) {
    0 <= i && i + |lit| <= |s| && forall k | 0 <= k < |lit| :: Fold(s[i + k]) == lit[k]
  }

  /** The matcher's reading of MatchesAt: the literal consumed one
      character at a time. */
  predicate LitAt(s: string, i: int, lit: string)
    decreases |lit|
  {
    0 <= i <= |s| && (|lit| == 0 || (i < |s| && Fold(s[i]) == lit[0] && LitAt(s, i + 1, lit[1..])))
  }

  lemma {:induction false} LitAtIff(s: string, i: int, lit: string)
    ensures LitAt(s, i, lit) <==> MatchesAt(s, i, lit)
    decreases |lit|
  {
    if |lit| > 0 && 0 <= i < |s| {
      LitAtIff(s, i + 1, lit[1..]);
      if MatchesAt(s, i, lit) {
        forall k | 0 <= k < |lit| - 1 ensures Fold(s[i + 1 + k]) == lit[1..][k] {
          assert Fold(s[i + (k + 1)]) == lit[k + 1];
        }
      }
      if LitAt(s, i, lit) {
        forall k | 0 <= k < |lit| ensures Fold(s[i + k]) == lit[k] {
          if k > 0 {
            assert Fold(s[(i + 1) + (k - 1)]) == lit[1..][k - 1];
          }
        }
      }
    }
  }

  /** The matcher's reading of Run: the characters checked from lo up. */
  predicate Span(s: string, lo: int, hi: int, p: char -> bool)
    decreases hi - lo
  {
    0 <= lo <= hi <= |s| && (lo == hi || (p(s[lo]) && Span(s, lo + 1, hi, p)))
  }

  lemma {:induction false} SpanIff(s: string, lo: int, hi: int, p: char -> bool)
    ensures Span(s, lo, hi, p) <==> Run(s, lo, hi, p)
    decreases hi - lo
  {
    if 0 <= lo < hi <= |s| {
      SpanIff(s, lo + 1, hi, p);
      if Span(s, lo, hi, p) {
        forall k | lo <= k < hi ensures p(s[k]) {
          if k > lo {
            assert Run(s, lo + 1, hi, p);
          }
        }
      }
    }
  }

  /** s and t agree up to ASCII case. */
  predicate SameFold(s: string, t: string) {
    |s| == |t| && forall k | 0 <= k < |s| :: Fold(s[k]) == Fold(t[k])
  }

  function TrimStart(s: string): (r: string)
    ensures |r| <= |s|
  {
    if |s| > 0 && IsJsSpace(s[0]) then TrimStart(s[1..]) else s
  }

  function TrimEnd(s: string): (r: string)
    ensures |r| <= |s|
  {
    if |s| > 0 && IsJsSpace(s[|s| - 1]) then TrimEnd(s[..|s| - 1]) else s
  }

  /** Trimming the front keeps a suffix that does not start with white
      space. */
  lemma {:induction false} TrimStartSuffix(s: string)
    ensures TrimStart(s) == s[|s| - |TrimStart(s)|..]
    ensures |TrimStart(s)| == 0 || !IsJsSpace(TrimStart(s)[0])
  {
    if |s| > 0 && IsJsSpace(s[0]) {
      TrimStartSuffix(s[1..]);
    }
  }

  /** Trimming the back keeps a prefix that does not end with white
      space. */
  lemma {:induction false} TrimEndPrefix(s: string)
    ensures TrimEnd(s) == s[..|TrimEnd(s)|]
    ensures |TrimEnd(s)| == 0 || !IsJsSpace(TrimEnd(s)[|TrimEnd(s)| - 1])
  {
    if |s| > 0 && IsJsSpace(s[|s| - 1]) {
      TrimEndPrefix(s[..|s| - 1]);
    }
  }

  /** Only white space is dropped from the front. */
  lemma {:induction false} TrimStartDropsSpace(s: string)
    ensures forall k | 0 <= k < |s| - |TrimStart(s)| :: IsJsSpace(s[k])
  {
    if |s| > 0 && IsJsSpace(s[0]) {
      TrimStartDropsSpace(s[1..]);
      forall k | 1 <= k < |s| - |TrimStart(s)| ensures IsJsSpace(s[k]) {
        assert s[k] == s[1..][k - 1];
      }
    }
  }

  /** Only white space is dropped from the back. */
  lemma {:induction false} TrimEndDropsSpace(s: string)
    ensures forall k | |TrimEnd(s)| <= k < |s| :: IsJsSpace(s[k])
  {
    if |s| > 0 && IsJsSpace(s[|s| - 1]) {
      TrimEndDropsSpace(s[..|s| - 1]);
      forall k | |TrimEnd(s)| <= k < |s| - 1 ensures IsJsSpace(s[k]) {
        assert s[k] == s[..|s| - 1][k];
      }
    }
  }

  /** `String.prototype.trim`. */
  function Trim(s: string): string {
    TrimEnd(TrimStart(s))
  }

  /** Trimming keeps the contiguous slice s[i..j] and drops only white
      space around it, where i is the length of the leading white space. */
  lemma TrimIsSlice(s: string)
    ensures var i := |s| - |TrimStart(s)|; var j := i + |Trim(s)|;
      && 0 <= i <= j <= |s|
      && Trim(s) == s[i..j]
      && (forall k | 0 <= k < i :: IsJsSpace(s[k]))
      && (forall k | j <= k < |s| :: IsJsSpace(s[k]))
  {
    var a := TrimStart(s);
    var i := |s| - |a|;
    TrimStartSuffix(s);
    TrimStartDropsSpace(s);
    var t := TrimEnd(a);
    var j := i + |t|;
    TrimEndPrefix(a);
    TrimEndDropsSpace(a);
    assert a == s[i..] && t == a[..|t|];
    forall k | j <= k < |s| ensures IsJsSpace(s[k]) {
      assert s[k] == a[k - i];
    }
  }

  /** The trimmed value neither starts nor ends with white space. */
  lemma TrimEnds(s: string)
    ensures |Trim(s)| == 0 || (!IsJsSpace(Trim(s)[0]) && !IsJsSpace(Trim(s)[|Trim(s)| - 1]))
  {
    var a := TrimStart(s);
    var t := TrimEnd(a);
    TrimStartSuffix(s);
    TrimEndPrefix(a);
    if |t| > 0 {
      assert t[0] == a[0];
    }
  }

  /** The trimmed value is empty exactly when the value is all white space. */
  lemma TrimEmptyIff(s: string)
    ensures |Trim(s)| == 0 <==> forall k | 0 <= k < |s| :: IsJsSpace(s[k])
  {
    var a := TrimStart(s);
    TrimStartSuffix(s);
    TrimEndPrefix(a);
    TrimStartDropsSpace(s);
    TrimEndDropsSpace(a);
    if |Trim(s)| > 0 {
      var j := |s| - |a|;
      assert a[0] == s[j];
      assert !IsJsSpace(s[j]);
    }
  }

  /** A string with no white space at either end is its own trim. */
  lemma TrimFixed(s: string)
    requires |s| == 0 || (!IsJsSpace(s[0]) && !IsJsSpace(s[|s| - 1]))
    ensures Trim(s) == s
  {
  }

  /** `.length`: the number of UTF-16 code units, two for a code point above
      U+FFFF. */
  function Utf16Length(s: string): (n: nat)
    ensures |s| <= n <= 2 * |s|
  {
    if |s| == 0 then 0
    else (if s[|s| - 1] as int > 0xFFFF then 2 else 1) + Utf16Length(s[..|s| - 1])
  }

  /** Within the Basic Multilingual Plane a code point is one code unit. */
  lemma {:induction false} Utf16LengthBmp(s: string)
    requires forall k | 0 <= k < |s| :: s[k] as int <= 0xFFFF
    ensures Utf16Length(s) == |s|
  {
    if |s| > 0 {
      Utf16LengthBmp(s[..|s| - 1]);
    }
  }

  /** Index of the first occurrence of c in s. */
  function FirstIndex(s: string, c: char): (r: Option<nat>)
    ensures r.Some? ==> (r.value < |s| && s[r.value] == c &&
                         forall k | 0 <= k < r.value :: s[k] != c)
    ensures r.None? ==> forall k | 0 <= k < |s| :: s[k] != c
  {
    if |s| == 0 then None
    else if s[0] == c then Some(0)
    else match FirstIndex(s[1..], c)
      case None => None
      case Some(i) => Some(i + 1)
  }

  /** The first occurrence is the one with no c before it. */
  lemma FirstIndexIs(s: string, c: char, i: nat)
    requires i < |s| && s[i] == c && forall k | 0 <= k < i :: s[k] != c
    ensures FirstIndex(s, c) == Some(i)
  {
    var r := FirstIndex(s, c);
    assert r.Some?;
  }

  /** Index of the last occurrence of c in s. */
  function LastIndex(s: string, c: char): (r: Option<nat>)
    ensures r.Some? ==> (r.value < |s| && s[r.value] == c &&
                         forall k | r.value < k < |s| :: s[k] != c)
    ensures r.None? ==> forall k | 0 <= k < |s| :: s[k] != c
  {
    if |s| == 0 then None
    else if s[|s| - 1] == c then Some(|s| - 1)
    else LastIndex(s[..|s| - 1], c)
  }

  /** The last occurrence is the one with no c after it. */
  lemma LastIndexIs(s: string, c: char, i: nat)
    requires i < |s| && s[i] == c && forall k | i < k < |s| :: s[k] != c
    ensures LastIndex(s, c) == Some(i)
  {
    var r := LastIndex(s, c);
    assert r.Some?;
  }

  /** A search that tries the positions lo, lo + 1, ..., hi - 1 in turn. */
  predicate Search(p: int -> bool, lo: int, hi: int)
    decreases hi - lo
  {
    lo < hi && (p(lo) || Search(p, lo + 1, hi))
  }

  /** The search succeeds exactly when some position in range satisfies p. */
  lemma {:induction false} SearchIff(p: int -> bool, lo: int, hi: int)
    ensures Search(p, lo, hi) <==> exists k | lo <= k < hi :: p(k)
    decreases hi - lo
  {
    if lo < hi {
      SearchIff(p, lo + 1, hi);
      if exists k | lo <= k < hi :: p(k) {
        var k :| lo <= k < hi && p(k);
        if k != lo {
          assert lo + 1 <= k;
        }
      }
    }
  }
}
