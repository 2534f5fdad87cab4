/** The HTML-escaping encoder applied to every submitted value
    (`sanitizeInput`), and the decoder that undoes it. */
module Sanitize {
  import opened Strings

  /** What `typeof input` can tell apart: a string, or anything else. */
  datatype JsValue = JsString(s: string) | NotAString

  /** The characters the encoder rewrites. */
  predicate IsSpecial(c: char) {
    c == '&' || c == '<' || c == '>' || c == '"' || c == '\'' || c == '/' || c == '`' || c == '='
  }

  /** The characters that can never appear in encoded output: the special
      ones except `&`, which opens every entity. */
  predicate IsMarkup(c: char) {
    IsSpecial(c) && c != '&'
  }

  /** The fixed replacement table. */
  const ENTITIES: map<char, string> := map[
    '&' := "&amp;", '<' := "&lt;", '>' := "&gt;", '"' := "&quot;",
    '\'' := "&#x27;", '/' := "&#x2F;", '`' := "&#x60;", '=' := "&#x3D;"]

  /** What one character becomes. */
  function Entity(c: char): (e: string)
    ensures IsSpecial(c) ==> |e| >= 4 && e[0] == '&' && e[|e| - 1] == ';'
    ensures !IsSpecial(c) ==> |e| == 1 && e[0] == c
  {
    if c in ENTITIES then ENTITIES[c] else [c]
  }

  /** The single left-to-right pass of `input.replace(reg, ...)`. */
  function Escape(s: string): (r: string)
    ensures |s| <= |r|
  {
    if |s| == 0 then [] else Entity(s[0]) + Escape(s[1..])
  }

  /** `sanitizeInput`: a non-string yields the empty string. */
  function SanitizeInput(v: JsValue): (r: string)
    ensures v.NotAString? ==> |r| == 0
    ensures v.JsString? ==> |v.s| <= |r|
  {
    match v
    case NotAString => ""
    case JsString(s) => Escape(s)
  }

  /** No replacement holds a character that could open or close markup. */
  lemma EntityNoMarkup(c: char)
    ensures forall k | 0 <= k < |Entity(c)| :: !IsMarkup(Entity(c)[k])
  {
  }

  /** The encoder's output holds no `<`, `>`, quote, slash, backtick or `=`. */
  lemma {:induction false} EscapeNoMarkup(s: string)
    ensures forall k | 0 <= k < |Escape(s)| :: !IsMarkup(Escape(s)[k])
  {
    if |s| > 0 {
      EntityNoMarkup(s[0]);
      EscapeNoMarkup(s[1..]);
    }
  }

  /** Nothing `sanitizeInput` returns can open or close markup. */
  lemma SanitizeNoMarkup(v: JsValue)
    ensures forall k | 0 <= k < |SanitizeInput(v)| :: !IsMarkup(SanitizeInput(v)[k])
  {
    if v.JsString? {
      EscapeNoMarkup(v.s);
    }
  }

  predicate StartsWith(s: string, p: string) {
    |p| <= |s| && s[..|p|] == p
  }

  /** The entity at the head of s, with the character it stands for. */
  function EntityAt(s: string): (r: Option<char>)
    ensures r.Some? ==> IsSpecial(r.value) && StartsWith(s, Entity(r.value))
    ensures |s| > 0 && s[0] != '&' ==> r.None?
  {
    if StartsWith(s, "&amp;") then Some('&')
    else if StartsWith(s, "&lt;") then Some('<')
    else if StartsWith(s, "&gt;") then Some('>')
    else if StartsWith(s, "&quot;") then Some('"')
    else if StartsWith(s, "&#x27;") then Some('\'')
    else if StartsWith(s, "&#x2F;") then Some('/')
    else if StartsWith(s, "&#x60;") then Some('`')
    else if StartsWith(s, "&#x3D;") then Some('=')
    else None
  }

  /** Decoding of the eight entities; every other character is copied. */
  function Unescape(s: string): string
    decreases |s|
  {
    if |s| == 0 then []
    else match EntityAt(s)
      case Some(c) => [c] + Unescape(s[|Entity(c)|..])
      case None => [s[0]] + Unescape(s[1..])
  }

  /** Only an entity's own prefix is recognised at the head of Entity(c) + t. */
  lemma EntityAtEntity(c: char, t: string)
    requires IsSpecial(c)
    ensures EntityAt(Entity(c) + t) == Some(c)
  {
    var s := Entity(c) + t;
    assert s[..|Entity(c)|] == Entity(c);
    assert forall k | 0 <= k < |Entity(c)| :: s[k] == Entity(c)[k];
  }

  /** A character that is not special starts no entity. */
  lemma NoEntityAtPlain(c: char, t: string)
    requires !IsSpecial(c)
    ensures EntityAt([c] + t) == None
  {
    var s := [c] + t;
    assert s[0] == c;
  }

  /** Decoding the output of the encoder gives back its input. */
  lemma {:induction false} UnescapeEscape(s: string)
    ensures Unescape(Escape(s)) == s
  {
    if |s| > 0 {
      var c, rest := s[0], Escape(s[1..]);
      assert Escape(s) == Entity(c) + rest;
      if IsSpecial(c) {
        EntityAtEntity(c, rest);
        assert (Entity(c) + rest)[|Entity(c)|..] == rest;
      } else {
        NoEntityAtPlain(c, rest);
        assert ([c] + rest)[1..] == rest;
      }
      UnescapeEscape(s[1..]);
      assert s == [c] + s[1..];
    }
  }

  /** The encoder is injective: two inputs with the same encoding are equal. */
  lemma EscapeInjective(s: string, t: string)
    requires Escape(s) == Escape(t)
    ensures s == t
  {
    UnescapeEscape(s);
    UnescapeEscape(t);
  }

  /** The encoder works character by character and keeps the order. */
  lemma {:induction false} EscapeAppend(s: string, t: string)
    ensures Escape(s + t) == Escape(s) + Escape(t)
  {
    if |s| > 0 {
      assert (s + t)[0] == s[0];
      assert (s + t)[1..] == s[1..] + t;
      EscapeAppend(s[1..], t);
    } else {
      assert s + t == t;
    }
  }

  /** A string without special characters is left unchanged, and only such a
      string is. */
  lemma {:induction false} EscapeIdentityIff(s: string)
    ensures Escape(s) == s <==> forall k | 0 <= k < |s| :: !IsSpecial(s[k])
  {
    if |s| > 0 {
      EscapeIdentityIff(s[1..]);
      var c := s[0];
      if IsSpecial(c) {
        // The output is strictly longer than the input.
        assert |Escape(s)| == |Entity(c)| + |Escape(s[1..])| >= 4 + |s| - 1;
      } else {
        assert Escape(s) == [c] + Escape(s[1..]);
        if Escape(s) == s {
          assert Escape(s[1..]) == s[1..];
        }
        assert forall k | 1 <= k < |s| :: s[k] == s[1..][k - 1];
      }
    }
  }
}
