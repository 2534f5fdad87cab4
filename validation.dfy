/** `validateField`: an ordered chain of checks over a field's trimmed value
    that marks the field's form group `valid` or `invalid` and, for unsafe
    content, sets the group's error message. */
module Validation {
  import opened Strings
  import Xss
  import Email

  const VALID := "valid"
  const INVALID := "invalid"
  const UNSAFE_TEXT := "Invalid characters detected"
  const MIN_MESSAGE_LENGTH := 10

  /** The observable state of a form group. */
  datatype GroupState = GroupState(classes: set<string>, errorText: string)

  /** A `.form-group` element: its class list and the text of its
      `.error-message` child, when it has one. */
  class FormGroup {
    var classes: set<string>
    var errorText: string
    const hasErrorMessage: bool

    constructor (classes: set<string>, errorText: string, hasErrorMessage: bool)
      ensures this.classes == classes && this.errorText == errorText
      ensures this.hasErrorMessage == hasErrorMessage
    {
      this.classes := classes;
      this.errorText := errorText;
      this.hasErrorMessage := hasErrorMessage;
    }

    function State(): GroupState
      reads this
    {
      GroupState(classes, errorText)
    }
  }

  /** An `input` or `textarea`: what `validateField` and the submit handler
      read from it, and the group `closest('.form-group')` finds (or null). */
  datatype Field = Field(
    value: string,
    required: bool,
    pattern: Option<string>,
    kind: string,
    id: string,
    name: string,
    group: FormGroup?)

  /** `new RegExp(pattern).test(value)`, left uninterpreted. */
  type RegexTest = (string, string) -> bool

  datatype Reason = Missing | PatternMismatch | UnsafeContent | MalformedEmail | TooShort

  datatype Verdict = Skipped | Accepted | Rejected(reason: Reason) {
    /** What `validateField` returns for a field inside a group. */
    predicate Passes() { !Rejected? }
  }

  function GroupOf(f: Field): set<object> {
    if f.group == null then {} else {f.group}
  }

  /** `pattern && value`: an absent or empty pattern attribute is not tested. */
  predicate HasPattern(f: Field) {
    f.pattern.Some? && |f.pattern.value| > 0
  }

  predicate PatternHolds(f: Field, test: RegexTest) {
    !HasPattern(f) || test(f.pattern.value, Trim(f.value))
  }

  predicate EmailHolds(f: Field) {
    f.kind != "email" || Email.EmailPattern(Trim(f.value))
  }

  predicate LengthHolds(f: Field) {
    f.id != "message" || Utf16Length(Trim(f.value)) >= MIN_MESSAGE_LENGTH
  }

  /** The decision of the check chain, in the order of the source. */
  function Judge(f: Field, test: RegexTest): Verdict
  {
    var value := Trim(f.value);
    if !f.required && |value| == 0 then Skipped
    else if f.required && |value| == 0 then Rejected(Missing)
    else if HasPattern(f) && |value| > 0 && !test(f.pattern.value, value) then Rejected(PatternMismatch)
    else if Xss.ContainsXSS(value) then Rejected(UnsafeContent)
    else if f.kind == "email" && |value| > 0 && !Email.EmailCheck(value) then Rejected(MalformedEmail)
    else if f.id == "message" && Utf16Length(value) < MIN_MESSAGE_LENGTH then Rejected(TooShort)
    else Accepted
  }

  /** Each verdict is characterised by the checks that must pass before it
      and the one that must fail: emptiness first, then pattern, unsafe
      content, e-mail shape and message length. */
  lemma JudgeOrder(f: Field, test: RegexTest)
    ensures Judge(f, test) == Skipped <==> !f.required && |Trim(f.value)| == 0
    ensures Judge(f, test) == Rejected(Missing) <==> f.required && |Trim(f.value)| == 0
    ensures Judge(f, test) == Rejected(PatternMismatch) <==> |Trim(f.value)| > 0 && !PatternHolds(f, test)
    ensures Judge(f, test) == Rejected(UnsafeContent) <==>
      |Trim(f.value)| > 0 && PatternHolds(f, test) && Xss.ContainsXSS(Trim(f.value))
    ensures Judge(f, test) == Rejected(MalformedEmail) <==>
      |Trim(f.value)| > 0 && PatternHolds(f, test) && !Xss.ContainsXSS(Trim(f.value)) && !EmailHolds(f)
    ensures Judge(f, test) == Rejected(TooShort) <==>
      |Trim(f.value)| > 0 && PatternHolds(f, test) && !Xss.ContainsXSS(Trim(f.value)) &&
      EmailHolds(f) && !LengthHolds(f)
    ensures Judge(f, test) == Accepted <==>
      |Trim(f.value)| > 0 && PatternHolds(f, test) && !Xss.ContainsXSS(Trim(f.value)) &&
      EmailHolds(f) && LengthHolds(f)
  {
    Email.EmailCheckIff(Trim(f.value));
  }

  /** What a verdict does to the group: a rejection leaves `invalid` and no
      `valid`, an acceptance the reverse, a skip neither; other classes are
      kept, and only unsafe content rewrites an existing error message. */
  function Apply(st: GroupState, v: Verdict, hasErrorMessage: bool): (r: GroupState)
    ensures !v.Passes() ==> INVALID in r.classes && VALID !in r.classes
    ensures v == Accepted ==> VALID in r.classes && INVALID !in r.classes
    ensures v == Skipped ==> VALID !in r.classes && INVALID !in r.classes
    ensures forall c | c != VALID && c != INVALID :: c in r.classes <==> c in st.classes
    ensures r.errorText == (if v == Rejected(UnsafeContent) && hasErrorMessage then UNSAFE_TEXT else st.errorText)
  {
    match v
    case Skipped => st.(classes := st.classes - {VALID, INVALID})
    case Accepted => st.(classes := st.classes - {INVALID} + {VALID})
    case Rejected(reason) =>
      GroupState(st.classes - {VALID} + {INVALID},
                 if reason == UnsafeContent && hasErrorMessage then UNSAFE_TEXT else st.errorText)
  }

  /** `validateField(field)`, step by step. */
  method ValidateField(f: Field, test: RegexTest) returns (ok: bool)
    modifies GroupOf(f)
    ensures ok <==> f.group == null || Judge(f, test).Passes()
    ensures f.group != null ==>
      f.group.State() == Apply(old(f.group.State()), Judge(f, test), f.group.hasErrorMessage)
  {
    var formGroup := f.group;
    if formGroup == null {
      return true;
    }
    var value := Trim(f.value);
    var isRequired := f.required;

    if !isRequired && |value| == 0 {
      assert Judge(f, test) == Skipped;
      formGroup.classes := formGroup.classes - {VALID, INVALID};
      return true;
    }

    if isRequired && |value| == 0 {
      assert Judge(f, test) == Rejected(Missing);
      formGroup.classes := formGroup.classes - {VALID};
      formGroup.classes := formGroup.classes + {INVALID};
      return false;
    }

    if f.pattern.Some? && |f.pattern.value| > 0 && |value| > 0 {
      if !test(f.pattern.value, value) {
        assert Judge(f, test) == Rejected(PatternMismatch);
        formGroup.classes := formGroup.classes - {VALID};
        formGroup.classes := formGroup.classes + {INVALID};
        return false;
      }
    }

    if Xss.ContainsXSS(value) {
      assert Judge(f, test) == Rejected(UnsafeContent);
      formGroup.classes := formGroup.classes - {VALID};
      formGroup.classes := formGroup.classes + {INVALID};
      if formGroup.hasErrorMessage {
        formGroup.errorText := UNSAFE_TEXT;
      }
      return false;
    }

    if f.kind == "email" && |value| > 0 {
      if !Email.EmailCheck(value) {
        assert Judge(f, test) == Rejected(MalformedEmail);
        formGroup.classes := formGroup.classes - {VALID};
        formGroup.classes := formGroup.classes + {INVALID};
        return false;
      }
    }

    if f.id == "message" && Utf16Length(value) < MIN_MESSAGE_LENGTH {
      assert Judge(f, test) == Rejected(TooShort);
      formGroup.classes := formGroup.classes - {VALID};
      formGroup.classes := formGroup.classes + {INVALID};
      return false;
    }

    assert Judge(f, test) == Accepted;
    formGroup.classes := formGroup.classes - {INVALID};
    formGroup.classes := formGroup.classes + {VALID};
    return true;
  }

  /** The `input` listener: typing clears an `invalid` mark. */
  method ClearInvalidWhileTyping(f: Field)
    modifies GroupOf(f)
    ensures f.group != null ==> f.group.classes == old(f.group.classes) - {INVALID}
    ensures f.group != null ==> f.group.errorText == old(f.group.errorText)
  {
    var formGroup := f.group;
    if formGroup != null && INVALID in formGroup.classes {
      formGroup.classes := formGroup.classes - {INVALID};
    }
  }

  /** A field holding only white space counts as empty: required, it is
      rejected whatever its pattern, type or id; optional, it is skipped. */
  lemma BlankValue(f: Field, test: RegexTest)
    requires forall k | 0 <= k < |f.value| :: IsJsSpace(f.value[k])
    ensures f.required ==> Judge(f, test) == Rejected(Missing)
    ensures !f.required ==> Judge(f, test) == Skipped
  {
    TrimEmptyIff(f.value);
    JudgeOrder(f, test);
  }

  /** A value holding `javascript:` or `data:` in any case is rejected as
      unsafe once it passes its pattern, whatever its type or id. */
  lemma SchemeRejected(f: Field, test: RegexTest, i: int)
    requires PatternHolds(f, test)
    requires MatchesAt(Trim(f.value), i, "javascript:") || MatchesAt(Trim(f.value), i, "data:")
    ensures Judge(f, test) == Rejected(UnsafeContent)
  {
    Xss.FlagsSchemes(Trim(f.value), i);
    JudgeOrder(f, test);
  }

  /** Changing the case of a value's letters never changes whether it is
      rejected as unsafe. */
  lemma UnsafeIgnoresCase(f: Field, g: Field, test: RegexTest)
    requires SameFold(Trim(f.value), Trim(g.value))
    requires Judge(f, test) == Rejected(UnsafeContent) && |Trim(g.value)| > 0 && PatternHolds(g, test)
    ensures Judge(g, test) == Rejected(UnsafeContent)
  {
    Xss.CaseInsensitive(Trim(f.value), Trim(g.value));
    JudgeOrder(f, test);
    JudgeOrder(g, test);
  }

  /** A `message` field shorter than ten code units after trimming fails,
      unless it is optional and blank, which skips every check. */
  lemma ShortMessageFails(f: Field, test: RegexTest)
    requires f.id == "message" && Utf16Length(Trim(f.value)) < MIN_MESSAGE_LENGTH
    ensures !Judge(f, test).Passes() <==> f.required || |Trim(f.value)| > 0
  {
  }

  /** A field marks its group invalid exactly when it fails, and rewrites the
      error message only for unsafe content. */
  lemma ValidateOutcome(st: GroupState, f: Field, test: RegexTest, hasErrorMessage: bool)
    ensures var r := Apply(st, Judge(f, test), hasErrorMessage);
      (INVALID in r.classes <==> !Judge(f, test).Passes()) &&
      (r.errorText != st.errorText ==> Xss.ContainsXSS(Trim(f.value)) && r.errorText == UNSAFE_TEXT)
  {
  }
}
