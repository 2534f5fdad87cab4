# Contact form and scroll rules of the Cyberburgs site, in Dafny

This project models the client-side logic of the site's `static/js/script.js`
that decides something:

- the HTML-escaping encoder `sanitizeInput` (module `Sanitize`), with a
  decoder that undoes it;
- the unsafe-content detector `containsXSS` and its eleven regular
  expressions (module `Xss`);
- the fixed e-mail expression (module `Email`);
- `validateField`, which marks a form group `valid` or `invalid` (module
  `Validation`);
- the submit handler, which validates every input, collects the trimmed and
  sanitised values by name, fails on empty required selects and enters the
  loading state only when everything passed (module `Submit`);
- the message character counter (module `Counter`);
- the header and back-to-top marks and the active navigation link (module
  `Scroll`).

The JavaScript primitives these rely on live in module `Strings`:
`String.prototype.trim` and the class `\s` use the exact ECMAScript
white-space and line-terminator set, `.length` counts UTF-16 code units,
and the `i` flag of a regular expression without `u` is modelled as ASCII
folding. That flag canonicalises every character by upper-casing it (so
`/é/i` also matches `É`), but no character at or above U+0080 canonicalises
onto an ASCII one. Every literal of the expressions modelled here is ASCII,
so for them the `i` comparison reduces exactly to ASCII folding.

Each regular expression is modelled twice: once as a shape (`Xss.Matches`,
`Email.EmailPattern`: "there are positions such that ..."), and once as a
deterministic check. For the detector that check is a matcher that tries
start positions and characters in turn (`Xss.Test`). For the e-mail
expression it splits the address at its first `@` and its last `.` and
checks each part (`Email.EmailCheck`). The detector and the validator use
the deterministic checks, and all-inputs lemmas prove that each agrees
with its shape.

Objects the source updates in place are classes: a form group
(`Validation.FormGroup`, its class list and error text), the submit
button, the header and back-to-top elements, the navigation links and the
counter. Inputs and selects are values that refer to their group, and
several of them may share one group, so the group state after the submit
handler is given by a left fold over the inputs (`Submit.AfterInputs`) and
then the selects (`Submit.AfterSelects`). The navigation links come from
`querySelectorAll`, which never lists a node twice, and the highlighting
method requires exactly that. The user-supplied `pattern` attribute is
tested by a parameter `test(pattern, value)` standing for
`new RegExp(pattern).test(value)`. Scroll offsets are real numbers.

## Model

| member | source | states |
|---|---|---|
| Strings.Fold | static/js/script.js:199-209 | maps exactly the ASCII upper-case letters to lower case and leaves every other character alone; for patterns whose literals are all ASCII, the `i` comparison reduces to comparing this folding with the lower-case literal, because no non-ASCII character canonicalises onto an ASCII one |
| Strings.LitAtIff | static/js/script.js:199-209 | consuming a literal one character at a time, up to case, succeeds exactly when the whole literal occurs at that index |
| Strings.SpanIff | static/js/script.js:257 | checking a character class from the left succeeds exactly when every character of the range is in the class |
| Strings.TrimStart | static/js/script.js:219 | trimming the front never lengthens the value |
| Strings.TrimEnd | static/js/script.js:219 | trimming the back never lengthens the value |
| Strings.TrimStartSuffix | static/js/script.js:219 | trimming the front keeps a suffix of the value, which is empty or starts with a non-space |
| Strings.TrimEndPrefix | static/js/script.js:219 | trimming the back keeps a prefix of the value, which is empty or ends with a non-space |
| Strings.TrimStartDropsSpace | static/js/script.js:219 | everything trimmed from the front is white space |
| Strings.TrimEndDropsSpace | static/js/script.js:219 | everything trimmed from the back is white space |
| Strings.TrimIsSlice | static/js/script.js:219 | `trim()` returns one contiguous slice of the value, with only white space before and after it |
| Strings.TrimEnds | static/js/script.js:219 | a non-empty trimmed value starts and ends with a non-space |
| Strings.TrimEmptyIff | static/js/script.js:224 | the trimmed value is empty (`!value`) exactly when the value is all white space |
| Strings.TrimFixed | static/js/script.js:219 | a value with no white space at either end is its own trim |
| Strings.Utf16Length | static/js/script.js:266 | `.length` lies between the number of code points and twice that |
| Strings.Utf16LengthBmp | static/js/script.js:280 | within the Basic Multilingual Plane `.length` is the number of code points |
| Strings.FirstIndex | static/js/script.js:257 | the index found holds the character and none before it does; no index means the character is absent |
| Strings.FirstIndexIs | static/js/script.js:257 | an occurrence with none before it is the one found |
| Strings.LastIndex | static/js/script.js:257 | the index found holds the character and none after it does; no index means the character is absent |
| Strings.LastIndexIs | static/js/script.js:257 | an occurrence with none after it is the one found |
| Strings.SearchIff | static/js/script.js:211 | trying start positions in turn succeeds exactly when some position in range succeeds |
| Sanitize.Entity | static/js/script.js:182-191 | each of the eight special characters becomes an entity that starts with `&`, ends with `;` and is at least four long; every other character is kept as itself |
| Sanitize.Escape | static/js/script.js:192-193 | the encoded value is never shorter than the input |
| Sanitize.SanitizeInput | static/js/script.js:180-194 | a non-string gives the empty string; a string gives its encoding, at least as long as itself |
| Sanitize.EntityNoMarkup | static/js/script.js:182-191 | no replacement holds `<`, `>`, a quote, `/`, a backtick or `=` |
| Sanitize.EscapeNoMarkup | static/js/script.js:192-193 | the encoded value holds none of `<`, `>`, `"`, `'`, `/`, backtick, `=` |
| Sanitize.SanitizeNoMarkup | static/js/script.js:180-194 | nothing `sanitizeInput` returns holds a character that opens or closes markup or an attribute |
| Sanitize.EntityAt | static/js/script.js:182-191 | a recognised entity is the replacement of a special character and sits at the head of the text; text not starting with `&` holds none |
| Sanitize.EntityAtEntity | static/js/script.js:182-191 | at the head of a replacement only that replacement's own character is recognised |
| Sanitize.NoEntityAtPlain | static/js/script.js:182-191 | a character that is not special starts no entity |
| Sanitize.UnescapeEscape | static/js/script.js:192-193 | decoding the encoded value gives back the input |
| Sanitize.EscapeInjective | static/js/script.js:192-193 | two inputs with the same encoding are equal |
| Sanitize.EscapeAppend | static/js/script.js:192-193 | the encoder replaces character by character: encoding a concatenation concatenates the encodings |
| Sanitize.EscapeIdentityIff | static/js/script.js:192-193 | the encoder leaves a value unchanged exactly when it holds no special character |
| Xss.CloseFromIff | static/js/script.js:202-205 | the matcher for `[\s\S]*?>` succeeds exactly when a `>` occurs at or after the position |
| Xss.SpacesThenIff | static/js/script.js:206-208 | the matcher for `\s*(` succeeds exactly when a run of white space is followed by the character |
| Xss.WordsThenEqualsIff | static/js/script.js:201 | the matcher for `\w+\s*=` succeeds exactly when one or more word characters and optional white space are followed by `=` |
| Xss.TagFromIff | static/js/script.js:199 | the matcher for a tag opener followed by `[\s\S]*?>` agrees with the tag shape |
| Xss.CallFromIff | static/js/script.js:206-208 | the matcher for `name\s*\(` agrees with the call shape |
| Xss.MatchFromIff | static/js/script.js:198-210 | for each of the pattern kinds, an attempt at a start position succeeds exactly when the shape matches there |
| Xss.TestIff | static/js/script.js:211 | `pattern.test(input)` succeeds exactly when the pattern matches at some position |
| Xss.AnyTestIff | static/js/script.js:211 | `some` over the pattern list succeeds exactly when one of the tests does |
| Xss.ContainsXSSIff | static/js/script.js:197-212 | `containsXSS` flags a value exactly when one of the eleven patterns occurs in it |
| Xss.FoldKeepsClasses | static/js/script.js:199-209 | case folding never changes whether a character is white space, a word character, `>`, `(` or `=` |
| Xss.MatchesAtFold | static/js/script.js:199-209 | a literal found ignoring case is found in every value differing only in letter case |
| Xss.RunFold | static/js/script.js:201 | runs of white space or word characters survive changes of letter case |
| Xss.TagAtFold | static/js/script.js:199 | a tag match survives changes of letter case |
| Xss.CallAtFold | static/js/script.js:206-208 | a call match survives changes of letter case |
| Xss.HandlerAtFold | static/js/script.js:201 | an event-handler match survives changes of letter case |
| Xss.MatchesFold | static/js/script.js:198-210 | every pattern kind's match survives changes of letter case |
| Xss.CaseInsensitive | static/js/script.js:197-212 | two values that differ only in ASCII letter case are flagged alike |
| Xss.FlagsSchemes | static/js/script.js:197-212 | a value holding `javascript:` or `data:` in any case, anywhere, is flagged |
| Xss.FlagsMixedCaseHandler | static/js/script.js:201 | `<a OnClick = x>` is flagged |
| Xss.SchemeColon | static/js/script.js:200 | where a scheme literal matches, its last character in the value is `:` |
| Xss.NeedsTerminatorShapes | static/js/script.js:198-210 | no pattern shape occurs in a value without `>`, `:`, `(` or `=` |
| Xss.NeedsTerminator | static/js/script.js:197-212 | a value without `>`, `:`, `(` or `=` is never flagged |
| Email.EmailCheckIff | static/js/script.js:257-258 | the deterministic split at the first `@` and the last `.` accepts exactly what the expression matches |
| Email.SplitIff | static/js/script.js:257 | at an `@` and a `.`, checking the three parts from the left agrees with the shape |
| Email.EmailCheckSound | static/js/script.js:257 | what the split accepts the expression matches |
| Email.EmailCheckComplete | static/js/script.js:257 | what the expression matches the split accepts |
| Email.EmailStructure | static/js/script.js:257 | an accepted address holds exactly one `@`, not first, and a `.` followed only by two or more letters |
| Email.ShortTopLevelRefused | static/js/script.js:257 | `a@b.c` is refused |
| Email.PlainAddressAccepted | static/js/script.js:257 | `jo@x.io` is accepted |
| Validation.JudgeOrder | static/js/script.js:215-275 | each outcome of `validateField` (skipped, missing, pattern mismatch, unsafe, malformed e-mail, too short, accepted) happens exactly when the earlier checks pass and its own one decides, in the source's order |
| Validation.Apply | static/js/script.js:224-273 | a failure leaves `invalid` and no `valid`, an acceptance the reverse, a skip neither; other classes are kept, and the error text changes only for unsafe content in a group that has an error message |
| Validation.ValidateField | static/js/script.js:215-275 | without a form group the field passes and nothing changes; otherwise the result is the verdict's pass or fail and the group's new state is that verdict applied to its old state |
| Validation.ClearInvalidWhileTyping | static/js/script.js:301-307 | typing removes `invalid` from the group and changes nothing else |
| Validation.BlankValue | static/js/script.js:219-234 | a value of only white space is missing when required and skipped otherwise, whatever its pattern, type or id |
| Validation.SchemeRejected | static/js/script.js:246-253 | a non-empty value passing its pattern and holding `javascript:` or `data:` is rejected as unsafe |
| Validation.UnsafeIgnoresCase | static/js/script.js:246-253 | changing the case of letters never rescues a value rejected as unsafe |
| Validation.ShortMessageFails | static/js/script.js:265-270 | a `message` field under ten code units fails unless it is optional and blank |
| Validation.ValidateOutcome | static/js/script.js:224-273 | the group is left `invalid` exactly when the field fails, and its error text changes only to the unsafe-content message for a flagged value |
| Submit.HandleSubmit | static/js/script.js:311-345 | the form is valid exactly when every input passes and no required select is empty; the data is every input's trimmed, sanitised value and then every select's sanitised value, a later name overwriting an earlier one; each group ends in the state of the fold over inputs and selects; the button enters the loading state and is disabled only when valid, and is untouched otherwise |
| Submit.ValidateInputs | static/js/script.js:318-323 | after the loop over the inputs the flag is the conjunction of their results, the data holds their writes in order and each group is in its folded state |
| Submit.VisitInput | static/js/script.js:318-323 | one input: the flag drops exactly when the input fails, its value is written under its name and only its own group changes |
| Submit.CheckSelects | static/js/script.js:326-332 | after the loop over the selects the flag also requires every required select to be non-empty, their writes follow the inputs' and only their groups gain `invalid` |
| Submit.VisitSelect | static/js/script.js:326-332 | one select: its value is written under its name; when required and empty it drops the flag and adds `invalid` to its group if it has one |
| Submit.InputsPassIff | static/js/script.js:318-321 | the accumulated flag over the inputs holds exactly when each of them passes |
| Submit.SelectsPassIff | static/js/script.js:328-329 | the accumulated flag over the selects holds exactly when none is required and empty |
| Submit.AfterInputsOutside | static/js/script.js:318-321 | inputs outside a group leave it alone |
| Submit.AfterSelectsOutside | static/js/script.js:330 | selects outside a group leave it alone |
| Submit.CollectKeys | static/js/script.js:315-327 | a name is in the data exactly when it was there before or some write carries it |
| Submit.CollectLastWins | static/js/script.js:315-327 | the value stored under a name is that of its last write |
| Submit.CollectKeeps | static/js/script.js:315-327 | a name no write carries keeps its earlier value |
| Submit.DistinctNamesData | static/js/script.js:315-327 | with distinct names, the data holds each input's encoded trimmed value and each select's encoded value under its name |
| Submit.LastInputDecides | static/js/script.js:318-321 | the last input of a group decides its marks: the inputs after it leave the group alone |
| Submit.EmptySelectMarksGroup | static/js/script.js:328-331 | a required empty select leaves `invalid` on its group at the end |
| Submit.SelectsOnlyAddInvalid | static/js/script.js:326-332 | the select pass only ever adds `invalid` and keeps the error text and every other class |
| Scroll.Toggle | static/js/script.js:107-109 | `classList.toggle(name, force)` leaves the name present exactly when force holds and changes no other class |
| Scroll.HandleHeaderScroll | static/js/script.js:46-75 | the header is `scrolled` exactly above 50 pixels and the back-to-top button, when present, `visible` exactly above 500; when both lookups give the same element it receives both toggles in that order; a visible button implies a scrolled header; no other class changes |
| Scroll.LastReached | static/js/script.js:97-105 | the section found is reached (its top at or above the position) and no later section is; no section found means none is reached |
| Scroll.LastReachedMonotone | static/js/script.js:97-105 | scrolling further down never selects an earlier section |
| Scroll.AboveAllIsHome | static/js/script.js:98-99 | above every section the current id stays `home` |
| Scroll.ActiveSection | static/js/script.js:97-105 | the loop ends with the id of the last section at or above the scroll offset plus 200, or `home` |
| Scroll.HighlightNavLink | static/js/script.js:97-110 | the current id is that of the active section, and every link is `active` exactly when its `href` is `#` followed by that id, with no other class changed |
| Counter.RedNeverShown | static/js/script.js:282-287 | the chain as written never produces red, and shows amber for every count above 1950 |
| Counter.CounterColour | static/js/script.js:282-287 | the corrected chain: red exactly above 1950, amber exactly from 1801 to 1950, plain up to 1800 |
| Counter.ChainsDiffer | static/js/script.js:282-287 | the chain as written and the intended one differ exactly on the counts above 1950 |
| Counter.ColourMonotone | static/js/script.js:282-287 | as the count grows, the corrected chain's colour never steps back from red or from amber |
| Counter.OnMessageInput | static/js/script.js:279-289 | the counter shows the value's length in UTF-16 code units, coloured by the chain as written, so never red |
| Counter.OnMessageInputIntended | static/js/script.js:279-289 | the same listener with the stricter test first: the count is coloured by the intended chain |

## Left out

- `app.py` and every server route are not part of this model; only the browser-side script is.
- Event-listener registration, the mobile menu, smooth scrolling, reveal animations, lazy loading and `animateCounters` are browser plumbing with no decision to model.
- The scroll-progress bar width is a floating-point percentage of the document height and is not modelled; neither is `lastScroll`, which is assigned and never read.
- Scroll offsets are exact real numbers here: the rounding of the floating-point sum `pageYOffset + 200` is not modelled.
- The `back to top` click handler and `scrollIntoView` on the first invalid group only move the viewport and are not modelled.
- What follows the loading state in the submit handler (the simulated delay, the notification and the form reset) runs on timers and is not modelled.
- The user-supplied `pattern` attribute is an uninterpreted test: its regular-expression semantics, and the `SyntaxError` an invalid pattern would throw, are not modelled.
- Strings hold Unicode scalar values, so a JavaScript string with an unpaired surrogate cannot be represented.
- The `formData` object is a map from names to strings: the special behaviour of a field named `__proto__` on a plain JavaScript object is not modelled.
- `typeof input` is reduced to "a string or not"; no other JavaScript value is represented.
- The counter's `textContent` is modelled as the number it shows, not its decimal text.
- `header` (script.js:46) and `submitBtn` (script.js:175) are taken as present: when either lookup returns null the source throws a `TypeError` at script.js:58/60 or 344, and the first call at script.js:91 would then abort the rest of the setup callback; that failure is not modelled.

## Findings

| source | as written | input that shows it | evidently intended | confidence | as-written member | corrected member |
|---|---|---|---|---|---|---|
| static/js/script.js:282-287 | `count > 1800` is tested before `count > 1950`, so the red branch is unreachable | a message of 1951 code units is shown amber, not red | red above 1950, amber from 1801 to 1950, plain otherwise | not executed | Counter.RedNeverShown | Counter.CounterColour |
