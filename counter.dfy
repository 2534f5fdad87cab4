/** The message field's character counter: it shows the value's length in
    UTF-16 code units and colours it amber above 1800. Its red branch for
    counts above 1950 comes after the amber test and is never taken; the
    corrected chain, with the stricter test first, is given beside it. */
module Counter {
  import opened Strings

  const AMBER := "#f59e0b"
  const RED := "#ef4444"
  const PLAIN := ""
  const AMBER_FROM := 1800
  const RED_FROM := 1950

  /** The colour chain as written: the `> 1800` test comes first, so the
      `> 1950` branch can never be taken. */
  function CounterColourAsWritten(count: nat): string {
    if count > AMBER_FROM then AMBER
    else if count > RED_FROM then RED
    else PLAIN
  }

  /** No count is ever shown in red by the chain as written. */
  lemma RedNeverShown(count: nat)
    ensures CounterColourAsWritten(count) != RED
    ensures count > RED_FROM ==> CounterColourAsWritten(count) == AMBER
  {
  }

  /** The chain with the stricter test first: red above 1950, amber above
      1800, plain otherwise. */
  function CounterColour(count: nat): (c: string)
    ensures c == RED <==> count > RED_FROM
    ensures c == AMBER <==> AMBER_FROM < count <= RED_FROM
    ensures c == PLAIN <==> count <= AMBER_FROM
  {
    if count > RED_FROM then RED
    else if count > AMBER_FROM then AMBER
    else PLAIN
  }

  /** The two chains differ exactly on the counts above 1950. */
  lemma ChainsDiffer(count: nat)
    ensures CounterColour(count) != CounterColourAsWritten(count) <==> count > RED_FROM
  {
  }

  /** The colour never steps back from red to amber or from amber to plain as
      the message grows. */
  lemma ColourMonotone(m: nat, n: nat)
    requires m <= n
    ensures CounterColour(m) == RED ==> CounterColour(n) == RED
    ensures CounterColour(m) == AMBER ==> CounterColour(n) != PLAIN
  {
  }

  /** The `#charCount` element: its text, as the number it shows, and its
      colour. */
  class CharCount {
    var shown: nat
    var colour: string

    constructor ()
      ensures shown == 0 && colour == PLAIN
    {
      shown := 0;
      colour := PLAIN;
    }
  }

  /** The `input` listener on the message field, as written: the `> 1800`
      test is tried first, so a count above 1950 is shown amber. */
  method OnMessageInput(counter: CharCount, value: string)
    modifies counter
    ensures counter.shown == Utf16Length(value)
    ensures counter.colour == CounterColourAsWritten(Utf16Length(value))
    ensures counter.colour != RED
  {
    var count := Utf16Length(value);
    counter.shown := count;
    if count > AMBER_FROM {
      counter.colour := AMBER;
    } else if count > RED_FROM {
      // The red branch: every count above 1950 was taken by the test above.
      assert false;
    } else {
      counter.colour := PLAIN;
    }
  }

  /** The listener with the stricter test first, as the red branch intends. */
  method OnMessageInputIntended(counter: CharCount, value: string)
    modifies counter
    ensures counter.shown == Utf16Length(value)
    ensures counter.colour == CounterColour(Utf16Length(value))
  {
    var count := Utf16Length(value);
    counter.shown := count;
    if count > RED_FROM {
      counter.colour := RED;
    } else if count > AMBER_FROM {
      counter.colour := AMBER;
    } else {
      counter.colour := PLAIN;
    }
  }
}
