/** The loading animation: while a request is in flight an interval callback
    types `LOADING_TEXT` out one code unit per tick, holds the full text for
    one tick, then starts over from nothing. */
module Typewriter {
  import opened JsString

  /** 'Creating Image... 🤪 Please Wait... 😅' as UTF-16 code units. Each
      emoji lies outside the BMP and takes a surrogate pair (at positions 18
      and 36), so the text is 38 code units long. */
  const LoadingText: JsStr := [
    0x43, 0x72, 0x65, 0x61, 0x74, 0x69, 0x6E, 0x67, 0x20,      // "Creating "
    0x49, 0x6D, 0x61, 0x67, 0x65, 0x2E, 0x2E, 0x2E, 0x20,      // "Image... "
    0xD83E, 0xDD2A,                                            // U+1F92A
    0x20, 0x50, 0x6C, 0x65, 0x61, 0x73, 0x65, 0x20,            // " Please "
    0x57, 0x61, 0x69, 0x74, 0x2E, 0x2E, 0x2E, 0x20,            // "Wait... "
    0xD83D, 0xDE05                                             // U+1F605
  ]

  /** Number of distinct states the animation cycles through: counter values
      `0 ..= |LoadingText| + 1`. */
  const Period: nat := |LoadingText| + 2

  /** The interval's closure counter `i` together with the text it last published. */
  datatype TypingState = TypingState(counter: nat, text: JsStr)

  /** The state when an animation begins: counter 0, nothing typed. */
  const Idle := TypingState(0, [])

  lemma LoadingTextLength()
    ensures |LoadingText| == 38 && Period == 40
  {
  }

  /** The state the animation is in `k` ticks into a cycle. */
  function Phase(k: nat): TypingState
    requires k < Period
  {
    if k == 0 then Idle else TypingState(k, LoadingText[..k - 1])
  }

  /** One tick, as a move from phase to phase: the counter goes up by one and
      the new text is the first `counter` code units (so the first tick still
      shows nothing), until the tick taken with the counter at
      `|LoadingText| + 1` drops back to the idle state. */
  function Advance(t: TypingState): (t': TypingState)
    requires t.counter < Period
    ensures t'.counter < Period && t'.text <= LoadingText
    ensures t'.counter == 0 <==> t.counter == Period - 1
    ensures t'.counter == 0 ==> t'.text == []
    ensures t'.counter != 0 ==> t'.counter == t.counter + 1 && |t'.text| == t.counter
  {
    Phase((t.counter + 1) % Period)
  }

  /** `n` ticks in a row. */
  function AdvanceN(t: TypingState, n: nat): (t': TypingState)
    requires t.counter < Period
    ensures t'.counter < Period
  {
    if n == 0 then t else Advance(AdvanceN(t, n - 1))
  }

  lemma ModSucc(a: nat)
    ensures (a % Period + 1) % Period == (a + 1) % Period
  {
  }

  /** Ticking `n` times from phase `k` lands in phase `(k + n) mod Period`. */
  lemma {:induction false} AdvanceNFromPhase(k: nat, n: nat)
    requires k < Period
    ensures AdvanceN(Phase(k), n) == Phase((k + n) % Period)
  {
    if n > 0 {
      AdvanceNFromPhase(k, n - 1);
      ModSucc(k + n - 1);
    }
  }

  /** Counted from the start of a request, the animation after `n` ticks is
      exactly in phase `n mod Period`. */
  lemma TicksSinceStart(n: nat)
    ensures AdvanceN(Idle, n) == Phase(n % Period)
  {
    AdvanceNFromPhase(0, n);
  }

  /** The animation is periodic: `Period` ticks from any phase return to it. */
  lemma TicksArePeriodic(k: nat)
    requires k < Period
    ensures AdvanceN(Phase(k), Period) == Phase(k)
  {
    AdvanceNFromPhase(k, Period);
    assert (k + Period) % Period == k;
  }

  /** The whole text is on screen once per cycle, in the last phase, and the
      next tick clears it. */
  lemma FullTextShown()
    ensures Phase(Period - 1).text == LoadingText
    ensures Advance(Phase(Period - 1)) == Idle
  {
  }

  /** Slicing by code units cuts the first emoji in half: 20 ticks into a
      cycle the published text ends in an unpaired high surrogate. */
  lemma SplitsSurrogatePair()
    ensures 20 < Period
    ensures |Phase(20).text| == 19 && IsHighSurrogate(Phase(20).text[18])
  {
    LoadingTextLength();
  }
}
