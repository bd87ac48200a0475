# Image generator page, modelled in Dafny

The page (`pages/_app.tsx`) is a single React component. It holds a text
prompt, a result URL, a `loading` flag and the text of a "typing" loading
animation. Pressing "Generate Image" clears the result, turns `loading` on and
awaits the image service. When the answer arrives it turns `loading` off and
sets the result to the first image's URL. When that URL is missing or empty,
the result becomes the string `no image found`. That string is non-empty, so
the page renders it as an image source, which gives a broken image rather
than a message. The "No image found. Please try again." paragraph appears
only when the result is empty: when the answer holds no image at all (see
below). While loading, an interval callback types out `LOADING_TEXT` one UTF-16 code unit per tick.

The model has three modules:

- `JsString`: JavaScript strings as sequences of UTF-16 code units. It covers
  the two built-ins the page uses: `slice`, with its negative-index and
  clamping rules, and `trim`, over the WhiteSpace and LineTerminator code
  points of ECMAScript. The page itself only calls `slice(0, i)` with
  `i >= 0`.
- `Typewriter`: the animation. `LoadingText` is the page's constant as code
  units. It is 38 units long because each emoji is a surrogate pair. One tick
  (`Advance`) moves the animation from one phase to the next. The lemmas show
  that the animation cycles through `Period = 40` phases. Phase `k` shows
  `LoadingText[..k-1]`, or nothing when `k` is 0. The full text appears once
  per cycle and is cleared on the following tick. Because `slice` counts code
  units, phase 20 ends in half of the first emoji: an unpaired high surrogate.
- `App`: the pure view logic (button enabled, result fallback, which branch
  renders) and a class `Page` with the component's state. Its methods are
  `SetPrompt`, `StartGenerate` and `FinishGenerate` (`generateImage` split at
  its `await`), `Tick` (the interval callback) and `PressButton`. `Tick` is
  written the way the callback is (slice, increment, reset) and is proved to
  perform `Typewriter.Advance`.

Behaviour of the code that the model keeps:

- Starting a request resets the animation counter only when `loading` was
  off. The animation effect depends on `loading`, so React does not re-run it
  when the value stays `true`. The button is disabled while loading, so a
  click never reaches this case.
- `FinishGenerate` receives the list of images in the answer. The code reads
  `data.data[0].url` only after `setLoading(false)`. With an empty list that
  read throws, so `loading` is off and `result` keeps its value from the
  start step (empty). The page then shows the "no image" message.

## Model

| member | source | states |
|---|---|---|
| `JsString.Slice` | pages/_app.tsx:48 | `slice(start, end)` is never longer than the string, equals `s[start..end]` for in-range positions, is a prefix when `start` is 0, and is the whole string once `end` reaches the length |
| `JsString.SliceFromEnd` | pages/_app.tsx:48 | a negative start counts back from the end: `slice(-m, length)` is the last `m` code units, for `0 < m <= length` |
| `JsString.SliceEmptyWhenEndBeforeStart` | pages/_app.tsx:48 | `slice(a, b)` with `0 <= b <= a` is the empty string |
| `JsString.Trim` | pages/_app.tsx:81 | `trim()` is empty exactly when every code unit is white space; otherwise it neither starts nor ends with white space |
| `JsString.TrimmedEmpty` | pages/_app.tsx:81 | stripping white space from both ends leaves nothing iff the string is all white space (both directions) |
| `Typewriter.LoadingTextLength` | pages/_app.tsx:8 | `LOADING_TEXT.length` is 38 code units, so the animation has 40 phases |
| `Typewriter.Advance` | pages/_app.tsx:48-53 | after a tick the counter is in `0..=length+1` and the text is a prefix of the loading text; the counter drops to 0, with an empty text, exactly when the tick starts at `length+1`; otherwise the counter goes up by one and the text has as many units as the old counter |
| `Typewriter.AdvanceN` | pages/_app.tsx:46-53 | any number of ticks keeps the counter within `0..=length+1` |
| `Typewriter.AdvanceNFromPhase` | pages/_app.tsx:46-53 | `n` ticks from phase `k` reach phase `(k + n) mod 40` |
| `Typewriter.TicksSinceStart` | pages/_app.tsx:46-53 | `n` ticks after the counter starts at 0, the animation is in phase `n mod 40` |
| `Typewriter.TicksArePeriodic` | pages/_app.tsx:48-53 | the animation is periodic with period `length + 2` |
| `Typewriter.FullTextShown` | pages/_app.tsx:48-53 | the last phase shows the whole loading text, and the next tick resets to counter 0 with no text |
| `Typewriter.SplitsSurrogatePair` | pages/_app.tsx:48 | phase 20 publishes 19 code units, the last of which is an unpaired high surrogate from the first emoji |
| `App.ButtonEnabled` | pages/_app.tsx:81 | the button is enabled iff not loading and the prompt is not all white space |
| `App.ResultOrFallback` | pages/_app.tsx:41 | `url \|\| 'no image found'`: a present, non-empty URL is kept; a missing or empty one gives the fallback; the result is never empty |
| `App.MissingUrlRendersFallbackImage` | pages/_app.tsx:41 | with a missing or empty URL the page renders the image branch with `no image found` as its source, never the "no image" message |
| `App.Render` | pages/_app.tsx:84-98 | exactly one branch: the typed text iff loading; the image iff not loading and the result is non-empty; the "no image" message iff not loading and the result is empty |
| `App.Page.constructor` | pages/_app.tsx:11-14 | initial state: empty prompt, the placeholder URL as result, not loading, no typed text; the placeholder image is shown |
| `App.Page.SetPrompt` | pages/_app.tsx:79 | only the prompt changes; result, loading, typed text and counter are untouched |
| `App.Page.StartGenerate` | pages/_app.tsx:29-31 | loading is on, typed text and result are cleared, the prompt is unchanged; the counter restarts at 0 when loading was off (the effect at lines 44-46); the loading branch renders |
| `App.Page.FinishGenerate` | pages/_app.tsx:39-41 | loading is off; the result is the first image's URL or the fallback, or unchanged when the answer has no image; other state is untouched; with an image, the result is non-empty and the image branch renders |
| `App.Page.Tick` | pages/_app.tsx:47-53 | the callback's slice, increment and reset perform exactly `Advance`; a tick at `length+1` leaves counter 0 and no text; the counter stays in range and the text stays a prefix; nothing else changes |
| `App.Page.PressButton` | pages/_app.tsx:81 | an enabled click starts a request with the animation at phase 0; a disabled click, and therefore any click while loading, changes nothing |

## Left out

- The call to the image service (`openai.createImage`, lines 33-37) is a network call. The model has no such call: its answer is the argument of `FinishGenerate`. The code does not catch a rejected request, so `loading` then stays on for good; the model has no transition for that case. The prompt the request was sent with is not recorded.
- Reading the API key from the runtime configuration or the environment, and the exception when it is missing (lines 16-26), are configuration I/O.
- The decorative star field (lines 61-73) uses `Math.random()`, which is nondeterministic floating point.
- The 100 ms timer, `clearInterval` on cleanup (line 55) and React's batching of state updates are not modelled. Each tick is one atomic step, and `Tick` may run only while `loading` is on, which is when the interval exists.
- CSS imports and the markup beyond the choice of branch (lines 4-5, 59-100) are left out.
- Whether a character counts as white space follows the Space_Separator category of Unicode 15. A later Unicode version could add code points to it.
- URLs and the result are Dafny strings, not code-unit strings. The page only tests them for emptiness and passes them to an image element.
