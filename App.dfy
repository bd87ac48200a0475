/** The page component: a prompt box, a "Generate Image" button and a result
    area that shows the loading animation, the generated image, or a "no
    image" message. The call to the image service itself is not modelled: a
    request is started by `StartGenerate` and its answer, whenever it comes,
    is handed to `FinishGenerate`. */
module App {
  import opened JsString
  import opened Typewriter

  datatype Option<T> = None | Some(value: T)

  /* URLs and the result are only ever tested for emptiness and handed to an
     image element, so they are plain strings; the prompt and the animated
     text, on which `trim` and `slice` work, are code-unit strings. */

  /** The placeholder picture shown before the first request. */
  const InitialResult: string := "https://cdn.pixabay.com/photo/2016/03/21/20/05/image-1271454_1280.png"

  /** What `result` becomes when the service returns no usable URL. It is
      then used as the image's source, not shown as text. */
  const NoImageFound: string := "no image found"

  /** What the result area renders: exactly one of three branches. */
  datatype View = LoadingView(text: JsStr) | ImageView(src: string) | EmptyView

  /** The button is enabled unless a request is in flight or the prompt
      trims to nothing. */
  function ButtonEnabled(loading: bool, prompt: JsStr): (enabled: bool)
    ensures enabled <==> !loading && !AllWhiteSpace(prompt)
  {
    !(loading || Trim(prompt) == [])
  }

  /** `url || 'no image found'`: a missing or empty URL gives the string
      `no image found`, so the new result is never empty. */
  function ResultOrFallback(url: Option<string>): (r: string)
    ensures r != []
    ensures url.Some? && url.value != [] ==> r == url.value
    ensures url.None? || url.value == [] ==> r == NoImageFound
  {
    if url.Some? && url.value != [] then url.value else NoImageFound
  }

  /** The branch choice of the result area: the animation while loading
      (loading wins), otherwise the image when there is a non-empty result,
      otherwise the "no image" message. */
  function Render(loading: bool, result: string, typedText: JsStr): (v: View)
    ensures v.LoadingView? <==> loading
    ensures v.ImageView? <==> !loading && result != []
    ensures v.EmptyView? <==> !loading && result == []
    ensures v.LoadingView? ==> v.text == typedText
    ensures v.ImageView? ==> v.src == result
  {
    if loading then LoadingView(typedText)
    else if result != [] then ImageView(result)
    else EmptyView
  }

  /** A missing URL does not lead to the "no image" message: the fallback
      string is non-empty, so it is rendered as an image source (a broken
      image). */
  lemma MissingUrlRendersFallbackImage(typedText: JsStr)
    ensures Render(false, ResultOrFallback(None), typedText) == ImageView(NoImageFound)
    ensures !Render(false, ResultOrFallback(Some([])), typedText).EmptyView?
  {
  }

  /** The component's state: its four state hooks and the counter `i` of the
      animation's interval callback. */
  class Page {
    var prompt: JsStr
    var result: string
    var loading: bool
    var typedText: JsStr
    var i: nat

    /** The counter never leaves `0 ..= |LoadingText| + 1` and the animation
        only ever shows a prefix of the loading text. */
    ghost predicate Valid()
      reads this
    {
      i < Period && typedText <= LoadingText
    }

    /** The animation's state, as the `Typewriter` module describes it. */
    function Animation(): TypingState
      reads this
    {
      TypingState(i, typedText)
    }

    /** What the result area currently renders. */
    function CurrentView(): View
      reads this
    {
      Render(loading, result, typedText)
    }

    constructor ()
      ensures Valid()
      ensures prompt == [] && result == InitialResult && !loading && typedText == [] && i == 0
      ensures CurrentView() == ImageView(InitialResult)
    {
      prompt := [];
      result := InitialResult;
      loading := false;
      typedText := [];
      i := 0;
    }

    /** Editing the text box: only the prompt changes. */
    method SetPrompt(value: JsStr)
      requires Valid()
      modifies this`prompt
      ensures Valid()
      ensures prompt == value
      ensures result == old(result) && loading == old(loading)
      ensures typedText == old(typedText) && i == old(i)
    {
      prompt := value;
    }

    /** The part of `generateImage` before its `await`: loading on, text and
        result cleared. The animation effect depends on `loading`, so it
        restarts its counter from 0 only when `loading` was off before. */
    method StartGenerate()
      requires Valid()
      modifies this`loading, this`typedText, this`result, this`i
      ensures Valid()
      ensures loading && typedText == [] && result == [] && prompt == old(prompt)
      ensures i == if old(loading) then old(i) else 0
      ensures !old(loading) ==> Animation() == Idle
      ensures CurrentView() == LoadingView([])
    {
      var wasLoading := loading;
      loading := true;
      typedText := [];
      result := [];
      if !wasLoading {
        i := 0;
      }
    }

    /** The part of `generateImage` after its `await`, given the URLs of the
        images in the answer (`None` for a missing URL). Loading goes off
        first; the first URL, or the fallback message, becomes the result.
        With no image at all, reading the first one throws before `result`
        is set, so the result stays as it was. */
    method FinishGenerate(images: seq<Option<string>>)
      requires Valid()
      modifies this`loading, this`result
      ensures Valid()
      ensures !loading
      ensures result == if images == [] then old(result) else ResultOrFallback(images[0])
      ensures prompt == old(prompt) && typedText == old(typedText) && i == old(i)
      ensures images != [] ==> result != [] && CurrentView() == ImageView(result)
    {
      loading := false;
      if images != [] {
        result := ResultOrFallback(images[0]);
      }
    }

    /** One run of the interval callback, which exists only while loading:
        publish `LOADING_TEXT.slice(0, i)`, count up, and once the counter
        passes `length + 1` reset it and clear the text. */
    method Tick()
      requires Valid() && loading
      modifies this`i, this`typedText
      ensures Valid()
      ensures Animation() == Advance(old(Animation()))
      ensures old(i) == |LoadingText| + 1 ==> i == 0 && typedText == []
      ensures prompt == old(prompt) && result == old(result) && loading == old(loading)
    {
      typedText := Slice(LoadingText, 0, i);
      i := i + 1;
      if i > |LoadingText| + 1 {
        i := 0;
        typedText := [];
      }
    }

    /** A click on the button: it starts a request only when enabled, so
        never while one is in flight. */
    method PressButton()
      requires Valid()
      modifies this`loading, this`typedText, this`result, this`i
      ensures Valid()
      ensures prompt == old(prompt)
      ensures old(ButtonEnabled(loading, prompt)) ==>
        loading && typedText == [] && result == [] && Animation() == Idle
      ensures !old(ButtonEnabled(loading, prompt)) ==>
        loading == old(loading) && typedText == old(typedText)
        && result == old(result) && i == old(i)
    {
      if ButtonEnabled(loading, prompt) {
        StartGenerate();
      }
    }
  }
}
