/**
 * The lightbox of the portfolio view page: which image is selected, whether the lightbox is
 * open, and the handlers that move between images.
 */
module PortfolioViewPage {
  import opened Wrappers

  /** The two pieces of lightbox state the handlers change. */
  datatype LightboxState = LightboxState(index: int, open: bool)

  /** What the user can do: click an image, close, step forward or back, or press a key. */
  datatype LightboxEvent = OpenAt(at: int) | Close | Next | Prev | KeyDown(key: string)

  /**
   * One event. Next moves forward only when a portfolio is loaded and the selection is not
   * the last image; Prev moves back only when it is not the first; Escape, ArrowRight and
   * ArrowLeft act as close, next and prev, and every other key does nothing. `imageCount` is
   * the loaded portfolio's number of images, or `None` before it is loaded.
   */
  function Step(st: LightboxState, imageCount: Option<nat>, ev: LightboxEvent): LightboxState
    decreases if ev.KeyDown? then 1 else 0
  {
    match ev
    case OpenAt(at) => LightboxState(at, true)
    case Close => st.(open := false)
    case Next => if imageCount.Some? && st.index < imageCount.value - 1 then st.(index := st.index + 1) else st
    case Prev => if st.index > 0 then st.(index := st.index - 1) else st
    case KeyDown(key) =>
      if key == "Escape" then Step(st, imageCount, Close)
      else if key == "ArrowRight" then Step(st, imageCount, Next)
      else if key == "ArrowLeft" then Step(st, imageCount, Prev)
      else st
  }

  function Run(st: LightboxState, imageCount: Option<nat>, events: seq<LightboxEvent>): LightboxState
    decreases |events|
  {
    if |events| == 0 then st else Run(Step(st, imageCount, events[0]), imageCount, events[1..])
  }

  predicate InRange(st: LightboxState, imageCount: nat)
  {
    0 <= st.index < imageCount
  }

  /** An event the page can raise: images are opened by their position in the gallery. */
  predicate FromGallery(ev: LightboxEvent, imageCount: nat)
  {
    ev.OpenAt? ==> 0 <= ev.at < imageCount
  }

  /** One event keeps the selection on an image. */
  lemma StepInRange(st: LightboxState, imageCount: nat, ev: LightboxEvent)
    requires InRange(st, imageCount) && FromGallery(ev, imageCount)
    ensures InRange(Step(st, Some(imageCount), ev), imageCount)
    ensures Step(st, Some(imageCount), ev).index - st.index in {-1, 0, 1} || ev.OpenAt?
  {
  }

  /**
   * Any run of events from the page keeps the selection on an image, so the lightbox's
   * `images[selectedImageIndex]` is always present.
   */
  lemma {:induction false} RunInRange(st: LightboxState, imageCount: nat, events: seq<LightboxEvent>)
    requires InRange(st, imageCount)
    requires forall i :: 0 <= i < |events| ==> FromGallery(events[i], imageCount)
    ensures InRange(Run(st, Some(imageCount), events), imageCount)
    decreases |events|
  {
    if |events| > 0 {
      StepInRange(st, imageCount, events[0]);
      RunInRange(Step(st, Some(imageCount), events[0]), imageCount, events[1..]);
    }
  }

  /** Escape closes and keeps the selection; the arrow keys are the step controls. */
  lemma KeysAreControls(st: LightboxState, imageCount: Option<nat>)
    ensures Step(st, imageCount, KeyDown("Escape")) == st.(open := false)
    ensures Step(st, imageCount, KeyDown("ArrowRight")) == Step(st, imageCount, Next)
    ensures Step(st, imageCount, KeyDown("ArrowLeft")) == Step(st, imageCount, Prev)
  {
  }

  /** The prev control is rendered when the selection is past the first image. */
  predicate ShowsPrev(st: LightboxState)
  {
    st.index > 0
  }

  /** The next control is rendered when the selection is before the last image. */
  predicate ShowsNext(st: LightboxState, imageCount: nat)
  {
    st.index < imageCount - 1
  }

  /** The lightbox is rendered only while open and when the portfolio has images. */
  predicate ShowsLightbox(st: LightboxState, imageCount: nat)
  {
    st.open && imageCount > 0
  }

  /** The counter's text: the selection's position, counted from 1, out of the image count. */
  function Counter(st: LightboxState, imageCount: nat): (int, nat)
  {
    (st.index + 1, imageCount)
  }

  /** Each control is shown exactly when pressing it would move the selection. */
  lemma ControlsShownIffTheyMove(st: LightboxState, imageCount: nat)
    ensures ShowsPrev(st) <==> Step(st, Some(imageCount), Prev).index == st.index - 1
    ensures !ShowsPrev(st) <==> Step(st, Some(imageCount), Prev) == st
    ensures ShowsNext(st, imageCount) <==> Step(st, Some(imageCount), Next).index == st.index + 1
    ensures !ShowsNext(st, imageCount) <==> Step(st, Some(imageCount), Next) == st
  {
  }

  /** On an image the counter runs from 1 to the count, and reaches the count only on the last. */
  lemma CounterBounds(st: LightboxState, imageCount: nat)
    requires InRange(st, imageCount)
    ensures 1 <= Counter(st, imageCount).0 <= Counter(st, imageCount).1
    ensures Counter(st, imageCount).0 == Counter(st, imageCount).1 <==> !ShowsNext(st, imageCount)
  {
  }

  /** The page's lightbox state, changed in place by its handlers. */
  class Lightbox {
    var selectedImageIndex: int
    var lightboxOpen: bool
    /** The loaded portfolio's number of images; `None` while the portfolio is null. */
    var imageCount: Option<nat>

    function State(): LightboxState
      reads this
    {
      LightboxState(selectedImageIndex, lightboxOpen)
    }

    constructor (imageCount: Option<nat>)
      ensures State() == LightboxState(0, false) && this.imageCount == imageCount
    {
      selectedImageIndex := 0;
      lightboxOpen := false;
      this.imageCount := imageCount;
    }

    /** `openLightbox`: select the image and open. */
    method OpenLightbox(index: int)
      modifies this
      ensures State() == Step(old(State()), imageCount, OpenAt(index)) && imageCount == old(imageCount)
      ensures selectedImageIndex == index && lightboxOpen
    {
      selectedImageIndex := index;
      lightboxOpen := true;
    }

    /** `closeLightbox`: close, keeping the selection. */
    method CloseLightbox()
      modifies this
      ensures State() == Step(old(State()), imageCount, Close) && imageCount == old(imageCount)
      ensures !lightboxOpen && selectedImageIndex == old(selectedImageIndex)
    {
      lightboxOpen := false;
    }

    /** `nextImage`: one image forward, unless there is no portfolio or this is the last image. */
    method NextImage()
      modifies this
      ensures State() == Step(old(State()), imageCount, Next) && imageCount == old(imageCount)
      ensures lightboxOpen == old(lightboxOpen)
      ensures imageCount.Some? && old(selectedImageIndex) < imageCount.value - 1 ==> selectedImageIndex == old(selectedImageIndex) + 1
      ensures !(imageCount.Some? && old(selectedImageIndex) < imageCount.value - 1) ==> selectedImageIndex == old(selectedImageIndex)
    {
      if imageCount.Some? && selectedImageIndex < imageCount.value - 1 {
        selectedImageIndex := selectedImageIndex + 1;
      }
    }

    /** `prevImage`: one image back, unless this is the first. */
    method PrevImage()
      modifies this
      ensures State() == Step(old(State()), imageCount, Prev) && imageCount == old(imageCount)
      ensures lightboxOpen == old(lightboxOpen)
      ensures old(selectedImageIndex) > 0 ==> selectedImageIndex == old(selectedImageIndex) - 1
      ensures old(selectedImageIndex) <= 0 ==> selectedImageIndex == old(selectedImageIndex)
    {
      if selectedImageIndex > 0 {
        selectedImageIndex := selectedImageIndex - 1;
      }
    }

    /** `handleKeyDown`: Escape closes, ArrowRight and ArrowLeft step; other keys are ignored. */
    method HandleKeyDown(key: string)
      modifies this
      ensures State() == Step(old(State()), imageCount, KeyDown(key)) && imageCount == old(imageCount)
      ensures imageCount.Some? && InRange(old(State()), imageCount.value) ==> InRange(State(), imageCount.value)
    {
      if imageCount.Some? && InRange(State(), imageCount.value) {
        StepInRange(State(), imageCount.value, KeyDown(key));
      }
      if key == "Escape" {
        CloseLightbox();
      } else if key == "ArrowRight" {
        NextImage();
      } else if key == "ArrowLeft" {
        PrevImage();
      }
    }
  }
}
