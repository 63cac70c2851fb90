/**
 * The step wizard that drives the multi-step create forms
 * (`AddProductTabs`): an `activeStep` index into an ordered list of step
 * labels, the `goNext`/`goBack` transitions, the click handlers that
 * delegate to the container's `onNext`/`onBack`, and the derived footer
 * state (button enablement, progress bar, caption).
 */
module StepWizard {
  import opened Wrappers
  import Text
  import Seqs

  // ---------------------------------------------------------------- transitions

  /** The index `goNext` moves to: one further, unless already on the last step. */
  function NextIndex(active: int, count: nat): int
  {
    if active < count - 1 then active + 1 else active
  }

  /**
   * JavaScript truthiness of the optional `step` argument of `goBack`:
   * absent and `0` are both falsy.
   */
  predicate IsJump(step: Option<int>)
  {
    step.Some? && step.value != 0
  }

  /**
   * The index `goBack(step?)` leaves: a decrement floored at 0, then, when
   * `step` is truthy, a jump to `step` that overrides it.
   */
  function BackIndex(active: int, step: Option<int>): int
  {
    var decremented := if active > 0 then active - 1 else active;
    if IsJump(step) then step.value else decremented
  }

  predicate InRange(active: int, count: nat)
  {
    0 <= active < count
  }

  /** `goNext` moves by exactly one step, or not at all on the last step. */
  lemma NextIndexStep(active: int, count: nat)
    ensures NextIndex(active, count) == active + 1 <==> active < count - 1
    ensures NextIndex(active, count) == active <==> active >= count - 1
  {
  }

  /** `goNext` keeps the index in range and never passes the last step. */
  lemma NextIndexInRange(active: int, count: nat)
    requires InRange(active, count)
    ensures InRange(NextIndex(active, count), count)
    ensures NextIndex(active, count) <= count - 1
  {
  }

  /** Argument-less `goBack` steps back by one, and from step 0 it does nothing. */
  lemma BackIndexPlain(active: int)
    ensures BackIndex(active, None) == (if active > 0 then active - 1 else active)
    ensures BackIndex(0, None) == 0
  {
  }

  /** `goBack(0)` behaves exactly like `goBack()`: 0 is falsy. */
  lemma BackIndexZeroIsPlain(active: int)
    ensures BackIndex(active, Some(0)) == BackIndex(active, None)
  {
  }

  /** `goBack(k)` with `k != 0` lands on `k`, wherever the wizard was. */
  lemma BackIndexJump(active: int, k: int)
    requires k != 0
    ensures BackIndex(active, Some(k)) == k
  {
  }

  /**
   * `goBack` keeps the index in range when its argument is absent or itself
   * in range; a truthy argument is not range-checked.
   */
  lemma BackIndexInRange(active: int, count: nat, step: Option<int>)
    requires InRange(active, count)
    requires step.None? || InRange(step.value, count)
    ensures InRange(BackIndex(active, step), count)
  {
  }

  /** A truthy argument outside the steps leaves the wizard outside them. */
  lemma BackIndexUnchecked(active: int, count: nat)
    requires InRange(active, count)
    ensures !InRange(BackIndex(active, Some(count as int)), count)
  {
  }

  // ---------------------------------------------------------------- delegation

  /** What an `onNext` handler does with the `goNext`/`goBack` it is handed. */
  datatype NextCall = CallGoNext | CallGoBack(step: Option<int>) | CallNeither

  /** What an `onBack` handler does with the `goBack` it is handed. */
  datatype BackCall = BackTo(step: Option<int>) | NoBack

  function AfterNextCall(active: int, count: nat, call: NextCall): int
  {
    match call
    case CallGoNext => NextIndex(active, count)
    case CallGoBack(step) => BackIndex(active, step)
    case CallNeither => active
  }

  /**
   * The Publish button's text: the upload notice while an image uploads,
   * otherwise the container's name for it, otherwise "Create Product".
   */
  function PublishCaption(imageUploading: Option<bool>, submitButtonName: Option<string>): (caption: string)
    ensures caption != []
    ensures imageUploading == Some(true) ==> caption == "Uploading Image..."
    ensures imageUploading != Some(true) && submitButtonName.Some? && submitButtonName.value != [] ==>
      caption == submitButtonName.value
    ensures imageUploading != Some(true) && (submitButtonName.None? || submitButtonName.value == []) ==>
      caption == "Create Product"
  {
    if imageUploading == Some(true) then "Uploading Image..."
    else if submitButtonName.Some? && submitButtonName.value != [] then submitButtonName.value
    else "Create Product"
  }

  // ---------------------------------------------------------------- progress bar

  /** Which progress segments are highlighted: those at or before the active step. */
  function Progress(count: nat, active: int): (segments: seq<bool>)
    ensures |segments| == count
    ensures forall i :: 0 <= i < count ==> (segments[i] <==> i <= active)
  {
    seq(count, i requires 0 <= i < count => i <= active)
  }

  function IsSet(b: bool): bool { b }

  /** Exactly `activeStep + 1` progress segments are highlighted. */
  lemma {:induction false} ProgressCount(count: nat, active: int)
    requires InRange(active, count)
    ensures Seqs.Count(Progress(count, active), IsSet) == active + 1
  {
    HighlightedPrefix(Progress(count, active), active + 1);
  }

  lemma {:induction false} HighlightedPrefix(s: seq<bool>, k: nat)
    requires k <= |s|
    requires forall i :: 0 <= i < |s| ==> (s[i] <==> i < k)
    ensures Seqs.Count(s, IsSet) == k
    decreases |s|
  {
    if s != [] {
      HighlightedPrefix(s[1..], if k == 0 then 0 else k - 1);
    }
  }

  // ---------------------------------------------------------------- the wizard

  /**
   * `caption` reads `Step {k} of {count}: {text}`: "Step ", digits that
   * read back as `k`, " of ", digits that read back as `count`, ": " and
   * `text` to the end.
   */
  ghost predicate ReadsAsCaption(caption: string, k: nat, count: nat, text: string)
  {
    var a := 5 + |Text.Decimal(k)|;
    var b := a + 4 + |Text.Decimal(count)|;
    && |caption| == b + 2 + |text|
    && caption[..5] == "Step "
    && Text.IsDigits(caption[5..a]) && Text.DecimalValue(caption[5..a]) == k
    && caption[a..a + 4] == " of "
    && Text.IsDigits(caption[a + 4..b]) && Text.DecimalValue(caption[a + 4..b]) == count
    && caption[b..b + 2] == ": "
    && caption[b + 2..] == text
  }

  /** Where the pieces of `"Step " + n + " of " + m + ": " + text` sit. */
  lemma CaptionParts(n: string, m: string, text: string)
    ensures var caption := "Step " + n + " of " + m + ": " + text;
            var a := 5 + |n|;
            var b := a + 4 + |m|;
            && |caption| == b + 2 + |text|
            && caption[..5] == "Step " && caption[5..a] == n && caption[a..a + 4] == " of "
            && caption[a + 4..b] == m && caption[b..b + 2] == ": " && caption[b + 2..] == text
  {
  }

  /** The caption template reads back as its two numbers and its label. */
  lemma CaptionReadsBack(caption: string, k: nat, count: nat, text: string)
    requires caption == "Step " + Text.Decimal(k) + " of " + Text.Decimal(count) + ": " + text
    ensures ReadsAsCaption(caption, k, count, text)
  {
    var n := Text.Decimal(k);
    var m := Text.Decimal(count);
    var a := 5 + |n|;
    var b := a + 4 + |m|;
    CaptionParts(n, m, text);
    Text.DecimalRoundTrip(k);
    Text.DecimalRoundTrip(count);
    assert caption[5..a] == n && caption[a + 4..b] == m;
  }

  class Wizard {
    /** The step labels, in order; `tabs.length` is their number. */
    const labels: seq<string>
    var activeStep: int

    ghost predicate Valid()
      reads this
    {
      InRange(activeStep, |labels|)
    }

    /** The wizard mounts on step 0. */
    constructor (labels: seq<string>)
      requires |labels| >= 1
      ensures this.labels == labels && activeStep == 0
      ensures Valid()
    {
      this.labels := labels;
      activeStep := 0;
    }

    /** `goNext`. */
    method GoNext()
      modifies this
      ensures activeStep == NextIndex(old(activeStep), |labels|)
      ensures old(Valid()) ==> Valid()
    {
      if activeStep < |labels| - 1 {
        var nextStep := activeStep + 1;
        activeStep := nextStep;
      }
    }

    /** `goBack(step?)`: decrement, then possibly jump. */
    method GoBack(step: Option<int>)
      modifies this
      ensures activeStep == BackIndex(old(activeStep), step)
      ensures old(Valid()) && (step.None? || InRange(step.value, |labels|)) ==> Valid()
    {
      if activeStep > 0 {
        var prevStep := activeStep - 1;
        activeStep := prevStep;
      }
      if IsJump(step) {
        activeStep := step.value;
      }
    }

    /**
     * `handleNextClick`: hand the active index to `onNext` when there is one
     * and do what it calls; otherwise `goNext`.
     */
    method HandleNextClick(onNext: Option<int -> NextCall>)
      modifies this
      ensures activeStep == AfterNextCall(old(activeStep), |labels|,
                                          if onNext.Some? then onNext.value(old(activeStep)) else CallGoNext)
    {
      if onNext.Some? {
        var call := onNext.value(activeStep);
        match call
        case CallGoNext => GoNext();
        case CallGoBack(step) => GoBack(step);
        case CallNeither =>
      } else {
        GoNext();
      }
    }

    /** `handleBackClick`: hand the active index to `onBack` when there is one; otherwise `goBack()`. */
    method HandleBackClick(onBack: Option<int -> BackCall>)
      modifies this
      ensures activeStep ==
        if onBack.None? then BackIndex(old(activeStep), None)
        else match onBack.value(old(activeStep))
          case BackTo(step) => BackIndex(old(activeStep), step)
          case NoBack => old(activeStep)
    {
      if onBack.Some? {
        var call := onBack.value(activeStep);
        match call
        case BackTo(step) => GoBack(step);
        case NoBack =>
      } else {
        GoBack(None);
      }
    }

    // ------------------------------------------------------------ footer

    /**
     * The Back button (`disabled={activeStep === 0}`) is disabled exactly
     * where an argument-less `goBack` would change nothing.
     */
    function BackDisabled(): (r: bool)
      reads this
      ensures Valid() ==> (r <==> BackIndex(activeStep, None) == activeStep)
    {
      activeStep == 0
    }

    /**
     * Publish replaces Next (`activeStep === tabs.length - 1`) exactly where
     * `goNext` would change nothing.
     */
    function ShowsPublish(): (r: bool)
      reads this
      ensures Valid() ==> (r <==> NextIndex(activeStep, |labels|) == activeStep)
    {
      activeStep == |labels| - 1
    }

    /**
     * Publish is disabled while the submission is loading, when the
     * container disables it, or while an image is uploading; `?? false`
     * makes an absent flag count as false, so the button reading
     * "Uploading Image..." is never enabled.
     */
    function PublishDisabled(loading: bool, publishDisabled: Option<bool>, imageUploading: Option<bool>): (r: bool)
      ensures publishDisabled.None? && imageUploading.None? ==> (r <==> loading)
      ensures imageUploading == Some(true) ==> r
      ensures !r <==> !loading && publishDisabled != Some(true) && imageUploading != Some(true)
    {
      loading || publishDisabled.GetOr(false) || imageUploading.GetOr(false)
    }

    /**
     * Next is disabled while loading or when the container's `isNextDisabled`
     * says so for the active step; `?.( ) ?? false` makes an absent
     * predicate disable nothing.
     */
    function NextDisabled(loading: bool, isNextDisabled: Option<int -> bool>): (r: bool)
      reads this
      ensures isNextDisabled.None? ==> (r <==> loading)
      ensures !loading && isNextDisabled.Some? ==> (r <==> isNextDisabled.value(activeStep))
    {
      loading || (if isNextDisabled.Some? then isNextDisabled.value(activeStep) else false)
    }

    /**
     * A click on the Back button: a disabled button ignores it, otherwise
     * `handleBackClick` runs.
     */
    method PressBack(onBack: Option<int -> BackCall>)
      modifies this
      ensures old(BackDisabled()) ==> activeStep == old(activeStep)
      ensures !old(BackDisabled()) ==> (activeStep ==
        if onBack.None? then BackIndex(old(activeStep), None)
        else match onBack.value(old(activeStep))
          case BackTo(step) => BackIndex(old(activeStep), step)
          case NoBack => old(activeStep))
      ensures old(Valid()) && onBack.None? ==> Valid() && (activeStep == old(activeStep) <==> old(activeStep) == 0)
    {
      if !BackDisabled() {
        HandleBackClick(onBack);
      }
    }

    /**
     * A click on the Next button, which is drawn only before the last step:
     * a hidden or disabled button ignores it, otherwise `handleNextClick`
     * runs.
     */
    method PressNext(loading: bool, isNextDisabled: Option<int -> bool>, onNext: Option<int -> NextCall>)
      modifies this
      ensures old(ShowsPublish()) || old(NextDisabled(loading, isNextDisabled)) ==> activeStep == old(activeStep)
      ensures !old(ShowsPublish()) && !old(NextDisabled(loading, isNextDisabled)) ==>
        activeStep == AfterNextCall(old(activeStep), |labels|,
                                    if onNext.Some? then onNext.value(old(activeStep)) else CallGoNext)
      ensures old(Valid()) && onNext.None? ==>
        Valid() && (activeStep == old(activeStep) + 1 <==> !old(ShowsPublish()) && !old(NextDisabled(loading, isNextDisabled)))
    {
      if !ShowsPublish() && !NextDisabled(loading, isNextDisabled) {
        HandleNextClick(onNext);
      }
    }

    /**
     * A click on the Publish button, which is drawn only on the last step:
     * `published` tells whether `onPublish` is called. The wizard's own
     * step never changes.
     */
    method PressPublish(loading: bool, publishDisabled: Option<bool>, imageUploading: Option<bool>)
      returns (published: bool)
      ensures published <==> ShowsPublish() && !PublishDisabled(loading, publishDisabled, imageUploading)
      ensures published ==> !loading && imageUploading != Some(true) && publishDisabled != Some(true)
      ensures Valid() && published ==> NextIndex(activeStep, |labels|) == activeStep
    {
      published := ShowsPublish() && !PublishDisabled(loading, publishDisabled, imageUploading);
    }

    /** The progress bar of the footer. */
    function Segments(): (segments: seq<bool>)
      reads this
      ensures |segments| == |labels|
    {
      Progress(|labels|, activeStep)
    }

    /** The caption `Step {activeStep + 1} of {tabs.length}: {label}`. */
    function Caption(): (caption: string)
      reads this
      requires Valid()
      ensures ReadsAsCaption(caption, activeStep + 1, |labels|, labels[activeStep])
    {
      var caption := "Step " + Text.Decimal(activeStep + 1) + " of " + Text.Decimal(|labels|) + ": " + labels[activeStep];
      CaptionReadsBack(caption, activeStep + 1, |labels|, labels[activeStep]);
      caption
    }
  }
}
