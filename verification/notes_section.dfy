/**
 * The Notes view: a slide pager clamped to the note's slides (no wrap-around),
 * with a slide counter, a rounded completion percentage, an auto-play switch
 * and a slides/reader view switch, plus the reader list's status badge rule.
 */
module NotesSection {
  import opened Text
  import opened Rounding
  import opened Palette

  /** Number of slides of the note on show (its `totalSlides` field). */
  const NoteSlides: nat := 24

  datatype ViewMode = Slides | Reader

  datatype NotesState = NotesState(viewMode: ViewMode, currentSlide: int, isAutoPlay: bool)

  /** The view opens on the slides panel at the first slide, auto-play off. */
  function InitialNotesState(): (s: NotesState)
    ensures s.viewMode == Slides && s.currentSlide == 0 && !s.isAutoPlay
  {
    NotesState(Slides, 0, false)
  }

  /** The "previous" button's target, `Math.max(0, i - 1)`. */
  function PrevSlide(i: int): (r: int)
    ensures r >= 0 && r >= i - 1
    ensures i >= 1 ==> r == i - 1
    ensures i <= 0 ==> r == 0
  {
    if 0 >= i - 1 then 0 else i - 1
  }

  /** The "next" button's target, `Math.min(total - 1, i + 1)`. */
  function NextSlide(i: int, total: int): (r: int)
    ensures r <= total - 1 && r <= i + 1
    ensures i < total - 1 ==> r == i + 1
    ensures i >= total - 1 ==> r == total - 1
  {
    if total - 1 <= i + 1 then total - 1 else i + 1
  }

  predicate InRange(i: int, total: int) {
    0 <= i < total
  }

  /** "previous" is disabled on the first slide, "next" on the last. */
  predicate PrevDisabled(i: int) {
    i == 0
  }

  predicate NextDisabled(i: int, total: int) {
    i == total - 1
  }

  /** On an in-range slide, a button is disabled exactly where its step would not move. */
  lemma DisabledExactlyWhereStepIsIdentity(i: int, total: int)
    requires InRange(i, total)
    ensures PrevSlide(i) == i <==> PrevDisabled(i)
    ensures NextSlide(i, total) == i <==> NextDisabled(i, total)
  {
  }

  /** Away from the ends, "previous" undoes "next" and "next" undoes "previous". */
  lemma StepsUndoEachOther(i: int, total: int)
    requires InRange(i, total)
    ensures i < total - 1 ==> PrevSlide(NextSlide(i, total)) == i
    ensures i > 0 ==> NextSlide(PrevSlide(i), total) == i
  {
  }

  /** The counter's "Slide n of total" number. */
  function SlideNumber(i: int, total: int): (n: int)
    requires InRange(i, total)
    ensures 1 <= n <= total
    ensures n - 1 == i
  {
    i + 1
  }

  /** The "% Complete" figure: `Math.round((i + 1) / total * 100)`. */
  function Percent(i: int, total: int): (r: int)
    requires InRange(i, total)
    ensures 0 <= r <= 100
    ensures i == total - 1 ==> r == 100
    ensures total * (2 * r - 1) <= 200 * (i + 1) < total * (2 * r + 1)
  {
    RoundDivBetween(100 * (i + 1), total, 0, 100);
    RoundDivExact(100, total);
    RoundDiv(100 * (i + 1), total)
  }

  /** The percentage never decreases as the reader moves forward. */
  lemma PercentMonotone(i: int, j: int, total: int)
    requires InRange(i, total) && InRange(j, total) && i <= j
    ensures Percent(i, total) <= Percent(j, total)
  {
    RoundDivMonotone(100 * (i + 1), 100 * (j + 1), total);
  }

  /** For the 24-slide note: the first slide reads 4%, the twelfth 50%, the last 100%. */
  lemma PercentOfTwentyFourSlides()
    ensures Percent(0, NoteSlides) == 4
    ensures Percent(11, NoteSlides) == 50
    ensures Percent(23, NoteSlides) == 100
  {
    RoundDivUnique(100, 24, 4);
    RoundDivUnique(1200, 24, 50);
  }

  /** A user action on the view. */
  datatype NotesEvent =
    | PressPrev
    | PressNext
    | PressAutoPlay
    | ChooseView(mode: ViewMode)

  /**
   * One event; a press on a disabled button has no effect. Pager presses are
   * accepted in either view, although only the slides view renders the pager.
   */
  function Step(s: NotesState, e: NotesEvent, total: int): (r: NotesState)
    ensures e.PressPrev? || e.PressNext? ==> r.viewMode == s.viewMode && r.isAutoPlay == s.isAutoPlay
    ensures e.PressPrev? ==> r.currentSlide == (if PrevDisabled(s.currentSlide) then s.currentSlide else PrevSlide(s.currentSlide))
    ensures e.PressNext? ==> r.currentSlide == (if NextDisabled(s.currentSlide, total) then s.currentSlide else NextSlide(s.currentSlide, total))
    ensures e.PressAutoPlay? ==> r == s.(isAutoPlay := !s.isAutoPlay)
    ensures e.ChooseView? ==> r == s.(viewMode := e.mode)
  {
    match e
    case PressPrev => if PrevDisabled(s.currentSlide) then s else s.(currentSlide := PrevSlide(s.currentSlide))
    case PressNext => if NextDisabled(s.currentSlide, total) then s else s.(currentSlide := NextSlide(s.currentSlide, total))
    case PressAutoPlay => s.(isAutoPlay := !s.isAutoPlay)
    case ChooseView(mode) => s.(viewMode := mode)
  }

  /** A sequence of events applied in order. */
  function Run(s: NotesState, events: seq<NotesEvent>, total: int): NotesState
    decreases |events|
  {
    if |events| == 0 then s else Run(Step(s, events[0], total), events[1..], total)
  }

  /** Starting on an in-range slide, every sequence of events keeps the slide in range. */
  lemma {:induction false} RunStaysInRange(s: NotesState, events: seq<NotesEvent>, total: int)
    requires InRange(s.currentSlide, total)
    ensures InRange(Run(s, events, total).currentSlide, total)
    decreases |events|
  {
    if |events| > 0 {
      RunStaysInRange(Step(s, events[0], total), events[1..], total);
    }
  }

  /** From the initial state of a note with at least one slide, the slide stays within [0, total - 1]. */
  lemma ReachableSlidesInRange(events: seq<NotesEvent>, total: int)
    requires total >= 1
    ensures 0 <= Run(InitialNotesState(), events, total).currentSlide <= total - 1
  {
    RunStaysInRange(InitialNotesState(), events, total);
  }

  /** Only the view switch changes the view, so the slides panel stays up until "Reader" is chosen. */
  lemma {:induction false} ViewChangesOnlyByChoice(s: NotesState, events: seq<NotesEvent>, total: int)
    requires forall k :: 0 <= k < |events| ==> !events[k].ChooseView?
    ensures Run(s, events, total).viewMode == s.viewMode
    decreases |events|
  {
    if |events| > 0 {
      ViewChangesOnlyByChoice(Step(s, events[0], total), events[1..], total);
    }
  }

  /** Whether the slides panel (rather than the reader) is rendered. */
  function ShowsSlidesPanel(s: NotesState): (r: bool)
    ensures r <==> s.viewMode == Slides
    ensures s == InitialNotesState() ==> r
  {
    s.viewMode == Slides
  }

  /** The reader list's status badge text: the first "-" becomes a space. */
  function StatusLabel(status: string): (r: string)
    ensures |r| == |status|
    ensures '-' !in status ==> r == status
    ensures forall i :: 0 <= i < |status| ==>
      r[i] == (if status[i] == '-' && '-' !in status[..i] then ' ' else status[i])
  {
    ReplaceFirst(status, '-', ' ')
  }

  /** "in-progress" reads "in progress". */
  lemma StatusLabelInProgress()
    ensures StatusLabel("in-progress") == "in progress"
  {
    var s := "in-progress";
    assert s[2] == '-' && '-' !in s[..2];
    assert IndexOf(s, '-') == 2;
  }

  /** Only the first of several hyphens is replaced. */
  lemma StatusLabelFirstHyphenOnly()
    ensures StatusLabel("a-b-c") == "a b-c"
  {
    var s := "a-b-c";
    assert s[1] == '-' && '-' !in s[..1];
    assert IndexOf(s, '-') == 1;
  }

  /** The reader list's badge colour: green for completed, amber for updated, primary for anything else. */
  function StatusColor(status: string): (r: Tone)
    ensures r in {SuccessTone, WarningTone, PrimaryTone}
    ensures r == SuccessTone <==> status == "completed"
    ensures r == WarningTone <==> status == "updated"
  {
    if status == "completed" then SuccessTone
    else if status == "updated" then WarningTone
    else PrimaryTone
  }
}
