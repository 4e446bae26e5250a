/**
 * The dashboard's two "Show More / Show Less" lists (upcoming tests and
 * subjects): each shows its first five entries until its own flag is set.
 */
module Dashboard {
  import opened Seqs

  /** How many entries a collapsed list shows. */
  const CollapsedCount: nat := 5

  /** The two independent expansion flags. */
  datatype ShowState = ShowState(showAllTests: bool, showAllSubjects: bool)

  function InitialShowState(): (s: ShowState)
    ensures !s.showAllTests && !s.showAllSubjects
  {
    ShowState(false, false)
  }

  /** The entries a list displays: all of them when expanded, the first five otherwise. */
  function Displayed<T>(items: seq<T>, expanded: bool): (r: seq<T>)
    ensures r <= items
    ensures expanded ==> r == items
    ensures !expanded ==> |r| == Min(CollapsedCount, |items|)
  {
    if expanded then items else Take(items, CollapsedCount)
  }

  /** Whether the list has a Show More / Show Less button at all. */
  function HasToggle<T>(items: seq<T>): (r: bool)
    ensures r <==> |items| > CollapsedCount
  {
    |items| > CollapsedCount
  }

  /**
   * The button appears exactly when it would change something: a list of at
   * most five entries looks the same collapsed and expanded, and a longer one
   * does not.
   */
  lemma ToggleShownIffViewsDiffer<T>(items: seq<T>)
    ensures HasToggle(items) <==> Displayed(items, false) != Displayed(items, true)
  {
    if |items| > CollapsedCount {
      assert |Displayed(items, false)| < |Displayed(items, true)|;
    }
  }

  /** The button label: "Show Less" while the list is expanded, "Show More" otherwise. */
  function ToggleLabel(expanded: bool): (r: string)
    ensures r in {"Show Less", "Show More"}
    ensures r == "Show Less" <==> expanded
  {
    if expanded then "Show Less" else "Show More"
  }

  /** The tests button flips the tests flag only. */
  function ToggleTests(s: ShowState): (r: ShowState)
    ensures r.showAllTests != s.showAllTests
    ensures r.showAllSubjects == s.showAllSubjects
  {
    s.(showAllTests := !s.showAllTests)
  }

  /** The subjects button flips the subjects flag only. */
  function ToggleSubjects(s: ShowState): (r: ShowState)
    ensures r.showAllSubjects != s.showAllSubjects
    ensures r.showAllTests == s.showAllTests
  {
    s.(showAllSubjects := !s.showAllSubjects)
  }

  /** Pressing either button twice restores the state, and the two buttons commute. */
  lemma TogglesAreInvolutions(s: ShowState)
    ensures ToggleTests(ToggleTests(s)) == s
    ensures ToggleSubjects(ToggleSubjects(s)) == s
    ensures ToggleTests(ToggleSubjects(s)) == ToggleSubjects(ToggleTests(s))
  {
  }

  /** What the two lists display in a given state. */
  function DisplayedTests<T>(upcoming: seq<T>, s: ShowState): (r: seq<T>)
    ensures r <= upcoming
    ensures r == upcoming <==> s.showAllTests || |upcoming| <= CollapsedCount
    ensures !s.showAllTests ==> |r| == Min(CollapsedCount, |upcoming|)
  {
    Displayed(upcoming, s.showAllTests)
  }

  function DisplayedSubjects<T>(subjects: seq<T>, s: ShowState): (r: seq<T>)
    ensures r <= subjects
    ensures r == subjects <==> s.showAllSubjects || |subjects| <= CollapsedCount
    ensures !s.showAllSubjects ==> |r| == Min(CollapsedCount, |subjects|)
  {
    Displayed(subjects, s.showAllSubjects)
  }

  /** Pressing the tests button never changes what the subjects list shows, and vice versa. */
  lemma TogglesAreIndependent<T, U>(upcoming: seq<T>, subjects: seq<U>, s: ShowState)
    ensures DisplayedSubjects(subjects, ToggleTests(s)) == DisplayedSubjects(subjects, s)
    ensures DisplayedTests(upcoming, ToggleSubjects(s)) == DisplayedTests(upcoming, s)
  {
  }

  /** Initially both lists show at most five entries; the seven upcoming tests show five and offer the button. */
  lemma InitialViewIsCollapsed<T>(upcoming: seq<T>)
    requires |upcoming| == 7
    ensures DisplayedTests(upcoming, InitialShowState()) == upcoming[..5]
    ensures HasToggle(upcoming) && ToggleLabel(InitialShowState().showAllTests) == "Show More"
  {
  }
}
