/**
 * The Tests view: a tab-driven projection of the question list and the
 * label and colour rules applied to each row. Only the fields the rules read
 * are kept in the record.
 */
module TestsSection {
  import opened Seqs
  import opened Text
  import opened Palette

  datatype Test = Test(id: int, difficulty: string, askedIn: seq<string>, status: string)

  /** Whether a test with `status` is listed under `tab`; the tab value is unconstrained. */
  predicate TabKeeps(tab: string, status: string) {
    if tab == "all" then true
    else if tab == "attempted" then status == "attempted" || status == "solved"
    else if tab == "solved" then status == "solved"
    else if tab == "bookmarks" then status == "bookmarked"
    else true
  }

  /** The tests listed under `tab`, in their original order. */
  function FilteredTests(tests: seq<Test>, tab: string): (r: seq<Test>)
    ensures IsSubseq(r, tests) && |r| <= |tests|
    ensures forall i :: 0 <= i < |r| ==> r[i] in tests && TabKeeps(tab, r[i].status)
    ensures forall i :: 0 <= i < |tests| && TabKeeps(tab, tests[i].status) ==> tests[i] in r
    ensures forall t :: multiset(r)[t] == if TabKeeps(tab, t.status) then multiset(tests)[t] else 0
  {
    FilterCounts(tests, (t: Test) => TabKeeps(tab, t.status));
    Filter(tests, (t: Test) => TabKeeps(tab, t.status))
  }

  predicate IsKnownTab(tab: string) {
    tab in ["all", "attempted", "solved", "bookmarks"]
  }

  /** The "all" tab and every unrecognised tab list every test, in order. */
  lemma {:induction false} AllAndUnknownTabsKeepEverything(tests: seq<Test>, tab: string)
    requires tab == "all" || !IsKnownTab(tab)
    ensures FilteredTests(tests, tab) == tests
  {
    FilterKeepsAll(tests, (t: Test) => TabKeeps(tab, t.status));
  }

  /** "attempted" lists exactly the attempted and solved tests, and "solved" lists a subsequence of it. */
  lemma {:induction false} SolvedWithinAttempted(tests: seq<Test>)
    ensures forall t :: t in FilteredTests(tests, "attempted") <==> t in tests && t.status in {"attempted", "solved"}
    ensures IsSubseq(FilteredTests(tests, "solved"), FilteredTests(tests, "attempted"))
  {
    FilterStrengthen(tests, (t: Test) => TabKeeps("solved", t.status), (t: Test) => TabKeeps("attempted", t.status));
  }

  /** "bookmarks" lists exactly the bookmarked tests. */
  lemma BookmarksAreBookmarked(tests: seq<Test>)
    ensures forall t :: t in FilteredTests(tests, "bookmarks") <==> t in tests && t.status == "bookmarked"
  {
  }

  /** A not-attempted test is listed only under "all" or an unrecognised tab. */
  lemma NotAttemptedOnlyUnderAll(tests: seq<Test>, tab: string, t: Test)
    requires t in tests && t.status == "not-attempted"
    ensures t in FilteredTests(tests, tab) <==> tab == "all" || !IsKnownTab(tab)
  {
  }

  /** `getDifficultyColor`: the lower-cased difficulty selects the tone. */
  function DifficultyColor(difficulty: string): (r: Tone)
    ensures r != PrimaryTone
    ensures r == SuccessTone <==> Lower(difficulty) == "easy"
    ensures r == WarningTone <==> Lower(difficulty) == "medium"
    ensures r == ErrorTone <==> Lower(difficulty) == "hard"
    ensures r == NeutralTone <==> Lower(difficulty) !in {"easy", "medium", "hard"}
  {
    match Lower(difficulty)
    case "easy" => SuccessTone
    case "medium" => WarningTone
    case "hard" => ErrorTone
    case _ => NeutralTone
  }

  /** The difficulty colour ignores letter case: a difficulty and its lower-case form get the same tone. */
  lemma {:induction false} DifficultyColorIgnoresCase(difficulty: string)
    ensures DifficultyColor(difficulty) == DifficultyColor(Lower(difficulty))
  {
    LowerIdempotent(difficulty);
  }

  /** The mock data's capitalised difficulties map like their lower-case spellings, to three distinct tones. */
  lemma DifficultyColorEasy()
    ensures DifficultyColor("Easy") == DifficultyColor("easy") == SuccessTone
  {
    assert Lower("Easy") == "easy";
    assert Lower("easy") == "easy";
  }

  lemma DifficultyColorMedium()
    ensures DifficultyColor("Medium") == DifficultyColor("medium") == WarningTone
  {
    assert Lower("Medium") == "medium";
    assert Lower("medium") == "medium";
  }

  lemma DifficultyColorHard()
    ensures DifficultyColor("Hard") == DifficultyColor("HARD") == ErrorTone
  {
    assert Lower("Hard") == "hard";
    assert Lower("HARD") == "hard";
  }

  /** `getStatusColor`: an exact, case-sensitive match on the raw status. */
  function StatusColor(status: string): (r: Tone)
    ensures r != ErrorTone
    ensures r == SuccessTone <==> status == "solved"
    ensures r == WarningTone <==> status == "attempted"
    ensures r == PrimaryTone <==> status == "bookmarked"
  {
    match status
    case "solved" => SuccessTone
    case "attempted" => WarningTone
    case "bookmarked" => PrimaryTone
    case _ => NeutralTone
  }

  /** The status badge text: "New" for a not-attempted test, the raw status otherwise. */
  function StatusLabel(status: string): (r: string)
    ensures status == "not-attempted" ==> r == "New"
    ensures status != "not-attempted" ==> r == status
  {
    if status == "not-attempted" then "New" else status
  }

  /** The row's action button: "Review" for a solved test, "Start" for any other. */
  function ActionLabel(status: string): (r: string)
    ensures r in {"Review", "Start"}
    ensures r == "Review" <==> status == "solved"
  {
    if status == "solved" then "Review" else "Start"
  }

  /** A not-attempted test is badged "New" with the neutral tone and offered "Start". */
  lemma NotAttemptedRow()
    ensures StatusLabel("not-attempted") == "New"
    ensures StatusColor("not-attempted") == NeutralTone
    ensures ActionLabel("not-attempted") == "Start"
  {
  }

  /** The companies shown in the "Asked In" cell: at most the first two. */
  function ShownCompanies(t: Test): (r: seq<string>)
    ensures |r| == Min(2, |t.askedIn|) && r <= t.askedIn
    ensures |t.askedIn| <= 2 ==> r == t.askedIn
  {
    Take(t.askedIn, 2)
  }
}
