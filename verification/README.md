# Student dashboard view rules in Dafny

This project models the interaction rules of a mock-data student dashboard
written in React. The dashboard has four main views plus a few sidebar cards:

- The **Tests** view filters practice problems by tab and colours them by difficulty and status.
- The **Courses** view filters enrolled courses by status.
- The **Dashboard** view shows the first five items of long lists, with a "Show More / Show Less" switch.
- The **Notes** view has a slide pager that stops at both ends and a rounded "% Complete" figure.
- An **article carousel** wraps around at both ends and auto-advances until the user navigates by hand.
- A **profile sidebar** has collapsible sections and builds an avatar from the user's initials.
- A **progress card** shows the rounded mean of the subject progress values.
- The **page** itself dispatches from the active navbar tab to the view it renders.

Each rule is a pure Dafny function over immutable data. Event-driven
components are state machines, with a `Step` function and a `Run` over a
sequence of events. The lemmas relate operations to their inverses,
invariants and reference definitions.

Modules:

- `Seqs`: generic filtering, prefixes and the subsequence order.
- `Text`: ASCII case mapping, capitalisation and first-occurrence replacement.
- `Rounding`: `Math.round(p / q)` on exact rationals.
- One module for each component: `TestsSection`, `CoursesSection`, `Dashboard`, `NotesSection`, `ArticleSlides`, `ProfileSidebar`, `ProgressOverview`, `DynamicNavbar` and `DashboardPage`.

Statuses and tab ids are kept as the strings the components compare against,
so that unknown values follow the same fall-through branches as in the code.
The Courses view keeps a course when the tab is `all` or equals the course's
status, so a tab no course has lists nothing. The Tests view uses a switch
with different rules:

- the `attempted` tab also keeps solved problems;
- the `bookmarks` tab keeps the `bookmarked` status;
- any tab id it does not know keeps every problem.

## Model

| member | source | states |
|---|---|---|
| Seqs.Filter | Frontend/src/components/TestsSection.tsx:92-98 | `Array.prototype.filter`: the result is an order-preserving subsequence, every kept element satisfies the predicate, and every element that satisfies it is kept |
| Seqs.FilterCounts | Frontend/src/components/TestsSection.tsx:92-98 | the filter keeps every copy: an element occurs in the result exactly as often as in the input when the predicate holds of it, and never otherwise |
| Seqs.Take | Frontend/src/components/Dashboard.tsx:226-227 | `slice(0, n)`: the result is a prefix of exactly min(n, length) elements |
| Text.Lower | Frontend/src/components/TestsSection.tsx:101 | `toLowerCase` on ASCII: same length, no upper-case letter left, other characters unchanged, letters shifted by 32 |
| Text.Capitalize | Frontend/src/components/CoursesSection.tsx:220 | `charAt(0).toUpperCase() + slice(1)`: only the first character changes, and it becomes its upper-case form |
| Text.ReplaceFirst | Frontend/src/components/NotesSection.tsx:312 | `String.replace` with a one-character string pattern: exactly the first occurrence is replaced |
| Text.ReplaceFirstChangesOnePosition | Frontend/src/components/NotesSection.tsx:312 | at most one position differs after the replacement |
| Rounding.RoundDiv | src/components/ProgressOverview.tsx:19 | `Math.round(p / q)` is the unique integer r with q(2r-1) <= 2p < q(2r+1) (halves round up) |
| Rounding.RoundDivMonotone | Frontend/src/components/NotesSection.tsx:150 | rounding a quotient preserves the order of numerators |
| TestsSection.FilteredTests | Frontend/src/components/TestsSection.tsx:92-98 | the tab's list is an ordered subsequence; a problem appears in it exactly as often as in the full list when the tab accepts its status, and not at all otherwise |
| TestsSection.AllAndUnknownTabsKeepEverything | Frontend/src/components/TestsSection.tsx:92-98 | the `all` tab and every tab id outside the four known ones return the whole list unchanged |
| TestsSection.SolvedWithinAttempted | Frontend/src/components/TestsSection.tsx:94-95 | `attempted` keeps exactly the attempted and solved problems, and the solved list is a subsequence of it |
| TestsSection.BookmarksAreBookmarked | Frontend/src/components/TestsSection.tsx:96 | the `bookmarks` tab keeps exactly the problems whose status is `bookmarked` |
| TestsSection.NotAttemptedOnlyUnderAll | Frontend/src/components/TestsSection.tsx:92-98 | a not-attempted problem shows under a tab iff that tab is `all` or unknown |
| TestsSection.DifficultyColor | Frontend/src/components/TestsSection.tsx:100-107 | the lower-cased difficulty "easy", "medium" or "hard" gets the success, warning or error tone respectively, and only that spelling gets that tone; every other difficulty gets the neutral style |
| TestsSection.DifficultyColorIgnoresCase | Frontend/src/components/TestsSection.tsx:101 | the colour depends only on the lower-cased difficulty |
| TestsSection.DifficultyColorEasy | Frontend/src/components/TestsSection.tsx:102 | "Easy" and "easy" are both green |
| TestsSection.DifficultyColorMedium | Frontend/src/components/TestsSection.tsx:103 | "Medium" and "medium" are both amber |
| TestsSection.DifficultyColorHard | Frontend/src/components/TestsSection.tsx:104 | "Hard" and "HARD" are both red |
| TestsSection.StatusColor | Frontend/src/components/TestsSection.tsx:109-116 | solved, attempted and bookmarked each map to their own colour and to nothing else; every other status is neutral |
| TestsSection.StatusLabel | Frontend/src/components/TestsSection.tsx:323 | `not-attempted` is shown as "New"; any other status is shown as it is |
| TestsSection.ActionLabel | Frontend/src/components/TestsSection.tsx:335 | the button says "Review" exactly for solved problems and "Start" otherwise |
| TestsSection.NotAttemptedRow | Frontend/src/components/TestsSection.tsx:109-116 | a new problem reads "New", has the neutral badge and offers "Start" |
| TestsSection.ShownCompanies | Frontend/src/components/TestsSection.tsx:314 | exactly the first min(2, n) companies are listed |
| CoursesSection.FilteredCourses | Frontend/src/components/CoursesSection.tsx:83-86 | the tab's list is an ordered subsequence; a course appears in it exactly as often as in the catalogue when the tab is `all` or equals its status, and not at all otherwise |
| CoursesSection.AllTabKeepsEverything | Frontend/src/components/CoursesSection.tsx:84 | the `all` tab returns the whole list unchanged |
| CoursesSection.StatusTabKeepsThatStatus | Frontend/src/components/CoursesSection.tsx:85 | any other tab keeps exactly the courses whose status equals it, and is empty when none does |
| CoursesSection.StatusTabsPartition | Frontend/src/components/CoursesSection.tsx:83-86 | with catalogue statuses only, the running, completed and wishlist tabs together hold every course exactly once |
| CoursesSection.ActionLabel | Frontend/src/components/CoursesSection.tsx:201-202 | "Review" exactly for completed, "Continue" exactly for running, "Start" otherwise |
| CoursesSection.StatusBadge | Frontend/src/components/CoursesSection.tsx:209-216 | the completed and running styles are used exactly for those statuses; every other status gets the outline style |
| CoursesSection.BadgeText | Frontend/src/components/CoursesSection.tsx:220 | the status with its first letter upper-cased and the rest unchanged |
| CoursesSection.BadgeTextExamples | Frontend/src/components/CoursesSection.tsx:220 | "running", "completed" and "wishlist" read "Running", "Completed" and "Wishlist" |
| CoursesSection.ShowsProgressBar | Frontend/src/components/CoursesSection.tsx:248 | the progress bar is shown exactly for running courses, which are the ones offering "Continue" |
| CoursesSection.ShownTags | Frontend/src/components/CoursesSection.tsx:260 | exactly the first min(3, n) tags are shown |
| Dashboard.InitialShowState | Frontend/src/components/Dashboard.tsx:171-172 | both lists start collapsed |
| Dashboard.Displayed | Frontend/src/components/Dashboard.tsx:226-227 | a displayed list is always a prefix of the full list: all of it when expanded, otherwise its first min(5, n) items |
| Dashboard.HasToggle | Frontend/src/components/Dashboard.tsx:375 | the switch is rendered exactly for lists longer than five |
| Dashboard.ToggleShownIffViewsDiffer | Frontend/src/components/Dashboard.tsx:414 | the switch is rendered iff the collapsed and expanded views differ, so it never does nothing |
| Dashboard.ToggleLabel | Frontend/src/components/Dashboard.tsx:421 | the label is "Show Less" exactly when the list is expanded |
| Dashboard.ToggleTests | Frontend/src/components/Dashboard.tsx:418 | the tests switch flips its own flag and leaves the subjects flag alone |
| Dashboard.ToggleSubjects | Frontend/src/components/Dashboard.tsx:379 | the subjects switch flips its own flag and leaves the tests flag alone |
| Dashboard.TogglesAreInvolutions | Frontend/src/components/Dashboard.tsx:379 | pressing a switch twice restores the state, and the two switches commute |
| Dashboard.DisplayedTests | Frontend/src/components/Dashboard.tsx:226 | the shown tests are a prefix: the whole list iff expanded or at most five long, and exactly min(5, n) entries while collapsed |
| Dashboard.DisplayedSubjects | Frontend/src/components/Dashboard.tsx:227 | the shown subjects are a prefix: the whole list iff expanded or at most five long, and exactly min(5, n) entries while collapsed |
| Dashboard.TogglesAreIndependent | Frontend/src/components/Dashboard.tsx:171-172 | each switch leaves the other list's view unchanged |
| Dashboard.InitialViewIsCollapsed | Frontend/src/components/Dashboard.tsx:173-181 | with the seven upcoming tests, the first five are shown at first and a "Show More" switch is offered |
| NotesSection.InitialNotesState | Frontend/src/components/NotesSection.tsx:22-24 | the view opens on the slides panel at slide 0 with auto-play off |
| NotesSection.PrevSlide | Frontend/src/components/NotesSection.tsx:186 | one step back, clamped at 0 |
| NotesSection.NextSlide | Frontend/src/components/NotesSection.tsx:195 | one step forward, clamped at the last slide |
| NotesSection.PrevDisabled | Frontend/src/components/NotesSection.tsx:187 | the previous button is disabled on slide 0 only |
| NotesSection.NextDisabled | Frontend/src/components/NotesSection.tsx:196 | the next button is disabled on the last slide only |
| NotesSection.DisabledExactlyWhereStepIsIdentity | Frontend/src/components/NotesSection.tsx:186-196 | on an in-range slide, each button is disabled exactly where its clamped step would leave the slide unchanged |
| NotesSection.StepsUndoEachOther | Frontend/src/components/NotesSection.tsx:186-195 | away from the ends, previous and next are inverse |
| NotesSection.SlideNumber | Frontend/src/components/NotesSection.tsx:147 | the counter shows the one-based slide number, between 1 and the total |
| NotesSection.Percent | Frontend/src/components/NotesSection.tsx:150 | the percentage lies in [0, 100], is 100 on the last slide, and is the nearest integer to 100(i+1)/total |
| NotesSection.PercentMonotone | Frontend/src/components/NotesSection.tsx:150 | the percentage never decreases as the slide advances |
| NotesSection.PercentOfTwentyFourSlides | Frontend/src/components/NotesSection.tsx:150 | for the 24-slide note the first slide reads 4%, the twelfth 50% and the last 100% |
| NotesSection.Step | Frontend/src/components/NotesSection.tsx:186-207 | pager presses move only the slide, and a disabled button does nothing; the auto-play button flips only its flag; the view switch sets only the view |
| NotesSection.Run | Frontend/src/components/NotesSection.tsx:186-207 | a sequence of user events applied in order; its properties are stated by RunStaysInRange and ViewChangesOnlyByChoice |
| NotesSection.RunStaysInRange | Frontend/src/components/NotesSection.tsx:186-196 | from an in-range slide, any sequence of events keeps the slide in range |
| NotesSection.ReachableSlidesInRange | Frontend/src/components/NotesSection.tsx:23 | every state reachable from the initial one has its slide in [0, total-1] |
| NotesSection.ViewChangesOnlyByChoice | Frontend/src/components/NotesSection.tsx:112 | events other than the view switch never change the view |
| NotesSection.ShowsSlidesPanel | Frontend/src/components/NotesSection.tsx:133 | the slides panel is rendered exactly in slides mode, which is the initial mode |
| NotesSection.StatusLabel | Frontend/src/components/NotesSection.tsx:312 | the badge text is the status with its first hyphen turned into a space |
| NotesSection.StatusLabelInProgress | Frontend/src/components/NotesSection.tsx:312 | "in-progress" reads "in progress" |
| NotesSection.StatusLabelFirstHyphenOnly | Frontend/src/components/NotesSection.tsx:312 | a second hyphen is left as it is |
| NotesSection.StatusColor | Frontend/src/components/NotesSection.tsx:305-309 | one of three badge tones: success exactly for completed, warning exactly for updated, primary otherwise |
| ArticleSlides.JsRem | src/components/ArticleSlides.tsx:80 | JavaScript's `%` for a positive divisor: the result differs from the dividend by a multiple of the divisor, lies in [0, n) for a non-negative dividend and in (-n, 0] for a negative one, which together fix its value |
| ArticleSlides.Advance | src/components/ArticleSlides.tsx:80 | on an in-range slide the next index wraps from the last slide to 0 and otherwise adds one |
| ArticleSlides.Retreat | src/components/ArticleSlides.tsx:85 | on an in-range slide the previous index wraps from 0 to the last slide and otherwise subtracts one |
| ArticleSlides.AdvanceRetreatInverse | src/components/ArticleSlides.tsx:79-87 | next and previous are inverse on in-range slides |
| ArticleSlides.InitialCarousel | src/components/ArticleSlides.tsx:16-17 | the carousel opens on slide 0 with auto-play on |
| ArticleSlides.NextSlide | src/components/ArticleSlides.tsx:79-82 | the next button advances with wrap-around and turns auto-play off |
| ArticleSlides.PrevSlide | src/components/ArticleSlides.tsx:84-87 | the previous button steps back with wrap-around and turns auto-play off |
| ArticleSlides.SlideClick | src/components/ArticleSlides.tsx:72-77 | a click jumps to the clicked index and turns auto-play off |
| ArticleSlides.Tick | src/components/ArticleSlides.tsx:63-70 | a timer firing advances the slide only while auto-play is on, and never changes the flag |
| ArticleSlides.ActiveDots | src/components/ArticleSlides.tsx:154-163 | one dot per article, and exactly the current slide's dot is highlighted |
| ArticleSlides.FullCycleReturns | src/components/ArticleSlides.tsx:79-82 | advancing as many times as there are slides returns to the same slide |
| ArticleSlides.Step | src/components/ArticleSlides.tsx:63-87 | after any event auto-play is on iff the event is a timer firing and auto-play was on; a valid slide stays valid under any event a rendered control can send |
| ArticleSlides.Run | src/components/ArticleSlides.tsx:63-87 | after a sequence of events auto-play is on iff it was on and every event was a timer firing |
| ArticleSlides.RunStaysValid | src/components/ArticleSlides.tsx:72-87 | any sequence of button, dot and timer events keeps the slide in range |
| ArticleSlides.AutoPlayStaysOff | src/components/ArticleSlides.tsx:72-87 | no event turns auto-play back on once it is off |
| ArticleSlides.TicksAdvance | src/components/ArticleSlides.tsx:63-70 | k timer firings advance the slide k times and keep auto-play on |
| ArticleSlides.NextPressesAdvance | src/components/ArticleSlides.tsx:79-82 | k >= 1 presses of next advance the slide k times and leave auto-play off |
| ArticleSlides.FullAutoPlayCycle | src/components/ArticleSlides.tsx:63-70 | from the initial state, one full round of ticks returns to the initial state |
| ArticleSlides.FiveTicksReturnToFirstArticle | src/components/ArticleSlides.tsx:19-70 | with the five articles, five ticks show the first article again |
| ProfileSidebar.InitialExpanded | src/components/ProfileSidebar.tsx:33 | of the three sections only subjects starts expanded, the list names no other section, and it has no duplicate entry |
| ProfileSidebar.IsExpanded | src/components/ProfileSidebar.tsx:177 | `expandedSections.includes(section)`: a section is shown open exactly when its name is in the list |
| ProfileSidebar.ToggleSection | src/components/ProfileSidebar.tsx:35-41 | the toggled section's membership flips and no other section's changes; removal keeps the others' order, and addition appends at the end |
| ProfileSidebar.ToggleKeepsNoDuplicates | src/components/ProfileSidebar.tsx:37-39 | toggling keeps the expanded list free of duplicates |
| ProfileSidebar.ToggleTwice | src/components/ProfileSidebar.tsx:35-41 | toggling twice restores the set of expanded sections, and the exact list when the section started collapsed |
| ProfileSidebar.ToggleTwiceMayReorder | src/components/ProfileSidebar.tsx:38-39 | collapsing and re-expanding a section moves it to the end of the list |
| ProfileSidebar.SectionChevron | src/components/ProfileSidebar.tsx:170-173 | the chevron points down exactly when the section is expanded |
| ProfileSidebar.Split | src/components/ProfileSidebar.tsx:120 | `split(' ')` yields at least one piece, and no piece contains a space |
| ProfileSidebar.SplitPieceCount | src/components/ProfileSidebar.tsx:120 | a string with k spaces splits into k+1 pieces |
| ProfileSidebar.JoinSplit | src/components/ProfileSidebar.tsx:120 | joining the pieces with single spaces gives the string back |
| ProfileSidebar.SplitJoin | src/components/ProfileSidebar.tsx:120 | splitting space-free words joined by single spaces gives the words back |
| ProfileSidebar.Firsts | src/components/ProfileSidebar.tsx:120 | `map(n => n[0]).join('')`: exactly the first characters of the non-empty pieces, in order, because an empty piece's `undefined` joins as "" |
| ProfileSidebar.FirstsSkipsEmpty | src/components/ProfileSidebar.tsx:120 | empty pieces contribute nothing: the result equals that of the non-empty pieces alone |
| ProfileSidebar.Initials | src/components/ProfileSidebar.tsx:120 | for every name, the initials are exactly the first characters of the non-empty pieces of `split(' ')`, in order; they contain no space |
| ProfileSidebar.InitialsOfWords | src/components/ProfileSidebar.tsx:120 | for non-empty words joined by single spaces, the initials are the words' first letters in order |
| ProfileSidebar.InitialsExample | src/components/ProfileSidebar.tsx:120 | "Alex Johnson" gives "AJ" |
| ProfileSidebar.InitialsIgnoreExtraSpaces | src/components/ProfileSidebar.tsx:120 | for any space-free pieces, a name with leading, trailing or doubled spaces (empty pieces) has the same initials as its non-empty words joined by single spaces |
| ProgressOverview.OverallProgress | src/components/ProgressOverview.tsx:19 | the overall figure lies between the smallest and the largest progress value and is the nearest integer to the mean |
| ProgressOverview.Sum | src/components/ProgressOverview.tsx:19 | the `reduce` that adds up the progress values; its properties are stated by SumPermutation and OverallProgress |
| ProgressOverview.OverallProgressIsPercentage | src/components/ProgressOverview.tsx:19 | with every subject in [0, 100], the overall figure is in [0, 100] |
| ProgressOverview.SumPermutation | src/components/ProgressOverview.tsx:19 | the reduced sum depends only on the multiset of subjects |
| ProgressOverview.OverallProgressIgnoresOrder | src/components/ProgressOverview.tsx:19 | reordering the subjects does not change the overall figure |
| ProgressOverview.OverallProgressOfCardData | src/components/ProgressOverview.tsx:6-19 | the card's ten subjects give 68 |
| ProgressOverview.SubjectTone | src/components/ProgressOverview.tsx:84-99 | the subject's text and bar use the complete colour exactly when it is flagged completed |
| ProgressOverview.ToneIgnoresProgress | src/components/ProgressOverview.tsx:84-99 | the colour does not depend on progress: a 100% subject not flagged completed is still shown as incomplete |
| DynamicNavbar.TabIdsDistinct | Frontend/src/components/DynamicNavbar.tsx:14-19 | the four tab ids are pairwise distinct |
| DynamicNavbar.IsActive | Frontend/src/components/DynamicNavbar.tsx:31 | a tab is active exactly when its id equals the page's active tab; the consequences are stated by ActiveTabs and ShowsIndicator |
| DynamicNavbar.ActiveTabs | Frontend/src/components/DynamicNavbar.tsx:30-31 | at most one tab is highlighted, and exactly one iff the active tab is one of the four ids |
| DynamicNavbar.TabClick | Frontend/src/components/DynamicNavbar.tsx:35 | clicking a tab reports its id, which no other tab has |
| DynamicNavbar.ShowsIndicator | Frontend/src/components/DynamicNavbar.tsx:44 | the sliding highlight is drawn in a tab iff it is active, and then in no other tab |
| DashboardPage.InitialPage | Frontend/src/pages/DashboardPage.tsx:11-12 | the page opens on the dashboard tab with the profile popup closed |
| DashboardPage.ViewId | Frontend/src/pages/DashboardPage.tsx:15-23 | each view's tab id is one of the navbar's ids |
| DashboardPage.RenderContent | Frontend/src/pages/DashboardPage.tsx:14-27 | each of the four ids renders its own view; any other value falls back to the dashboard |
| DashboardPage.RenderContentInvertsViewId | Frontend/src/pages/DashboardPage.tsx:15-23 | rendering a view's tab id gives that view back |
| DashboardPage.Step | Frontend/src/pages/DashboardPage.tsx:31-54 | a tab change sets only the active tab; the profile click opens the popup and close closes it, leaving the tab alone |
| DashboardPage.StepsAreIdempotent | Frontend/src/pages/DashboardPage.tsx:33-34 | repeating any page event has the same effect as doing it once |
| DashboardPage.ClickingTabShowsItsView | Frontend/src/pages/DashboardPage.tsx:31-35 | clicking a navbar tab makes exactly that tab highlighted, renders its view and leaves the popup alone |
| DashboardPage.InitialPageShowsDashboard | Frontend/src/pages/DashboardPage.tsx:11-25 | on the initial page only the dashboard tab is highlighted and the dashboard is rendered |

## Left out

- Rendering, animation (framer-motion), icons, styles and layout: only the values that decide what is rendered are modelled. Colour classes are enumerations.
- The search boxes and the `sortBy`, `filterBy`, `filterDifficulty` and `filterTopic` selectors of the Courses and Tests views: their state is held but never applied to the lists, so they have no effect to model.
- The SVG ring and `Progress` widths (NotesSection.tsx:154, TestsSection.tsx:175, ProgressOverview.tsx:54-55) use floating-point values only for drawing.
- The Tests view's solved percentage (TestsSection.tsx:181) is computed from the fixed mock counts 145 and 500. It rounds the double `(145/500)*100`, and for those counts this gives 29, the same as `Rounding.RoundDiv`.
- `toLocaleString`, the `console.log` in the carousel's slide click, router links and placeholder image URLs are outside the model.
- The static mock data is outside the model, except for the figures used in the example lemmas: 24 slides, 5 articles, 7 upcoming tests, the ten card subjects, and "Alex Johnson".
- Files that only render static data are not part of this model: Homepage, ProfilePopup, the AI tutor cards, SidePanel and the chart helpers.
- The carousel's `setInterval` is a discrete `TimerTick` event. Its 5-second period and the clearing of the timer when auto-play stops are not modelled; ticks with auto-play off simply do nothing.
- NotesSection.Step: accepts previous and next presses in reader mode, although the pager buttons are rendered only in slides mode (NotesSection.tsx:133). A press there moves the slide exactly as in slides mode, so the reachable slides and the range properties are unchanged.
- The Notes view's auto-play button only flips a flag that drives the play/pause icon. The view starts no timer, so none is modelled.
- The slide total and the article count are parameters of the pager and carousel functions; the component values are the constants `NoteSlides` (24) and `ArticleCount` (5).
- Text.Lower: maps only the ASCII letters A-Z; JavaScript's `toLowerCase` also maps other Unicode letters.
- Text.Capitalize: upper-cases only the ASCII letters a-z, for the same reason.
- CoursesSection.BadgeText: inherits the ASCII-only upper-casing of `Text.Capitalize`. It also works on Unicode scalar values, while `charAt(0)` takes one UTF-16 code unit, so a status starting with a character outside the Basic Multilingual Plane would be split by the source and kept whole by the model.
- ProfileSidebar.Firsts: takes the first Unicode scalar value of each piece, while `n[0]` takes the first UTF-16 code unit. For a word that starts with a character outside the Basic Multilingual Plane the source yields a lone surrogate and the model the whole character. `ProfileSidebar.Initials` inherits this.
- Rounding.RoundDiv: computes `Math.round` on the exact quotient, while the source first divides in double precision. The two agree on the progress card's mean (679 / 10) and on every slide of the notes' 24-, 18- and 15-slide totals. They do not agree in general, as the next line shows.
- NotesSection.Percent: rounds the exact value 100(i+1)/total, while the source rounds the double `((i+1)/total)*100`. For other totals the double can fall just below a half and round down. With total 40 and slide index 22 the source shows 57 and the model 58; with total 200 and index 28 the source shows 14 and the model 15. The same happens with 80 and 45, 120 and 68, and 160 and 91.
- NotesSection.Percent: also requires an in-range slide and a positive total; the source would show `NaN` or `Infinity` for an empty note, which never occurs in its data.
- ProgressOverview.OverallProgress: requires a non-empty subject list; the source divides by the length unguarded and would show `NaN` for an empty list.
- ArticleSlides.RunStaysValid: assumes dot clicks carry an index in range, as the rendered dots do; `handleSlideClick` itself does not check the index.
