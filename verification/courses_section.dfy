/**
 * The Courses view: the status-tab projection of the course catalogue and the
 * per-card rules (action button, status badge, progress bar, tag list).
 */
module CoursesSection {
  import opened Seqs
  import opened Text

  datatype Course = Course(id: int, status: string, progress: int, tags: seq<string>)

  /** The three statuses the catalogue uses, each with a tab of its own. */
  predicate IsCatalogStatus(status: string) {
    status == "running" || status == "completed" || status == "wishlist"
  }

  /** Whether a course with `status` is listed under `tab`. */
  predicate TabKeeps(tab: string, status: string) {
    if tab == "all" then true else status == tab
  }

  /** The courses listed under `tab`, in their original order. */
  function FilteredCourses(courses: seq<Course>, tab: string): (r: seq<Course>)
    ensures IsSubseq(r, courses) && |r| <= |courses|
    ensures forall i :: 0 <= i < |r| ==> r[i] in courses && TabKeeps(tab, r[i].status)
    ensures forall i :: 0 <= i < |courses| && TabKeeps(tab, courses[i].status) ==> courses[i] in r
    ensures forall c :: multiset(r)[c] == if TabKeeps(tab, c.status) then multiset(courses)[c] else 0
  {
    FilterCounts(courses, (c: Course) => TabKeeps(tab, c.status));
    Filter(courses, (c: Course) => TabKeeps(tab, c.status))
  }

  /** The "all" tab lists every course, in order. */
  lemma {:induction false} AllTabKeepsEverything(courses: seq<Course>)
    ensures FilteredCourses(courses, "all") == courses
  {
    FilterKeepsAll(courses, (c: Course) => TabKeeps("all", c.status));
  }

  /**
   * Any other tab lists exactly the courses whose status equals the tab, so a
   * tab no course has as its status lists nothing (unlike the Tests view,
   * where an unrecognised tab lists everything).
   */
  lemma StatusTabKeepsThatStatus(courses: seq<Course>, tab: string)
    requires tab != "all"
    ensures forall c :: c in FilteredCourses(courses, tab) <==> c in courses && c.status == tab
    ensures (forall i :: 0 <= i < |courses| ==> courses[i].status != tab) ==> FilteredCourses(courses, tab) == []
  {
    var r := FilteredCourses(courses, tab);
    if |r| > 0 {
      assert r[0] in courses;
    }
  }

  /**
   * When every course has one of the three catalogue statuses, the three
   * status tabs split the full list: together they hold each course exactly
   * as often as the catalogue does.
   */
  lemma {:induction false} StatusTabsPartition(courses: seq<Course>)
    requires forall i :: 0 <= i < |courses| ==> IsCatalogStatus(courses[i].status)
    ensures multiset(FilteredCourses(courses, "running"))
          + multiset(FilteredCourses(courses, "completed"))
          + multiset(FilteredCourses(courses, "wishlist"))
         == multiset(FilteredCourses(courses, "all"))
  {
    AllTabKeepsEverything(courses);
    if |courses| > 0 {
      var rest := courses[1..];
      StatusTabsPartition(rest);
      AllTabKeepsEverything(rest);
      assert courses == [courses[0]] + rest;
      assert multiset(courses) == multiset{courses[0]} + multiset(rest);
    }
  }

  /** The card's play button: "Review" when completed, "Continue" when running, "Start" otherwise. */
  function ActionLabel(status: string): (r: string)
    ensures r in {"Review", "Continue", "Start"}
    ensures r == "Review" <==> status == "completed"
    ensures r == "Continue" <==> status == "running"
  {
    if status == "completed" then "Review"
    else if status == "running" then "Continue"
    else "Start"
  }

  /** The badge's variant and class, chosen from the status. */
  datatype BadgeStyle =
    | CompletedBadge   // variant "default", bg-success text-white, with a check icon
    | RunningBadge     // variant "secondary", bg-warning text-white, with a play icon
    | OtherBadge       // variant "outline", bg-surface/80, no icon

  function StatusBadge(status: string): (r: BadgeStyle)
    ensures r.CompletedBadge? <==> status == "completed"
    ensures r.RunningBadge? <==> status == "running"
  {
    if status == "completed" then CompletedBadge
    else if status == "running" then RunningBadge
    else OtherBadge
  }

  /** The badge text: the status with its first character upper-cased and the rest as is. */
  function BadgeText(status: string): (r: string)
    ensures |r| == |status|
    ensures |status| > 0 ==> r[0] == UpperChar(status[0]) && r[1..] == status[1..]
    ensures |status| > 0 && IsLower(status[0]) ==> IsUpper(r[0]) && Lower([r[0]]) == [status[0]]
  {
    Capitalize(status)
  }

  /** The catalogue statuses read "Running", "Completed" and "Wishlist" on their badges. */
  lemma BadgeTextExamples()
    ensures BadgeText("running") == "Running"
    ensures BadgeText("completed") == "Completed"
    ensures BadgeText("wishlist") == "Wishlist"
  {
  }

  /** The progress bar and percentage are rendered for running courses only. */
  function ShowsProgressBar(c: Course): (r: bool)
    ensures r <==> c.status == "running"
    ensures r ==> ActionLabel(c.status) == "Continue"
  {
    c.status == "running"
  }

  /** The tags shown on a card: at most the first three. */
  function ShownTags(c: Course): (r: seq<string>)
    ensures |r| == Min(3, |c.tags|) && r <= c.tags
    ensures |c.tags| <= 3 ==> r == c.tags
  {
    Take(c.tags, 3)
  }
}
