/**
 * The dashboard of components/DashboardSection.tsx: its three status tests,
 * which projects and tasks it counts, the key figures and the two "recent"
 * lists. The status tests are case-insensitive regular expressions without
 * anchors, so each is a substring test on the lower-cased, trimmed status.
 * Reading a time stamp is the parameter `timeOf`.
 */
module Dashboard {
  import opened Common
  import Text
  import TaskFeed
  import ProjectFeed
  import Visibility
  import TaskSummary

  type Task = TaskFeed.Task
  type Project = ProjectFeed.Project

  const RecentTaskCount := 10
  const RecentProjectCount := 5

  // ---------------------------------------------------------------------------
  // Status tests

  /** One of `words` occurs somewhere in `s`. */
  predicate ContainsAny(s: string, words: seq<string>) {
    exists i :: 0 <= i < |words| && Text.Contains(s, words[i])
  }

  /** The status as the regular expressions see it. */
  function Subject(status: string): string {
    Text.Lower(Text.Trim(status))
  }

  const DoneWords: seq<string> := ["tamamlandı", "tamamlandi", "done", "completed"]
  const ProgressWords: seq<string> := ["devam", "sürüyor", "in progress", "progress"]
  const TodoWords: seq<string> := ["yapılacak", "yapilacak", "todo"]

  /** `isStatusDone` */
  predicate IsDone(status: string) {
    ContainsAny(Subject(status), DoneWords)
  }

  /** `isStatusInProgress` */
  predicate IsInProgress(status: string) {
    ContainsAny(Subject(status), ProgressWords)
  }

  /** `isStatusTodo`: a to-do word, or any other status that is not blank. */
  predicate IsTodo(status: string) {
    ContainsAny(Subject(status), TodoWords) || (!IsDone(status) && !IsInProgress(status) && Text.Trim(status) != "")
  }

  /** Every word of the three lists has at least one character. */
  lemma WordsNotEmpty()
    ensures forall i :: 0 <= i < |DoneWords| ==> |DoneWords[i]| > 0
    ensures forall i :: 0 <= i < |ProgressWords| ==> |ProgressWords[i]| > 0
    ensures forall i :: 0 <= i < |TodoWords| ==> |TodoWords[i]| > 0
  {
  }

  /** A blank status is in no bucket; any other status is in at least one. */
  lemma BucketsCoverNonBlank(status: string)
    ensures Text.Trim(status) == "" ==> !IsDone(status) && !IsInProgress(status) && !IsTodo(status)
    ensures Text.Trim(status) != "" ==> IsDone(status) || IsInProgress(status) || IsTodo(status)
  {
    WordsNotEmpty();
  }

  /** A status holding "in progress" is caught by the shorter "progress"
      alternative as well, so the longer one never decides anything. */
  lemma ProgressSubsumesInProgress(s: string)
    requires Text.Contains(s, "in progress")
    ensures Text.Contains(s, "progress")
  {
    var i :| 0 <= i <= |s| - |"in progress"| && Text.OccursAt(s, "in progress", i);
    assert s[i + 3..i + 11] == s[i..i + 11][3..];
    assert Text.OccursAt(s, "progress", i + 3);
  }

  // ---------------------------------------------------------------------------
  // What the dashboard counts

  /** The dashboard lower-cases the address but does not trim it; the
      visibility test trims it again. */
  function DashboardViewer(isAdmin: bool, email: string): Visibility.Viewer {
    Visibility.Viewer(isAdmin, Text.Lower(email))
  }

  function ViewableBy(v: Visibility.Viewer): Project -> bool {
    (p: Project) => Visibility.CanView(p, v)
  }

  function ShownWith(ids: set<string>): Task -> bool {
    (t: Task) => Visibility.DashboardShows(t, ids)
  }

  /** `visibleProjects` */
  function VisibleProjects(projects: seq<Project>, v: Visibility.Viewer): (r: seq<Project>)
    ensures IsSubsequence(r, projects)
    ensures forall p :: p in r <==> p in projects && Visibility.CanView(p, v)
  {
    FilterIsSubsequence(projects, ViewableBy(v));
    forall p ensures p in Filter(projects, ViewableBy(v)) <==> p in projects && Visibility.CanView(p, v) {
      FilterMembers(projects, ViewableBy(v), p);
    }
    Filter(projects, ViewableBy(v))
  }

  /** `visibleTasks`: tasks without a project id, with an empty one, or of a
      visible project. */
  function VisibleTasks(tasks: seq<Task>, projects: seq<Project>, v: Visibility.Viewer): (r: seq<Task>)
    ensures IsSubsequence(r, tasks)
    ensures forall t :: t in r <==> t in tasks && Visibility.DashboardShows(t, Visibility.VisibleIds(projects, v))
  {
    var ids := Visibility.VisibleIds(projects, v);
    FilterIsSubsequence(tasks, ShownWith(ids));
    forall t ensures t in Filter(tasks, ShownWith(ids)) <==> t in tasks && Visibility.DashboardShows(t, ids) {
      FilterMembers(tasks, ShownWith(ids), t);
    }
    Filter(tasks, ShownWith(ids))
  }

  /** The visible ids are those of the visible projects. */
  lemma VisibleIdsOfVisibleProjects(projects: seq<Project>, v: Visibility.Viewer, id: string)
    ensures id in Visibility.VisibleIds(projects, v) <==>
      exists p :: p in VisibleProjects(projects, v) && p.id == id
  {
    var vp := VisibleProjects(projects, v);
    if id in Visibility.VisibleIds(projects, v) {
      var i :| 0 <= i < |projects| && projects[i].id == id && Visibility.CanView(projects[i], v);
      assert projects[i] in vp;
    }
    if exists p :: p in vp && p.id == id {
      var p :| p in vp && p.id == id;
      var i :| 0 <= i < |projects| && projects[i] == p;
    }
  }

  /** Trimming then lower-casing twice is trimming then lower-casing once. */
  lemma NormTwice(e: string)
    ensures Text.Norm(Text.Norm(e)) == Text.Norm(e)
  {
    Text.TrimLowerCommute(Text.Trim(e));
    Text.TrimIdempotent(e);
    Text.LowerIdempotent(Text.Trim(e));
  }

  /** Every task the dashboard counts is counted by the task summary of
      components/GorevOzeti.tsx too, for the same user. */
  lemma DashboardTasksInSummary(tasks: seq<Task>, projects: seq<Project>, isAdmin: bool, email: string, t: Task)
    requires t in VisibleTasks(tasks, projects, DashboardViewer(isAdmin, email))
    ensures t in TaskSummary.VisibleTasks(tasks, projects, TaskSummary.ScreenViewer(isAdmin, email))
  {
    var dv := DashboardViewer(isAdmin, email);
    var sv := TaskSummary.ScreenViewer(isAdmin, email);
    forall p: Project
      ensures Visibility.CanView(p, dv) == Visibility.CanView(p, sv)
    {
      Visibility.CanViewNormalised(p, Visibility.Viewer(isAdmin, email));
      Visibility.CanViewNormalised(p, sv);
      NormTwice(email);
      Text.LowerIdempotent(Text.Trim(email));
    }
    assert Visibility.VisibleIds(projects, dv) == Visibility.VisibleIds(projects, sv);
    Visibility.DashboardWithinSummary(t, Visibility.VisibleIds(projects, sv));
  }

  // ---------------------------------------------------------------------------
  // Key figures (`kpi`)

  datatype Kpi = Kpi(totalProjects: nat, totalTasks: nat, done: nat, inProgress: nat, todo: nat)

  function DoneTask(): Task -> bool { (t: Task) => IsDone(t.status) }
  function ProgressTask(): Task -> bool { (t: Task) => IsInProgress(t.status) }
  function TodoTask(): Task -> bool { (t: Task) => IsTodo(t.status) }

  function KeyFigures(tasks: seq<Task>, projects: seq<Project>, v: Visibility.Viewer): (k: Kpi)
    ensures k.totalProjects == |VisibleProjects(projects, v)|
    ensures k.totalTasks == |VisibleTasks(tasks, projects, v)|
    ensures k.done <= k.totalTasks && k.inProgress <= k.totalTasks && k.todo <= k.totalTasks
    ensures k.done == Count(VisibleTasks(tasks, projects, v), DoneTask())
    ensures k.inProgress == Count(VisibleTasks(tasks, projects, v), ProgressTask())
    ensures k.todo == Count(VisibleTasks(tasks, projects, v), TodoTask())
  {
    var visible := VisibleTasks(tasks, projects, v);
    Kpi(|VisibleProjects(projects, v)|, |visible|,
      Count(visible, DoneTask()), Count(visible, ProgressTask()), Count(visible, TodoTask()))
  }

  function InSomeBucket(): Task -> bool {
    (t: Task) => IsDone(t.status) || IsInProgress(t.status) || IsTodo(t.status)
  }

  function NonBlankStatus(): Task -> bool {
    (t: Task) => Text.Trim(t.status) != ""
  }

  /** The tasks in at least one bucket are exactly those whose status is not
      blank: a blank status is counted in the total only. */
  lemma BucketsCoverNonBlankTasks(ts: seq<Task>)
    ensures Count(ts, InSomeBucket()) == Count(ts, NonBlankStatus())
  {
    forall i | 0 <= i < |ts|
      ensures InSomeBucket()(ts[i]) == NonBlankStatus()(ts[i])
    {
      BucketsCoverNonBlank(ts[i].status);
    }
    FilterSame(ts, InSomeBucket(), NonBlankStatus());
    CountIsFilterLength(ts, InSomeBucket());
    CountIsFilterLength(ts, NonBlankStatus());
  }

  /** The bucket counts of the key figures against the visible tasks whose
      status is not blank: no bucket holds more of them, and the three
      buckets together hold every one of them at least once. */
  lemma KeyFiguresBuckets(tasks: seq<Task>, projects: seq<Project>, v: Visibility.Viewer)
    ensures var k := KeyFigures(tasks, projects, v);
      var n := Count(VisibleTasks(tasks, projects, v), NonBlankStatus());
      && k.done <= n && k.inProgress <= n && k.todo <= n
      && n <= k.done + k.inProgress + k.todo
  {
    var visible := VisibleTasks(tasks, projects, v);
    forall t: Task
      ensures (DoneTask()(t) ==> NonBlankStatus()(t))
      ensures (ProgressTask()(t) ==> NonBlankStatus()(t))
      ensures (TodoTask()(t) ==> NonBlankStatus()(t))
      ensures (NonBlankStatus()(t) ==> DoneTask()(t) || ProgressTask()(t) || TodoTask()(t))
    {
      BucketsCoverNonBlank(t.status);
    }
    CountMonotone(visible, DoneTask(), NonBlankStatus());
    CountMonotone(visible, ProgressTask(), NonBlankStatus());
    CountMonotone(visible, TodoTask(), NonBlankStatus());
    CountCovered(visible, NonBlankStatus(), DoneTask(), ProgressTask(), TodoTask());
  }

  // ---------------------------------------------------------------------------
  // The status chart (`statusChartData`)

  datatype Bar = Bar(caption: string, value: nat, pct: nat)

  /** The sum of the three bucket counts, or 1 when all three are zero; a
      task in several buckets is counted once in each. */
  function ChartTotal(k: Kpi): (total: nat)
    ensures total > 0
    ensures k.todo <= total && k.inProgress <= total && k.done <= total
  {
    if k.todo + k.inProgress + k.done == 0 then 1 else k.todo + k.inProgress + k.done
  }

  /** One bar per bucket, to do, in progress and done, each with its count
      and its rounded share of the three counts together. */
  function StatusChart(k: Kpi): (bars: seq<Bar>)
    ensures |bars| == 3
    ensures bars[0].value == k.todo && bars[1].value == k.inProgress && bars[2].value == k.done
    ensures forall i :: 0 <= i < 3 ==> bars[i].pct <= 100
    ensures k.todo + k.inProgress + k.done == 0 ==> forall i :: 0 <= i < 3 ==> bars[i].pct == 0
    ensures forall i :: 0 <= i < 3 ==> bars[i].value <= ChartTotal(k) && bars[i].pct == TaskSummary.Percent(bars[i].value, ChartTotal(k))
  {
    var total := ChartTotal(k);
    [Bar("Yapılacak", k.todo, TaskSummary.Percent(k.todo, total)),
     Bar("Devam", k.inProgress, TaskSummary.Percent(k.inProgress, total)),
     Bar("Tamamlandı", k.done, TaskSummary.Percent(k.done, total))]
  }

  /** Each bar's share is the nearest whole percentage, so with some task in
      a bucket the three shares add up to 99, 100 or 101, not always to
      exactly 100. */
  lemma ChartSharesAddUp(k: Kpi)
    requires k.todo + k.inProgress + k.done > 0
    ensures var bars := StatusChart(k);
      99 <= bars[0].pct + bars[1].pct + bars[2].pct <= 101
  {
    var total := ChartTotal(k);
    var bars := StatusChart(k);
    TaskSummary.PercentIsNearest(k.todo, total);
    TaskSummary.PercentIsNearest(k.inProgress, total);
    TaskSummary.PercentIsNearest(k.done, total);
    SharesBound(bars[0].pct, bars[1].pct, bars[2].pct, k.todo, k.inProgress, k.done, total);
  }

  /** Three rounded shares of parts that make up the whole are each off by
      at most half a point, so together they are off by at most one. */
  lemma SharesBound(p0: int, p1: int, p2: int, a: int, b: int, c: int, total: int)
    requires total > 0 && a + b + c == total
    requires 2 * (p0 * total - 100 * a) <= total && 2 * (100 * a - p0 * total) < total
    requires 2 * (p1 * total - 100 * b) <= total && 2 * (100 * b - p1 * total) < total
    requires 2 * (p2 * total - 100 * c) <= total && 2 * (100 * c - p2 * total) < total
    ensures 99 <= p0 + p1 + p2 <= 101
  {
    var sum := p0 + p1 + p2;
    SumTimes(p0, p1, p2, total);
    OffsetTimes(sum, total);
    PositiveFactor(2 * sum - 203, total);
    PositiveFactor(197 - 2 * sum, total);
  }

  lemma SumTimes(x: int, y: int, z: int, t: int)
    ensures (x + y + z) * t == x * t + y * t + z * t
  {
  }

  lemma OffsetTimes(x: int, t: int)
    ensures (2 * x - 203) * t == 2 * (x * t) - 203 * t
    ensures (197 - 2 * x) * t == 197 * t - 2 * (x * t)
  {
  }

  /** A product with a positive factor is positive only if the other
      factor is. */
  lemma PositiveFactor(x: int, total: int)
    requires total > 0
    ensures x >= 1 ==> x * total >= total
  {
  }

  // ---------------------------------------------------------------------------
  // Recent tasks and projects

  /** At most ten visible tasks, newest first by update time (none counts
      as 0). */
  function RecentTasks(visible: seq<Task>, timeOf: string -> int): (r: seq<Task>)
    ensures |r| == if |visible| < RecentTaskCount then |visible| else RecentTaskCount
    ensures multiset(r) <= multiset(visible)
    ensures forall i, j :: 0 <= i < j < |r| ==> TaskSummary.UpdatedTime(r[i], timeOf) >= TaskSummary.UpdatedTime(r[j], timeOf)
  {
    var key := TaskSummary.NewestFirst(timeOf);
    var r := TopBy(visible, key, RecentTaskCount);
    assert forall i, j :: 0 <= i < j < |r| ==> RankLe(key(r[i]), key(r[j]));
    r
  }

  /** The sort is stable: listed tasks of equal time keep their visible
      order, and are the first visible tasks of that time. */
  lemma RecentTasksTies(visible: seq<Task>, timeOf: string -> int, time: int)
    ensures Filter(RecentTasks(visible, timeOf), TaskSummary.UpdatedTimeIs(timeOf, time))
      <= Filter(visible, TaskSummary.UpdatedTimeIs(timeOf, time))
  {
    var key := TaskSummary.NewestFirst(timeOf);
    var rank := Rank(-time, 0, 0);
    TopByTies(visible, key, RecentTaskCount, rank);
    FilterSame(RecentTasks(visible, timeOf), TaskSummary.UpdatedTimeIs(timeOf, time), RankIs(key, rank));
    FilterSame(visible, TaskSummary.UpdatedTimeIs(timeOf, time), RankIs(key, rank));
  }

  /** No visible task left out of the list is newer than one listed. */
  lemma RecentTasksAreNewest(visible: seq<Task>, timeOf: string -> int, y: Task)
    requires y in multiset(visible) - multiset(RecentTasks(visible, timeOf))
    ensures forall t :: t in RecentTasks(visible, timeOf) ==> TaskSummary.UpdatedTime(t, timeOf) >= TaskSummary.UpdatedTime(y, timeOf)
  {
    var key := TaskSummary.NewestFirst(timeOf);
    TopByKeepsSmallest(visible, key, RecentTaskCount, y);
    var r := RecentTasks(visible, timeOf);
    forall t | t in r
      ensures TaskSummary.UpdatedTime(t, timeOf) >= TaskSummary.UpdatedTime(y, timeOf)
    {
      var i :| 0 <= i < |r| && r[i] == t;
      assert RankLe(key(r[i]), key(y));
    }
  }

  /** A project's time: its update time, else its creation time, else 0. */
  function ProjectTime(p: Project, timeOf: string -> int): int {
    if p.updatedAt.Some? && p.updatedAt.value != "" then timeOf(p.updatedAt.value)
    else if p.createdAt.Some? && p.createdAt.value != "" then timeOf(p.createdAt.value)
    else 0
  }

  function NewestProjectFirst(timeOf: string -> int): Project -> Rank {
    (p: Project) => Rank(-ProjectTime(p, timeOf), 0, 0)
  }

  /** At most five visible projects, newest first. */
  function RecentProjects(visible: seq<Project>, timeOf: string -> int): (r: seq<Project>)
    ensures |r| == if |visible| < RecentProjectCount then |visible| else RecentProjectCount
    ensures multiset(r) <= multiset(visible)
    ensures forall i, j :: 0 <= i < j < |r| ==> ProjectTime(r[i], timeOf) >= ProjectTime(r[j], timeOf)
  {
    var key := NewestProjectFirst(timeOf);
    var r := TopBy(visible, key, RecentProjectCount);
    assert forall i, j :: 0 <= i < j < |r| ==> RankLe(key(r[i]), key(r[j]));
    r
  }

  function ProjectTimeIs(timeOf: string -> int, time: int): Project -> bool {
    (p: Project) => ProjectTime(p, timeOf) == time
  }

  /** The sort is stable: listed projects of equal time keep their visible
      order, and are the first visible projects of that time. */
  lemma RecentProjectsTies(visible: seq<Project>, timeOf: string -> int, time: int)
    ensures Filter(RecentProjects(visible, timeOf), ProjectTimeIs(timeOf, time))
      <= Filter(visible, ProjectTimeIs(timeOf, time))
  {
    var key := NewestProjectFirst(timeOf);
    var rank := Rank(-time, 0, 0);
    TopByTies(visible, key, RecentProjectCount, rank);
    FilterSame(RecentProjects(visible, timeOf), ProjectTimeIs(timeOf, time), RankIs(key, rank));
    FilterSame(visible, ProjectTimeIs(timeOf, time), RankIs(key, rank));
  }

  /** No visible project left out of the list is newer than one listed. */
  lemma RecentProjectsAreNewest(visible: seq<Project>, timeOf: string -> int, y: Project)
    requires y in multiset(visible) - multiset(RecentProjects(visible, timeOf))
    ensures forall p :: p in RecentProjects(visible, timeOf) ==> ProjectTime(p, timeOf) >= ProjectTime(y, timeOf)
  {
    var key := NewestProjectFirst(timeOf);
    TopByKeepsSmallest(visible, key, RecentProjectCount, y);
    var r := RecentProjects(visible, timeOf);
    forall p | p in r
      ensures ProjectTime(p, timeOf) >= ProjectTime(y, timeOf)
    {
      var i :| 0 <= i < |r| && r[i] == p;
      assert RankLe(key(r[i]), key(y));
    }
  }
}
