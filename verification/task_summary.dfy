/**
 * The task summary of components/GorevOzeti.tsx: which tasks it counts, the
 * "mine" filter, the groups per assignee, the counters, the recent list, the
 * urgent list and each task's urgency. Times are integers in milliseconds;
 * reading a time stamp is the parameter `timeOf`, and the start and end of
 * the current day are inputs.
 */
module TaskSummary {
  import opened Common
  import Text
  import TaskFeed
  import ProjectFeed
  import Visibility

  type Task = TaskFeed.Task

  /** How many recent tasks are listed (`GECMIS_GOREV_SAYISI`). */
  const RecentCount := 12
  const Unassigned := "Atanmamış"

  // ---------------------------------------------------------------------------
  // Status and priority tests

  /** `isTaskCompleted`: the lower-cased status is one of the six spellings. */
  predicate IsCompleted(t: Task) {
    Text.Lower(t.status) in {"tamamlandı", "tamamlandi", "yapıldı", "yapildi", "done", "completed"}
  }

  predicate InProgress(t: Task) {
    Text.Lower(t.status) in {"devam", "devam ediyor", "in progress"}
  }

  predicate IsHigh(t: Task) {
    Text.Lower(GetOr(t.priority, "")) == "high"
  }

  /** The status the quick-complete button writes counts as completed. */
  lemma QuickCompleteCompletes(t: Task)
    ensures IsCompleted(t.(status := "Tamamlandı"))
  {
    assert Text.Lower("Tamamlandı") == "tamamlandı" by {
      assert Text.Lower("Tamamlandı")[0] == 't';
    }
  }

  /** The tests ignore letter case. */
  lemma StatusTestsIgnoreCase(t: Task)
    ensures IsCompleted(t) == IsCompleted(t.(status := Text.Lower(t.status)))
    ensures InProgress(t) == InProgress(t.(status := Text.Lower(t.status)))
  {
    Text.LowerIdempotent(t.status);
  }

  // ---------------------------------------------------------------------------
  // Which tasks are summarised

  /** The viewer as this screen builds it: the address is trimmed and
      lower-cased before use. */
  function ScreenViewer(isAdmin: bool, email: string): Visibility.Viewer {
    Visibility.Viewer(isAdmin, Text.Norm(email))
  }

  function ShowsTask(ids: set<string>): Task -> bool {
    (t: Task) => Visibility.SummaryShows(t, ids)
  }

  /** `tasksVisibleByProject` */
  function VisibleTasks(tasks: seq<Task>, projects: seq<ProjectFeed.Project>, viewer: Visibility.Viewer): (r: seq<Task>)
    ensures forall t :: t in r <==> t in tasks && Visibility.SummaryShows(t, Visibility.VisibleIds(projects, viewer))
  {
    var ids := Visibility.VisibleIds(projects, viewer);
    var r := Filter(tasks, ShowsTask(ids));
    forall t ensures t in r <==> t in tasks && Visibility.SummaryShows(t, ids) {
      FilterMembers(tasks, ShowsTask(ids), t);
    }
    r
  }

  datatype Mode = All | Mine | ByAssignee

  /** The "mine" test: the lower-cased assignee contains the user's address
      or equals it. */
  predicate AssignedToMe(t: Task, me: string) {
    var a := Text.Lower(GetOr(t.assignee, ""));
    Text.Contains(a, me) || a == me
  }

  function MineFilter(me: string): Task -> bool {
    (t: Task) => AssignedToMe(t, me)
  }

  /** `filteredTasks`; `me` is the normalised address of the user. */
  function FilteredTasks(visible: seq<Task>, mode: Mode, me: string): (r: seq<Task>)
    ensures IsSubsequence(r, visible)
    ensures forall t :: t in r <==> t in visible && (mode == Mine ==> AssignedToMe(t, me))
  {
    if mode == Mine then
      var r := Filter(visible, MineFilter(me));
      FilterIsSubsequence(visible, MineFilter(me));
      forall t ensures t in r <==> t in visible && AssignedToMe(t, me) {
        FilterMembers(visible, MineFilter(me), t);
      }
      r
    else
      SubsequenceOfSelf(visible);
      visible
  }

  lemma {:induction false} SubsequenceOfSelf<T>(s: seq<T>)
    ensures IsSubsequence(s, s)
    decreases |s|
  {
    if |s| > 0 {
      SubsequenceOfSelf(s[1..]);
    }
  }

  /** With a blank address every task contains it, so "mine" keeps all. */
  lemma MineWithBlankAddressKeepsAll(visible: seq<Task>)
    ensures FilteredTasks(visible, Mine, "") == visible
  {
    forall i | 0 <= i < |visible|
      ensures MineFilter("")(visible[i])
    {
      Text.ContainsEmpty(Text.Lower(GetOr(visible[i].assignee, "")));
    }
    FilterAllPass(visible, MineFilter(""));
  }

  /** The "equals" half of the test adds nothing to the "contains" half. */
  lemma EqualsImpliesContains(t: Task, me: string)
    ensures AssignedToMe(t, me) <==> Text.Contains(Text.Lower(GetOr(t.assignee, "")), me)
  {
    var a := Text.Lower(GetOr(t.assignee, ""));
    if a == me {
      assert Text.OccursAt(a, me, 0);
    }
  }

  // ---------------------------------------------------------------------------
  // Groups per assignee (`tasksByAssignee`)

  /** The group of a task: its trimmed assignee, or "Atanmamış". */
  function GroupKey(t: Task): (k: string)
    ensures k != ""
  {
    if t.assignee.Some? && Text.Trim(t.assignee.value) != "" then Text.Trim(t.assignee.value) else Unassigned
  }

  function KeyIs(k: string): Task -> bool {
    (t: Task) => GroupKey(t) == k
  }

  type Group = (string, seq<Task>)
  type Groups = seq<Group>

  /** A task joins its key's group; a key not yet present opens an empty
      group at the end first. */
  function AddTask(g: Groups, t: Task): (r: Groups)
  {
    Upsert(g, GroupKey(t), GetOr(Lookup(g, GroupKey(t)), []) + [t])
  }

  /** The `Map` built in task order. */
  function Grouped(ts: seq<Task>): (g: Groups)
    decreases |ts|
  {
    if |ts| == 0 then [] else AddTask(Grouped(ts[..|ts| - 1]), ts[|ts| - 1])
  }

  /** The group a key should have: the tasks with that key, in task order,
      or none when there are none. */
  function Expected(ts: seq<Task>, k: string): Option<seq<Task>> {
    if Filter(ts, KeyIs(k)) == [] then None else Some(Filter(ts, KeyIs(k)))
  }

  /** Groups of `ts`: one per key, each holding exactly the tasks with that
      key, in task order, and no empty group. */
  ghost predicate GroupsOf(g: Groups, ts: seq<Task>) {
    DistinctKeys(g) && forall k :: Lookup(g, k) == Expected(ts, k)
  }

  /** Appending one task extends its own key's tasks by it and leaves every
      other key's tasks alone. */
  lemma ExpectedSnoc(ts: seq<Task>, t: Task, k: string)
    ensures Filter(ts + [t], KeyIs(k)) == Filter(ts, KeyIs(k)) + (if GroupKey(t) == k then [t] else [])
  {
    FilterAppend(ts, [t], KeyIs(k));
    assert [t][1..] == [];
  }

  lemma AddTaskKey(g: Groups, ts: seq<Task>, t: Task, k: string)
    requires Lookup(g, k) == Expected(ts, k) && Lookup(g, GroupKey(t)) == Expected(ts, GroupKey(t))
    ensures Lookup(AddTask(g, t), k) == Expected(ts + [t], k)
  {
    var f := Filter(ts, KeyIs(k));
    ExpectedSnoc(ts, t, k);
    if k == GroupKey(t) {
      assert GetOr(Lookup(g, k), []) == f;
      assert Filter(ts + [t], KeyIs(k)) == f + [t];
    } else {
      assert Filter(ts + [t], KeyIs(k)) == f;
    }
  }

  lemma AddTaskDistinct(g: Groups, t: Task)
    requires DistinctKeys(g)
    ensures DistinctKeys(AddTask(g, t))
  {
    UpsertKeepsDistinct(g, GroupKey(t), GetOr(Lookup(g, GroupKey(t)), []) + [t]);
  }

  /** Adding the last task of a list to the groups of the tasks before it
      gives the groups of the whole list. */
  lemma GroupsOfSnoc(g: Groups, ts: seq<Task>)
    requires |ts| > 0 && GroupsOf(g, ts[..|ts| - 1])
    ensures GroupsOf(AddTask(g, ts[|ts| - 1]), ts)
  {
    var init, t := ts[..|ts| - 1], ts[|ts| - 1];
    assert init + [t] == ts;
    forall k
      ensures Lookup(AddTask(g, t), k) == Expected(ts, k)
    {
      AddTaskKey(g, init, t, k);
    }
    AddTaskDistinct(g, t);
  }

  lemma {:induction false} GroupedIsGroupsOf(ts: seq<Task>)
    ensures GroupsOf(Grouped(ts), ts)
    decreases |ts|
  {
    if |ts| > 0 {
      GroupedIsGroupsOf(ts[..|ts| - 1]);
      GroupsOfSnoc(Grouped(ts[..|ts| - 1]), ts);
    }
  }

  /** The size order of the groups: larger first. */
  function BySize(): Group -> Rank {
    (g: Group) => Rank(-|g.1|, 0, 0)
  }

  /** `tasksByAssignee`: the groups sorted by size, larger first; groups of
      equal size keep their order of first appearance. */
  function TasksByAssignee(ts: seq<Task>): (g: Groups)
    ensures SortedBy(g, BySize())
    ensures multiset(g) == multiset(Grouped(ts))
  {
    SortBy(Grouped(ts), BySize())
  }

  /** Every task is in exactly one group, the group of its key; each group
      holds all the tasks of its key in task order; and the groups run from
      the largest down. */
  lemma TasksByAssigneeGroups(ts: seq<Task>, k: string)
    ensures DistinctKeys(TasksByAssignee(ts))
    ensures Lookup(TasksByAssignee(ts), k) == Expected(ts, k)
    ensures forall i, j :: 0 <= i < j < |TasksByAssignee(ts)| ==> |TasksByAssignee(ts)[i].1| >= |TasksByAssignee(ts)[j].1|
  {
    GroupedIsGroupsOf(ts);
    PermutedRecord(Grouped(ts), TasksByAssignee(ts), k);
    var g := TasksByAssignee(ts);
    forall i, j | 0 <= i < j < |g|
      ensures |g[i].1| >= |g[j].1|
    {
      assert RankLe(BySize()(g[i]), BySize()(g[j]));
    }
  }

  /** Key `a` occurs in the task list before key `b` first does. */
  predicate SeenBefore(ts: seq<Task>, a: string, b: string) {
    exists x :: 0 <= x < |ts| && GroupKey(ts[x]) == a && forall y :: 0 <= y <= x ==> GroupKey(ts[y]) != b
  }

  /** Appending tasks keeps what occurred before what. */
  lemma SeenBeforeExtends(init: seq<Task>, more: seq<Task>, a: string, b: string)
    requires SeenBefore(init, a, b)
    ensures SeenBefore(init + more, a, b)
  {
    var ts := init + more;
    var x :| 0 <= x < |init| && GroupKey(init[x]) == a && forall y :: 0 <= y <= x ==> GroupKey(init[y]) != b;
    assert forall y :: 0 <= y <= x ==> ts[y] == init[y];
  }

  /** A key with a group occurs before a key without one. */
  lemma GroupedBeforeNew(init: seq<Task>, a: string, b: string)
    requires Lookup(Grouped(init), a).Some? && Lookup(Grouped(init), b).None?
    ensures SeenBefore(init, a, b)
  {
    GroupedIsGroupsOf(init);
    var f := Filter(init, KeyIs(a));
    assert f != [];
    FilterMembers(init, KeyIs(a), f[0]);
    var x :| 0 <= x < |init| && init[x] == f[0];
    forall y | 0 <= y <= x ensures GroupKey(init[y]) != b {
      FilterMembers(init, KeyIs(b), init[y]);
    }
  }

  /** The `Map` lists its groups in the order their keys first occur among
      the tasks. */
  lemma {:induction false} GroupedFirstAppearance(ts: seq<Task>)
    ensures forall i, j :: 0 <= i < j < |Grouped(ts)| ==> SeenBefore(ts, Grouped(ts)[i].0, Grouped(ts)[j].0)
    decreases |ts|
  {
    if |ts| > 0 {
      var init, t := ts[..|ts| - 1], ts[|ts| - 1];
      assert ts == init + [t];
      var g0 := Grouped(init);
      var g := Grouped(ts);
      GroupedFirstAppearance(init);
      assert g == AddTask(g0, t);
      var b := GroupKey(t);
      forall i, j | 0 <= i < j < |g| ensures SeenBefore(ts, g[i].0, g[j].0) {
        if j < |g0| {
          assert g[i].0 == g0[i].0 && g[j].0 == g0[j].0;
          SeenBeforeExtends(init, [t], g0[i].0, g0[j].0);
        } else {
          assert Lookup(g0, b).None? && g[j].0 == b && g[i] == g0[i];
          GroupedBeforeNew(init, g0[i].0, b);
          SeenBeforeExtends(init, [t], g0[i].0, b);
        }
      }
    }
  }

  function SizeIs(n: nat): Group -> bool {
    (g: Group) => |g.1| == n
  }

  /** Groups of equal size come out in the `Map`'s order, which
      GroupedFirstAppearance shows to be the order of first appearance. */
  lemma TasksByAssigneeTies(ts: seq<Task>, n: nat)
    ensures Filter(TasksByAssignee(ts), SizeIs(n)) == Filter(Grouped(ts), SizeIs(n))
  {
    var k := Rank(-(n as int), 0, 0);
    SortByTies(Grouped(ts), BySize(), k);
    var g := TasksByAssignee(ts);
    FilterSame(g, SizeIs(n), RankIs(BySize(), k));
    FilterSame(Grouped(ts), SizeIs(n), RankIs(BySize(), k));
  }

  /** A task lies in the group of its key. */
  lemma TaskInItsGroup(ts: seq<Task>, t: Task)
    requires t in ts
    ensures Lookup(TasksByAssignee(ts), GroupKey(t)).Some?
    ensures t in Lookup(TasksByAssignee(ts), GroupKey(t)).value
  {
    TasksByAssigneeGroups(ts, GroupKey(t));
    FilterMembers(ts, KeyIs(GroupKey(t)), t);
  }

  // ---------------------------------------------------------------------------
  // Counters (`stats`)

  datatype Stats = Stats(done: nat, inProgress: nat, todo: nat, total: nat, high: nat, completionRate: nat)

  function Done(): Task -> bool { (t: Task) => IsCompleted(t) }
  function Ongoing(): Task -> bool { (t: Task) => InProgress(t) }
  function High(): Task -> bool { (t: Task) => IsHigh(t) }

  /** `Math.round(part / total * 100)`, in exact arithmetic. */
  function Percent(part: nat, total: nat): (p: nat)
    requires part <= total
    ensures p <= 100
  {
    if total == 0 then 0
    else
      DivLess(200 * part + total, 2 * total, 101);
      (200 * part + total) / (2 * total)
  }

  /** The percentage is the whole number nearest to `100 * part / total`,
      halves rounded up: it is off by at most half a point below and less
      than half a point above. */
  lemma PercentIsNearest(part: nat, total: nat)
    requires 0 < total && part <= total
    ensures var p := Percent(part, total);
      2 * (p * total - 100 * part) <= total && 2 * (100 * part - p * total) < total
  {
    var a := 200 * part + total;
    var d := 2 * total;
    var p := a / d;
    assert p == Percent(part, total);
    assert p * d <= a < p * d + d;
    assert p * d == 2 * (p * total);
  }

  lemma DivLess(a: nat, d: nat, b: nat)
    requires d > 0 && a < b * d
    ensures a / d < b
  {
    var q := a / d;
    assert q * d <= a;
    if q >= b {
      MulMonotone(b, q, d);
    }
  }

  lemma MulMonotone(x: nat, y: nat, d: nat)
    requires x <= y
    ensures x * d <= y * d
  {
  }

  function SummaryStats(ts: seq<Task>): (s: Stats)
    ensures s.total == |ts|
    ensures s.done == Count(ts, Done()) && s.inProgress == Count(ts, Ongoing()) && s.high == Count(ts, High())
    ensures s.done <= |ts| && s.completionRate == if |ts| > 0 then Percent(s.done, |ts|) else 0
  {
    var done := Count(ts, Done());
    var ongoing := Count(ts, Ongoing());
    var rest := |ts| - done - ongoing;
    Stats(done, ongoing, if rest < 0 then 0 else rest, |ts|, Count(ts, High()),
      if |ts| > 0 then Percent(done, |ts|) else 0)
  }

  /** A completed status is never in progress, so the three counters add
      up to the total and the clamp at zero never bites; the completion rate
      is a percentage, and 0 without tasks. */
  lemma StatsPartition(ts: seq<Task>)
    ensures var s := SummaryStats(ts);
      && s.done + s.inProgress + s.todo == s.total
      && s.done + s.inProgress <= s.total
      && s.completionRate <= 100
      && (s.total == 0 ==> s.completionRate == 0)
  {
    forall t ensures !(Done()(t) && Ongoing()(t)) {
    }
    CountDisjoint(ts, Done(), Ongoing());
  }

  // ---------------------------------------------------------------------------
  // Weekly trend

  function RecentlyDone(weekAgo: int, timeOf: string -> int): Task -> bool {
    (t: Task) => IsCompleted(t) && t.updatedAt.Some? && t.updatedAt.value != "" && timeOf(t.updatedAt.value) >= weekAgo
  }

  /** `weeklyTrend`: the completed tasks updated in the last seven days. */
  function WeeklyTrend(ts: seq<Task>, weekAgo: int, timeOf: string -> int): (n: nat)
    ensures n <= Count(ts, Done())
    ensures n == Count(ts, RecentlyDone(weekAgo, timeOf))
  {
    CountMonotone(ts, RecentlyDone(weekAgo, timeOf), Done());
    Count(ts, RecentlyDone(weekAgo, timeOf))
  }

  /** The trend counts, with repetition, exactly the completed tasks that
      have a non-empty update time no earlier than a week ago. */
  lemma WeeklyTrendMembers(ts: seq<Task>, weekAgo: int, timeOf: string -> int)
    ensures WeeklyTrend(ts, weekAgo, timeOf) == |Filter(ts, RecentlyDone(weekAgo, timeOf))|
    ensures forall t :: t in Filter(ts, RecentlyDone(weekAgo, timeOf)) <==>
      t in ts && IsCompleted(t) && t.updatedAt.Some? && t.updatedAt.value != "" && timeOf(t.updatedAt.value) >= weekAgo
  {
    CountIsFilterLength(ts, RecentlyDone(weekAgo, timeOf));
    forall t ensures t in Filter(ts, RecentlyDone(weekAgo, timeOf)) <==> t in ts && RecentlyDone(weekAgo, timeOf)(t) {
      FilterMembers(ts, RecentlyDone(weekAgo, timeOf), t);
    }
  }

  /** Looking further back never counts fewer completed tasks. */
  lemma WeeklyTrendMonotone(ts: seq<Task>, earlier: int, later: int, timeOf: string -> int)
    requires earlier <= later
    ensures WeeklyTrend(ts, later, timeOf) <= WeeklyTrend(ts, earlier, timeOf)
  {
    CountMonotone(ts, RecentlyDone(later, timeOf), RecentlyDone(earlier, timeOf));
  }

  // ---------------------------------------------------------------------------
  // Recent tasks (`sonGorevler`)

  /** A task's update time, or 0 without one. */
  function UpdatedTime(t: Task, timeOf: string -> int): int {
    if t.updatedAt.Some? && t.updatedAt.value != "" then timeOf(t.updatedAt.value) else 0
  }

  function NewestFirst(timeOf: string -> int): Task -> Rank {
    (t: Task) => Rank(-UpdatedTime(t, timeOf), 0, 0)
  }

  function UpdatedTimeIs(timeOf: string -> int, time: int): Task -> bool {
    (t: Task) => UpdatedTime(t, timeOf) == time
  }

  /** At most twelve tasks, newest first, and no task left out is newer
      than one listed. */
  function RecentTasks(ts: seq<Task>, timeOf: string -> int): (r: seq<Task>)
    ensures |r| == if |ts| < RecentCount then |ts| else RecentCount
    ensures multiset(r) <= multiset(ts)
    ensures forall i, j :: 0 <= i < j < |r| ==> UpdatedTime(r[i], timeOf) >= UpdatedTime(r[j], timeOf)
  {
    var r := TopBy(ts, NewestFirst(timeOf), RecentCount);
    assert forall i, j :: 0 <= i < j < |r| ==> RankLe(NewestFirst(timeOf)(r[i]), NewestFirst(timeOf)(r[j]));
    r
  }

  /** The sort is stable: listed tasks of equal time keep their order in
      the list, and are the first tasks of that time. */
  lemma RecentTasksTies(ts: seq<Task>, timeOf: string -> int, time: int)
    ensures Filter(RecentTasks(ts, timeOf), UpdatedTimeIs(timeOf, time))
      <= Filter(ts, UpdatedTimeIs(timeOf, time))
  {
    var key := NewestFirst(timeOf);
    var rank := Rank(-time, 0, 0);
    TopByTies(ts, key, RecentCount, rank);
    FilterSame(RecentTasks(ts, timeOf), UpdatedTimeIs(timeOf, time), RankIs(key, rank));
    FilterSame(ts, UpdatedTimeIs(timeOf, time), RankIs(key, rank));
  }

  lemma RecentTasksAreNewest(ts: seq<Task>, timeOf: string -> int, y: Task)
    requires y in multiset(ts) - multiset(RecentTasks(ts, timeOf))
    ensures forall t :: t in RecentTasks(ts, timeOf) ==> UpdatedTime(t, timeOf) >= UpdatedTime(y, timeOf)
  {
    TopByKeepsSmallest(ts, NewestFirst(timeOf), RecentCount, y);
    var r := RecentTasks(ts, timeOf);
    forall t | t in r
      ensures UpdatedTime(t, timeOf) >= UpdatedTime(y, timeOf)
    {
      var i :| 0 <= i < |r| && r[i] == t;
      assert RankLe(NewestFirst(timeOf)(r[i]), NewestFirst(timeOf)(y));
    }
  }

  // ---------------------------------------------------------------------------
  // Urgent tasks (`acilGorevler`) and urgency (`getTaskUrgency`)

  /** A due date that is present and not blank. */
  predicate HasDue(t: Task) {
    t.dueDate.Some? && Text.Trim(t.dueDate.value) != ""
  }

  /** The urgent-list test; `endOfToday` is the last millisecond of today. */
  predicate Urgent(t: Task, endOfToday: int, timeOf: string -> int) {
    if IsCompleted(t) then false
    else if !IsHigh(t) && !HasDue(t) then false
    else if IsHigh(t) && !HasDue(t) then true
    else if HasDue(t) then timeOf(t.dueDate.value) <= endOfToday
    else false
  }

  function UrgentFilter(endOfToday: int, timeOf: string -> int): Task -> bool {
    (t: Task) => Urgent(t, endOfToday, timeOf)
  }

  /** The sort of the urgent list: dated tasks first by due time (an empty
      due date counts as none), then high priority first. */
  function DueThenHigh(timeOf: string -> int): Task -> Rank {
    (t: Task) =>
      var dated := t.dueDate.Some? && t.dueDate.value != "";
      Rank(if dated then 0 else 1, if dated then timeOf(t.dueDate.value) else 0, if IsHigh(t) then 0 else 1)
  }

  function UrgentTasks(ts: seq<Task>, endOfToday: int, timeOf: string -> int): (r: seq<Task>)
    ensures SortedBy(r, DueThenHigh(timeOf))
  {
    SortBy(Filter(ts, UrgentFilter(endOfToday, timeOf)), DueThenHigh(timeOf))
  }

  /** The urgent list holds exactly the open tasks that are high priority
      without a due date or due by the end of today; it has no completed
      task. */
  lemma UrgentTasksMembers(ts: seq<Task>, endOfToday: int, timeOf: string -> int, t: Task)
    ensures t in UrgentTasks(ts, endOfToday, timeOf) <==>
      t in ts && !IsCompleted(t)
      && ((IsHigh(t) && !HasDue(t)) || (HasDue(t) && timeOf(t.dueDate.value) <= endOfToday))
  {
    var f := Filter(ts, UrgentFilter(endOfToday, timeOf));
    FilterMembers(ts, UrgentFilter(endOfToday, timeOf), t);
    assert t in UrgentTasks(ts, endOfToday, timeOf) <==> t in multiset(f);
  }

  datatype Urgency = Overdue | Today | HighPriority | Normal

  /** `getTaskUrgency`: completed tasks are normal; otherwise a due date
      before today is overdue, one within today is today's, then high
      priority, else normal. */
  function TaskUrgency(t: Task, startOfToday: int, endOfToday: int, timeOf: string -> int): (u: Urgency)
    ensures IsCompleted(t) ==> u == Normal
    ensures u == Overdue <==> !IsCompleted(t) && HasDue(t) && timeOf(t.dueDate.value) < startOfToday
    ensures u == Today <==> !IsCompleted(t) && HasDue(t) && startOfToday <= timeOf(t.dueDate.value) <= endOfToday
    ensures u == HighPriority <==>
      !IsCompleted(t) && IsHigh(t) &&
      (!HasDue(t) || (startOfToday <= timeOf(t.dueDate.value) && endOfToday < timeOf(t.dueDate.value)))
  {
    if IsCompleted(t) then Normal
    else if HasDue(t) && timeOf(t.dueDate.value) < startOfToday then Overdue
    else if HasDue(t) && startOfToday <= timeOf(t.dueDate.value) <= endOfToday then Today
    else if IsHigh(t) then HighPriority
    else Normal
  }

  /** The badge and the urgent list agree: a task that is overdue or due
      today is in the list, and every task in the list carries a badge other
      than "normal". */
  lemma UrgencyMatchesUrgentList(t: Task, startOfToday: int, endOfToday: int, timeOf: string -> int)
    requires startOfToday <= endOfToday
    ensures TaskUrgency(t, startOfToday, endOfToday, timeOf) in {Overdue, Today} ==> Urgent(t, endOfToday, timeOf)
    ensures Urgent(t, endOfToday, timeOf) ==> TaskUrgency(t, startOfToday, endOfToday, timeOf) != Normal
  {
  }
}
