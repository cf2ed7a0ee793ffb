/**
 * The notification summary of hooks/useNotificationSummary.ts: how many
 * projects and tasks are assigned to the signed-in user, how many of those
 * tasks are overdue, and the badge total. Today's date (as the `yyyy-mm-dd`
 * text the source cuts from the clock) is an input.
 */
module Notifications {
  import opened Common
  import Text
  import TaskFeed
  import ProjectFeed

  type Task = TaskFeed.Task
  type Project = ProjectFeed.Project

  // ---------------------------------------------------------------------------
  // String order

  /** `a < b` on strings: lexicographic by character. */
  predicate Before(a: string, b: string)
    decreases |a|
  {
    if |a| == 0 then |b| > 0
    else if |b| == 0 then false
    else a[0] < b[0] || (a[0] == b[0] && Before(a[1..], b[1..]))
  }

  /** No string is before itself. */
  lemma {:induction false} BeforeIrreflexive(a: string)
    ensures !Before(a, a)
    decreases |a|
  {
    if |a| > 0 {
      BeforeIrreflexive(a[1..]);
    }
  }

  /** The order is transitive. */
  lemma {:induction false} BeforeTransitive(a: string, b: string, c: string)
    requires Before(a, b) && Before(b, c)
    ensures Before(a, c)
    decreases |a|
  {
    if |a| > 0 && |b| > 0 && |c| > 0 && a[0] == b[0] && b[0] == c[0] {
      BeforeTransitive(a[1..], b[1..], c[1..]);
    }
  }

  // ---------------------------------------------------------------------------
  // Whose projects and tasks

  function AssignedProject(email: string): Project -> bool {
    (p: Project) => exists i :: 0 <= i < |GetOr(p.assignedEmails, [])| && Text.Norm(GetOr(p.assignedEmails, [])[i]) == email
  }

  function MyTask(email: string): Task -> bool {
    (t: Task) => Text.Norm(GetOr(t.assignee, "")) == email
  }

  /** A due date present, not blank, and before today. */
  predicate IsOverdue(t: Task, today: string) {
    t.dueDate.Some? && t.dueDate.value != "" && Text.Trim(t.dueDate.value) != "" && Before(t.dueDate.value, today)
  }

  function OverdueTask(today: string): Task -> bool {
    (t: Task) => IsOverdue(t, today)
  }

  function AssignedProjects(projects: seq<Project>, email: string): (r: seq<Project>)
    ensures forall p :: p in r <==> p in projects && AssignedProject(email)(p)
  {
    forall p ensures p in Filter(projects, AssignedProject(email)) <==> p in projects && AssignedProject(email)(p) {
      FilterMembers(projects, AssignedProject(email), p);
    }
    Filter(projects, AssignedProject(email))
  }

  function MyTasks(tasks: seq<Task>, email: string): (r: seq<Task>)
    ensures forall t :: t in r <==> t in tasks && Text.Norm(GetOr(t.assignee, "")) == email
  {
    forall t ensures t in Filter(tasks, MyTask(email)) <==> t in tasks && MyTask(email)(t) {
      FilterMembers(tasks, MyTask(email), t);
    }
    Filter(tasks, MyTask(email))
  }

  /** The overdue tasks are some of the user's tasks, in the same order. */
  function OverdueTasks(mine: seq<Task>, today: string): (r: seq<Task>)
    ensures IsSubsequence(r, mine)
    ensures forall t :: t in r <==> t in mine && IsOverdue(t, today)
  {
    FilterIsSubsequence(mine, OverdueTask(today));
    forall t ensures t in Filter(mine, OverdueTask(today)) <==> t in mine && IsOverdue(t, today) {
      FilterMembers(mine, OverdueTask(today), t);
    }
    Filter(mine, OverdueTask(today))
  }

  /** A task due today, or on a later day written the same way, is not
      overdue. */
  lemma DueTodayIsNotOverdue(t: Task, today: string)
    requires t.dueDate == Some(today) || (t.dueDate.Some? && Before(today, t.dueDate.value))
    ensures !IsOverdue(t, today)
  {
    BeforeIrreflexive(today);
    if IsOverdue(t, today) && t.dueDate.value != today {
      BeforeTransitive(today, t.dueDate.value, today);
    }
  }

  // ---------------------------------------------------------------------------
  // The summary

  datatype Kind = ProjectAssigned | TaskAssigned | Overdue

  function KindOrder(k: Kind): nat {
    match k
    case ProjectAssigned => 0
    case TaskAssigned => 1
    case Overdue => 2
  }

  datatype Item = Item(kind: Kind, caption: string, href: string, count: nat)

  datatype Summary = Summary(totalCount: nat, items: seq<Item>, isLoading: bool)

  function ProjectsItem(n: nat): (item: Item)
    ensures item.kind == ProjectAssigned && item.count == n
  {
    Item(ProjectAssigned, "Size " + Text.NatToString(n) + " proje atandı", "/projeler", n)
  }

  function TasksItem(n: nat): (item: Item)
    ensures item.kind == TaskAssigned && item.count == n
  {
    Item(TaskAssigned, "Size " + Text.NatToString(n) + " görev atandı", "/canli-tablo", n)
  }

  function OverdueItem(n: nat): (item: Item)
    ensures item.kind == Overdue && item.count == n
  {
    Item(Overdue, Text.NatToString(n) + " gecikmiş görev", "/canli-tablo", n)
  }

  function ItemIf(n: nat, item: Item): (r: seq<Item>)
    ensures |r| <= 1
    ensures r == [] <==> n == 0
    ensures n > 0 ==> r == [item]
  {
    if n > 0 then [item] else []
  }

  function SumCounts(items: seq<Item>): nat
    decreases |items|
  {
    if |items| == 0 then 0 else items[0].count + SumCounts(items[1..])
  }

  lemma {:induction false} SumCountsAppend(a: seq<Item>, b: seq<Item>)
    ensures SumCounts(a + b) == SumCounts(a) + SumCounts(b)
    decreases |a|
  {
    if |a| > 0 {
      assert (a + b)[1..] == a[1..] + b;
      SumCountsAppend(a[1..], b);
    } else {
      assert a + b == b;
    }
  }

  /** The items for the three counts, each only when non-zero. */
  function Items(projects: nat, tasks: nat, overdue: nat): (items: seq<Item>)
    ensures forall i :: 0 <= i < |items| ==> items[i].count > 0
    ensures forall i, j :: 0 <= i < j < |items| ==> KindOrder(items[i].kind) < KindOrder(items[j].kind)
    ensures SumCounts(items) == projects + tasks + overdue
    ensures (exists i :: 0 <= i < |items| && items[i].kind == ProjectAssigned) <==> projects > 0
    ensures (exists i :: 0 <= i < |items| && items[i].kind == TaskAssigned) <==> tasks > 0
    ensures (exists i :: 0 <= i < |items| && items[i].kind == Overdue) <==> overdue > 0
  {
    ItemsFacts(projects, tasks, overdue);
    ItemIf(projects, ProjectsItem(projects)) + ItemIf(tasks, TasksItem(tasks)) + ItemIf(overdue, OverdueItem(overdue))
  }

  lemma ItemsFacts(projects: nat, tasks: nat, overdue: nat)
    ensures var items := ItemIf(projects, ProjectsItem(projects)) + ItemIf(tasks, TasksItem(tasks))
                         + ItemIf(overdue, OverdueItem(overdue));
      && (forall i :: 0 <= i < |items| ==> items[i].count > 0)
      && (forall i, j :: 0 <= i < j < |items| ==> KindOrder(items[i].kind) < KindOrder(items[j].kind))
      && SumCounts(items) == projects + tasks + overdue
      && ((exists i :: 0 <= i < |items| && items[i].kind == ProjectAssigned) <==> projects > 0)
      && ((exists i :: 0 <= i < |items| && items[i].kind == TaskAssigned) <==> tasks > 0)
      && ((exists i :: 0 <= i < |items| && items[i].kind == Overdue) <==> overdue > 0)
  {
    var a := ItemIf(projects, ProjectsItem(projects));
    var b := ItemIf(tasks, TasksItem(tasks));
    var c := ItemIf(overdue, OverdueItem(overdue));
    GroupFacts(projects, ProjectsItem(projects));
    GroupFacts(tasks, TasksItem(tasks));
    GroupFacts(overdue, OverdueItem(overdue));
    SumCountsAppend(a, b);
    SumCountsAppend(a + b, c);
    ConcatKinds(a, b, c);
  }

  /** The group of one count: of the item's kind, counting `n`, and empty
      exactly when `n` is zero. */
  lemma GroupFacts(n: nat, item: Item)
    requires item.count == n
    ensures AllOfKind(ItemIf(n, item), item.kind)
    ensures SumCounts(ItemIf(n, item)) == n
    ensures |ItemIf(n, item)| > 0 <==> n > 0
  {
  }

  /** Holds of `items` when every entry has kind `k` and a positive count. */
  predicate AllOfKind(items: seq<Item>, k: Kind) {
    forall i :: 0 <= i < |items| ==> items[i].kind == k && items[i].count > 0
  }

  /** Entries from three groups, each of one kind and in kind order, come
      out in kind order, and each kind occurs exactly when its group is
      not empty. */
  lemma ConcatKinds(a: seq<Item>, b: seq<Item>, c: seq<Item>)
    requires AllOfKind(a, ProjectAssigned) && AllOfKind(b, TaskAssigned) && AllOfKind(c, Overdue)
    requires |a| <= 1 && |b| <= 1 && |c| <= 1
    ensures var r := a + b + c;
      && (forall i :: 0 <= i < |r| ==> r[i].count > 0)
      && (forall i, j :: 0 <= i < j < |r| ==> KindOrder(r[i].kind) < KindOrder(r[j].kind))
      && ((exists i :: 0 <= i < |r| && r[i].kind == ProjectAssigned) <==> |a| > 0)
      && ((exists i :: 0 <= i < |r| && r[i].kind == TaskAssigned) <==> |b| > 0)
      && ((exists i :: 0 <= i < |r| && r[i].kind == Overdue) <==> |c| > 0)
  {
    var r := a + b + c;
    forall i | 0 <= i < |r|
      ensures r[i].count > 0
      ensures r[i].kind == ProjectAssigned <==> i < |a|
      ensures r[i].kind == TaskAssigned <==> |a| <= i < |a| + |b|
      ensures r[i].kind == Overdue <==> |a| + |b| <= i
    {
      if i < |a| { assert r[i] == a[i]; }
      else if i < |a| + |b| { assert r[i] == b[i - |a|]; }
      else { assert r[i] == c[i - |a| - |b|]; }
    }
    if |a| > 0 { assert r[0].kind == ProjectAssigned; }
    if |b| > 0 { assert r[|a|].kind == TaskAssigned; }
    if |c| > 0 { assert r[|a| + |b|].kind == Overdue; }
  }

  /** `useNotificationSummary`. */
  function Summarize(currentEmail: Option<string>, projects: seq<Project>, tasks: seq<Task>, today: string,
                     projectsLoading: bool, tasksLoading: bool): (s: Summary)
    ensures s.isLoading <==> projectsLoading || tasksLoading
    ensures s.totalCount == SumCounts(s.items)
    ensures Text.Norm(GetOr(currentEmail, "")) == "" ==> s.totalCount == 0 && s.items == []
  {
    var email := Text.Norm(GetOr(currentEmail, ""));
    if email == "" then Summary(0, [], projectsLoading || tasksLoading)
    else
      var mine := MyTasks(tasks, email);
      var items := Items(|AssignedProjects(projects, email)|, |mine|, |OverdueTasks(mine, today)|);
      Summary(SumCounts(items), items, projectsLoading || tasksLoading)
  }

  /** For a signed-in user the badge total is the number of assigned
      projects, plus assigned tasks, plus overdue tasks among them; so it
      counts each overdue task twice, and the overdue count never exceeds the
      assigned-task count. */
  lemma SummaryTotal(currentEmail: Option<string>, projects: seq<Project>, tasks: seq<Task>, today: string,
                     projectsLoading: bool, tasksLoading: bool)
    requires Text.Norm(GetOr(currentEmail, "")) != ""
    ensures var email := Text.Norm(GetOr(currentEmail, ""));
      var mine := MyTasks(tasks, email);
      && Summarize(currentEmail, projects, tasks, today, projectsLoading, tasksLoading).totalCount
         == |AssignedProjects(projects, email)| + |mine| + |OverdueTasks(mine, today)|
      && |OverdueTasks(mine, today)| <= |mine|
  {
    var email := Text.Norm(GetOr(currentEmail, ""));
    var mine := MyTasks(tasks, email);
    SubsequenceLength(OverdueTasks(mine, today), mine);
  }

  lemma {:induction false} SubsequenceLength<T>(t: seq<T>, s: seq<T>)
    requires IsSubsequence(t, s)
    ensures |t| <= |s|
    decreases |s|
  {
    if |t| > 0 {
      if |s| > 0 && t[0] == s[0] {
        SubsequenceLength(t[1..], s[1..]);
      } else {
        SubsequenceLength(t, s[1..]);
      }
    }
  }

  /** Matching ignores surrounding blanks and capitals on both sides. */
  lemma MatchingIgnoresCase(t: Task, email: string)
    ensures MyTask(Text.Norm(email))(t) == MyTask(Text.Norm(email))(t.(assignee := Some(Text.Lower(GetOr(t.assignee, "")))))
  {
    var a := GetOr(t.assignee, "");
    Text.TrimLowerCommute(a);
    Text.LowerIdempotent(Text.Trim(a));
  }
}
