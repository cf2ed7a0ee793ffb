/**
 * Who sees which project and task. `canViewProject` is written out four
 * times with the same body (components/ProjectsSection.tsx,
 * components/GorevOzeti.tsx, components/TasksTable.tsx,
 * components/DashboardSection.tsx); it is defined once here. A task's
 * visibility follows its project's, with two slightly different tests of
 * "no project".
 */
module Visibility {
  import opened Common
  import Text
  import ProjectFeed
  import TaskFeed

  type Project = ProjectFeed.Project
  type Task = TaskFeed.Task

  /** The signed-in user as the screens see them. */
  datatype Viewer = Viewer(isAdmin: bool, email: string)

  /** One of the project's assigned addresses equals `email` after trimming
      and lower-casing. */
  predicate AssignedTo(p: Project, email: string) {
    p.assignedEmails.Some? && exists i :: 0 <= i < |p.assignedEmails.value| && Text.Norm(p.assignedEmails.value[i]) == email
  }

  /** `canViewProject`: an admin sees every project; a viewer with a blank
      address sees none unless admin; anyone else sees exactly the projects
      assigned to their normalised address. */
  function CanView(p: Project, v: Viewer): (b: bool)
    ensures v.isAdmin ==> b
    ensures Text.Norm(v.email) == "" ==> (b <==> v.isAdmin)
    ensures !v.isAdmin && Text.Norm(v.email) != "" ==> (b <==> AssignedTo(p, Text.Norm(v.email)))
  {
    var email := Text.Norm(v.email);
    if email == "" then v.isAdmin
    else v.isAdmin || (p.assignedEmails.Some? && |p.assignedEmails.value| > 0 && AssignedTo(p, email))
  }

  /** Only the normalised address matters: the screens that lower-case the
      address before passing it in see the same projects as those that do
      not, and surrounding blanks or capitals never change the answer. */
  lemma CanViewNormalised(p: Project, v: Viewer)
    ensures CanView(p, v) == CanView(p, Viewer(v.isAdmin, Text.Lower(v.email)))
  {
    Text.TrimLowerCommute(v.email);
    Text.LowerIdempotent(Text.Trim(v.email));
  }

  /** Assigning one more address never hides a project. */
  lemma AssignMoreKeepsVisible(p: Project, v: Viewer, e: string)
    requires CanView(p, v)
    ensures CanView(p.(assignedEmails := Some(GetOr(p.assignedEmails, []) + [e])), v)
  {
    var q := p.(assignedEmails := Some(GetOr(p.assignedEmails, []) + [e]));
    if !v.isAdmin {
      var email := Text.Norm(v.email);
      var i :| 0 <= i < |p.assignedEmails.value| && Text.Norm(p.assignedEmails.value[i]) == email;
      assert q.assignedEmails.value[i] == p.assignedEmails.value[i];
    }
  }

  /** The ids of the visible projects. */
  function VisibleIds(projects: seq<Project>, v: Viewer): (ids: set<string>)
    ensures forall id :: id in ids <==> exists i :: 0 <= i < |projects| && projects[i].id == id && CanView(projects[i], v)
  {
    set i | 0 <= i < |projects| && CanView(projects[i], v) :: projects[i].id
  }

  /** The task summary's test (components/GorevOzeti.tsx): no project id,
      a blank one, or a visible project's id. */
  predicate SummaryShows(t: Task, ids: set<string>) {
    t.projectId.None? || Text.Trim(t.projectId.value) == "" || t.projectId.value in ids
  }

  /** The dashboard's test (components/DashboardSection.tsx): no project id,
      an empty one, or a visible project's id. */
  predicate DashboardShows(t: Task, ids: set<string>) {
    t.projectId.None? || t.projectId.value == "" || t.projectId.value in ids
  }

  /** Every task the dashboard shows, the summary shows too; the summary also
      shows a task whose project id is only blanks, which the dashboard shows
      only when such an id belongs to a visible project. */
  lemma DashboardWithinSummary(t: Task, ids: set<string>)
    ensures DashboardShows(t, ids) ==> SummaryShows(t, ids)
    ensures SummaryShows(t, ids) && !DashboardShows(t, ids) ==>
      t.projectId.Some? && t.projectId.value != "" && Text.Trim(t.projectId.value) == ""
  {
    if t.projectId.Some? && t.projectId.value == "" {
      assert Text.Trim(t.projectId.value) == "";
    }
  }

  /** An admin sees every task of every listed project. */
  lemma AdminSeesAllTasks(projects: seq<Project>, v: Viewer, t: Task)
    requires v.isAdmin
    requires t.projectId.Some? && exists i :: 0 <= i < |projects| && projects[i].id == t.projectId.value
    ensures DashboardShows(t, VisibleIds(projects, v)) && SummaryShows(t, VisibleIds(projects, v))
  {
  }
}
