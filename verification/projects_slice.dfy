/**
 The `projects` slice of the global store: an ordered list of projects, each
 owning an ordered list of subtasks, plus loading/error/selection flags.
 Every reducer is a pure function from the slice state to the next one.
 Immer's in-place edits become copies that differ in exactly the edited
 place; object spreads and `Object.assign` become patch records whose absent
 fields leave the target untouched; `Date.now()` is the parameter `now`.
 */
module ProjectsSlice {
  import opened Wrappers
  import opened KeyedSeq

  datatype Subtask = Subtask(id: int, title: string, completed: bool, assignee: string)

  function SubtaskKey(t: Subtask): int { t.id }

  datatype Project = Project(
    id: int,
    name: string,
    description: string,
    status: string,
    priority: string,
    startDate: string,
    endDate: string,
    progress: int,
    teamMembers: seq<string>,
    tasks: seq<Subtask>)

  function ProjectKey(p: Project): int { p.id }

  /** The slice state; `None` stands for the initial `null`s. */
  datatype ProjectsState = ProjectsState(
    projects: seq<Project>,
    loading: bool,
    error: Option<string>,
    selectedProject: Option<int>)

  /** The payload of `addProject`; its `id` and `progress`, if any, are overridden. */
  datatype ProjectDraft = ProjectDraft(
    id: Option<int>,
    name: string,
    description: string,
    status: string,
    priority: string,
    startDate: string,
    endDate: string,
    progress: Option<int>,
    teamMembers: seq<string>,
    tasks: Option<seq<Subtask>>)

  /** The payload of `updateProject`: the id to look up and the fields to overwrite. */
  datatype ProjectPatch = ProjectPatch(
    id: int,
    name: Option<string>,
    description: Option<string>,
    status: Option<string>,
    priority: Option<string>,
    startDate: Option<string>,
    endDate: Option<string>,
    progress: Option<int>,
    teamMembers: Option<seq<string>>,
    tasks: Option<seq<Subtask>>)

  /** The `task` of an `addTask` payload; its `id`, if any, is overridden. */
  datatype SubtaskDraft = SubtaskDraft(id: Option<int>, title: string, completed: bool, assignee: string)

  /** The `updates` of an `updateTask` payload, merged with `Object.assign`. */
  datatype SubtaskPatch = SubtaskPatch(
    id: Option<int>,
    title: Option<string>,
    completed: Option<bool>,
    assignee: Option<string>)

  /** The seed state the store starts from. */
  const InitialState := ProjectsState(
    [ Project(1, "Website Redesign", "Complete redesign of the company website", "in-progress", "high",
              "2024-01-15", "2024-03-15", 65, ["John Doe", "Jane Smith", "Mike Johnson"],
              [ Subtask(1, "Design mockups", true, "Jane Smith"),
                Subtask(2, "Frontend development", false, "John Doe"),
                Subtask(3, "Backend integration", false, "Mike Johnson") ]),
      Project(2, "Mobile App Development", "Native mobile app for iOS and Android", "planning", "medium",
              "2024-02-01", "2024-06-01", 15, ["Sarah Wilson", "Tom Brown"],
              [ Subtask(4, "Requirements gathering", true, "Sarah Wilson"),
                Subtask(5, "UI/UX design", false, "Tom Brown") ]) ],
    false, None, None)

  /** Both states agree on the three flags. */
  predicate SameFlags(r: ProjectsState, s: ProjectsState) {
    r.loading == s.loading && r.error == s.error && r.selectedProject == s.selectedProject
  }

  // ---------------------------------------------------------------------------
  // Flag setters

  function SetLoading(s: ProjectsState, loading: bool): (r: ProjectsState)
    ensures r.loading == loading
    ensures r.projects == s.projects && r.error == s.error && r.selectedProject == s.selectedProject
  {
    s.(loading := loading)
  }

  /** Record an error (or clear it with `None`); any pending load is over. */
  function SetError(s: ProjectsState, error: Option<string>): (r: ProjectsState)
    ensures r.error == error && !r.loading
    ensures r.projects == s.projects && r.selectedProject == s.selectedProject
  {
    s.(error := error, loading := false)
  }

  function SetSelectedProject(s: ProjectsState, selected: Option<int>): (r: ProjectsState)
    ensures r.selectedProject == selected
    ensures r.projects == s.projects && r.loading == s.loading && r.error == s.error
  {
    s.(selectedProject := selected)
  }

  /** An error reported while loading ends the load, whatever the loading flag was. */
  lemma ErrorEndsLoading(s: ProjectsState, loading: bool, error: Option<string>)
    ensures SetError(SetLoading(s, loading), error) == SetError(s, error)
    ensures SetLoading(SetError(s, error), false) == SetError(s, error)
  {
  }

  // ---------------------------------------------------------------------------
  // Projects

  /**
   Append one project built from the draft. Its id is `now` and its progress 0
   whatever the draft says; its subtasks are the draft's, or none.
   */
  function AddProject(s: ProjectsState, d: ProjectDraft, now: int): (r: ProjectsState)
    ensures SameFlags(r, s)
    ensures |r.projects| == |s.projects| + 1 && r.projects[..|s.projects|] == s.projects
    ensures var p := r.projects[|s.projects|];
      && p.id == now && p.progress == 0
      && (d.tasks.Some? ==> p.tasks == d.tasks.value)
      && (d.tasks.None? ==> p.tasks == [])
      && p.name == d.name && p.description == d.description && p.status == d.status
      && p.priority == d.priority && p.startDate == d.startDate && p.endDate == d.endDate
      && p.teamMembers == d.teamMembers
  {
    // `{ ...draft, id: now, tasks: draft.tasks || [], progress: 0 }`
    var added := Project(now, d.name, d.description, d.status, d.priority, d.startDate, d.endDate,
                         0, d.teamMembers, d.tasks.GetOr([]));
    var projects := s.projects + [added];
    assert projects[..|s.projects|] == s.projects;
    s.(projects := projects)
  }

  /** The draft's own `id` and `progress` never reach the store. */
  lemma AddProjectIgnoresDraftIdAndProgress(s: ProjectsState, d: ProjectDraft, id: Option<int>, progress: Option<int>, now: int)
    ensures AddProject(s, d.(id := id, progress := progress), now) == AddProject(s, d, now)
  {
  }

  /** `{ ...p, ...patch }`: the fields the patch carries are overwritten, the others kept. */
  function ApplyProjectPatch(p: Project, u: ProjectPatch): (r: Project)
    requires u.id == p.id
    ensures r.id == p.id
    ensures u.name.Some? ==> r.name == u.name.value
    ensures u.name.None? ==> r.name == p.name
    ensures u.description.Some? ==> r.description == u.description.value
    ensures u.description.None? ==> r.description == p.description
    ensures u.status.Some? ==> r.status == u.status.value
    ensures u.status.None? ==> r.status == p.status
    ensures u.priority.Some? ==> r.priority == u.priority.value
    ensures u.priority.None? ==> r.priority == p.priority
    ensures u.startDate.Some? ==> r.startDate == u.startDate.value
    ensures u.startDate.None? ==> r.startDate == p.startDate
    ensures u.endDate.Some? ==> r.endDate == u.endDate.value
    ensures u.endDate.None? ==> r.endDate == p.endDate
    ensures u.progress.Some? ==> r.progress == u.progress.value
    ensures u.progress.None? ==> r.progress == p.progress
    ensures u.teamMembers.Some? ==> r.teamMembers == u.teamMembers.value
    ensures u.teamMembers.None? ==> r.teamMembers == p.teamMembers
    ensures u.tasks.Some? ==> r.tasks == u.tasks.value
    ensures u.tasks.None? ==> r.tasks == p.tasks
  {
    Project(u.id, u.name.GetOr(p.name), u.description.GetOr(p.description), u.status.GetOr(p.status),
            u.priority.GetOr(p.priority), u.startDate.GetOr(p.startDate), u.endDate.GetOr(p.endDate),
            u.progress.GetOr(p.progress), u.teamMembers.GetOr(p.teamMembers), u.tasks.GetOr(p.tasks))
  }

  /** A patch that carries only the id. */
  function EmptyPatch(id: int): ProjectPatch {
    ProjectPatch(id, None, None, None, None, None, None, None, None, None)
  }

  /**
   Merge the patch into the first project whose id matches; every other
   project, and the order, stay as they were. No match, no change.
   */
  function UpdateProject(s: ProjectsState, u: ProjectPatch): (r: ProjectsState)
    ensures SameFlags(r, s)
    ensures |r.projects| == |s.projects|
    ensures FindFirst(s.projects, ProjectKey, u.id).None? ==> r == s
    ensures FindFirst(s.projects, ProjectKey, u.id).Some? ==>
      var i := FindFirst(s.projects, ProjectKey, u.id).value;
      && r.projects[i] == ApplyProjectPatch(s.projects[i], u)
      && forall j :: 0 <= j < |s.projects| && j != i ==> r.projects[j] == s.projects[j]
  {
    match FindFirst(s.projects, ProjectKey, u.id)
    case None => s
    case Some(i) => s.(projects := s.projects[i := ApplyProjectPatch(s.projects[i], u)])
  }

  /** Updating never changes which project is found for an id. */
  lemma UpdateProjectKeepsIds(s: ProjectsState, u: ProjectPatch, k: int)
    ensures FindFirst(UpdateProject(s, u).projects, ProjectKey, k) == FindFirst(s.projects, ProjectKey, k)
  {
  }

  /** Applying the same patch twice is applying it once. */
  lemma UpdateProjectIdempotent(s: ProjectsState, u: ProjectPatch)
    ensures UpdateProject(UpdateProject(s, u), u) == UpdateProject(s, u)
  {
  }

  /** A patch with no fields besides the id changes nothing. */
  lemma UpdateProjectEmptyPatch(s: ProjectsState, id: int)
    ensures UpdateProject(s, EmptyPatch(id)) == s
  {
  }

  /** Remove every project with the id; the others keep their order. */
  function DeleteProject(s: ProjectsState, id: int): (r: ProjectsState)
    ensures SameFlags(r, s)
    ensures FindFirst(r.projects, ProjectKey, id).None?
    ensures |r.projects| == |s.projects| - Count(s.projects, ProjectKey, id)
    ensures forall j :: 0 <= j < |s.projects| && s.projects[j].id != id ==> s.projects[j] in r.projects
    ensures forall j :: 0 <= j < |r.projects| ==> r.projects[j] in s.projects
  {
    s.(projects := Without(s.projects, ProjectKey, id))
  }

  /** Projects that survive a delete keep their relative order. */
  lemma DeleteProjectKeepsOrder(s: ProjectsState, id: int, i: nat, j: nat)
    requires i < j < |s.projects| && s.projects[i].id != id && s.projects[j].id != id
    ensures var r := DeleteProject(s, id).projects;
      exists i', j' :: 0 <= i' < j' < |r| && r[i'] == s.projects[i] && r[j'] == s.projects[j]
  {
    var r := DeleteProject(s, id).projects;
    assert r == Without(s.projects, ProjectKey, id);
    WithoutKeepsOrder(s.projects, ProjectKey, id, i, j);
    var i', j' :| 0 <= i' < j' < |r| && r[i'] == s.projects[i] && r[j'] == s.projects[j];
  }

  /**
   Deleting the selected project does not clear the selection: the state is
   left pointing at a project that no longer exists.
   */
  lemma SelectionSurvivesDelete(s: ProjectsState, id: int)
    ensures var r := DeleteProject(SetSelectedProject(s, Some(id)), id);
      r.selectedProject == Some(id) && forall j :: 0 <= j < |r.projects| ==> r.projects[j].id != id
  {
  }

  /** Deleting a freshly added project restores the state, when its id was not in use. */
  lemma AddThenDeleteProject(s: ProjectsState, d: ProjectDraft, now: int)
    requires Count(s.projects, ProjectKey, now) == 0
    ensures DeleteProject(AddProject(s, d, now), now) == s
  {
    var added := AddProject(s, d, now).projects[|s.projects|];
    assert AddProject(s, d, now).projects == s.projects + [added];
    WithoutAppend(s.projects, [added], ProjectKey, now);
    WithoutAbsent(s.projects, ProjectKey, now);
  }

  // ---------------------------------------------------------------------------
  // Subtasks of a project

  /**
   Append a subtask with id `now` to the first project whose id matches; the
   other projects are untouched. No match, no change.
   */
  function AddTask(s: ProjectsState, projectId: int, t: SubtaskDraft, now: int): (r: ProjectsState)
    ensures SameFlags(r, s)
    ensures |r.projects| == |s.projects|
    ensures FindFirst(s.projects, ProjectKey, projectId).None? ==> r == s
    ensures FindFirst(s.projects, ProjectKey, projectId).Some? ==>
      var i := FindFirst(s.projects, ProjectKey, projectId).value;
      && r.projects[i] == s.projects[i].(tasks := s.projects[i].tasks + [Subtask(now, t.title, t.completed, t.assignee)])
      && forall j :: 0 <= j < |s.projects| && j != i ==> r.projects[j] == s.projects[j]
  {
    match FindFirst(s.projects, ProjectKey, projectId)
    case None => s
    case Some(i) =>
      var p := s.projects[i];
      s.(projects := s.projects[i := p.(tasks := p.tasks + [Subtask(now, t.title, t.completed, t.assignee)])])
  }

  /** `Object.assign(task, updates)`: the fields the patch carries are overwritten, the others kept. */
  function ApplySubtaskPatch(t: Subtask, u: SubtaskPatch): (r: Subtask)
    ensures u.id.Some? ==> r.id == u.id.value
    ensures u.id.None? ==> r.id == t.id
    ensures u.title.Some? ==> r.title == u.title.value
    ensures u.title.None? ==> r.title == t.title
    ensures u.completed.Some? ==> r.completed == u.completed.value
    ensures u.completed.None? ==> r.completed == t.completed
    ensures u.assignee.Some? ==> r.assignee == u.assignee.value
    ensures u.assignee.None? ==> r.assignee == t.assignee
  {
    Subtask(u.id.GetOr(t.id), u.title.GetOr(t.title), u.completed.GetOr(t.completed), u.assignee.GetOr(t.assignee))
  }

  /**
   Merge the patch into the first subtask with id `taskId` of the first project
   with id `projectId`; nothing else changes. No such project or subtask, no change.
   */
  function UpdateTask(s: ProjectsState, projectId: int, taskId: int, u: SubtaskPatch): (r: ProjectsState)
    ensures SameFlags(r, s)
    ensures |r.projects| == |s.projects|
    ensures FindFirst(s.projects, ProjectKey, projectId).None? ==> r == s
    ensures FindFirst(s.projects, ProjectKey, projectId).Some? ==>
      var i := FindFirst(s.projects, ProjectKey, projectId).value;
      var ts := s.projects[i].tasks;
      && (forall j :: 0 <= j < |s.projects| && j != i ==> r.projects[j] == s.projects[j])
      && (FindFirst(ts, SubtaskKey, taskId).None? ==> r == s)
      && (FindFirst(ts, SubtaskKey, taskId).Some? ==>
            var k := FindFirst(ts, SubtaskKey, taskId).value;
            && r.projects[i] == s.projects[i].(tasks := ts[k := ApplySubtaskPatch(ts[k], u)]))
  {
    match FindFirst(s.projects, ProjectKey, projectId)
    case None => s
    case Some(i) =>
      var p := s.projects[i];
      match FindFirst(p.tasks, SubtaskKey, taskId)
      case None => s
      case Some(k) =>
        s.(projects := s.projects[i := p.(tasks := p.tasks[k := ApplySubtaskPatch(p.tasks[k], u)])])
  }

  /** A patch that keeps the subtask's id can be applied twice to the same effect as once. */
  lemma UpdateTaskIdempotent(s: ProjectsState, projectId: int, taskId: int, u: SubtaskPatch)
    requires u.id.None? || u.id == Some(taskId)
    ensures UpdateTask(UpdateTask(s, projectId, taskId, u), projectId, taskId, u) == UpdateTask(s, projectId, taskId, u)
  {
    match FindFirst(s.projects, ProjectKey, projectId)
    case None =>
    case Some(i) =>
      var p := s.projects[i];
      match FindFirst(p.tasks, SubtaskKey, taskId)
      case None =>
      case Some(k) =>
        var t' := ApplySubtaskPatch(p.tasks[k], u);
        var p' := p.(tasks := p.tasks[k := t']);
        var r := s.(projects := s.projects[i := p']);
        assert UpdateTask(s, projectId, taskId, u) == r;
        assert FindFirst(r.projects, ProjectKey, projectId) == Some(i) by {
          FindFirstSameKeys(r.projects, s.projects, ProjectKey, projectId);
        }
        assert FindFirst(p'.tasks, SubtaskKey, taskId) == Some(k) by {
          FindFirstSameKeys(p'.tasks, p.tasks, SubtaskKey, taskId);
        }
        assert ApplySubtaskPatch(t', u) == t';
        assert p'.tasks[k := t'] == p'.tasks;
        assert r.projects[i] == p' && r.projects[i := p'] == r.projects;
        calc {
          UpdateTask(r, projectId, taskId, u);
          r.(projects := r.projects[i := p'.(tasks := p'.tasks[k := t'])]);
          r;
        }
  }

  /** Remove every subtask with id `taskId` from the first project with id `projectId` only. */
  function DeleteTask(s: ProjectsState, projectId: int, taskId: int): (r: ProjectsState)
    ensures SameFlags(r, s)
    ensures |r.projects| == |s.projects|
    ensures FindFirst(s.projects, ProjectKey, projectId).None? ==> r == s
    ensures FindFirst(s.projects, ProjectKey, projectId).Some? ==>
      var i := FindFirst(s.projects, ProjectKey, projectId).value;
      && r.projects[i] == s.projects[i].(tasks := Without(s.projects[i].tasks, SubtaskKey, taskId))
      && forall j :: 0 <= j < |s.projects| && j != i ==> r.projects[j] == s.projects[j]
  {
    match FindFirst(s.projects, ProjectKey, projectId)
    case None => s
    case Some(i) =>
      var p := s.projects[i];
      s.(projects := s.projects[i := p.(tasks := Without(p.tasks, SubtaskKey, taskId))])
  }

  /**
   Deleting the subtask just added restores the state, provided its id was
   not already used in that project's subtasks.
   */
  lemma AddThenDeleteTask(s: ProjectsState, projectId: int, t: SubtaskDraft, now: int)
    requires FindFirst(s.projects, ProjectKey, projectId).Some? ==>
      Count(s.projects[FindFirst(s.projects, ProjectKey, projectId).value].tasks, SubtaskKey, now) == 0
    ensures DeleteTask(AddTask(s, projectId, t, now), projectId, now) == s
  {
    match FindFirst(s.projects, ProjectKey, projectId)
    case None =>
    case Some(i) =>
      var p := s.projects[i];
      var added := Subtask(now, t.title, t.completed, t.assignee);
      var a := s.(projects := s.projects[i := p.(tasks := p.tasks + [added])]);
      assert AddTask(s, projectId, t, now) == a;
      assert FindFirst(a.projects, ProjectKey, projectId) == Some(i) by {
        FindFirstSameKeys(a.projects, s.projects, ProjectKey, projectId);
      }
      assert Without(p.tasks + [added], SubtaskKey, now) == p.tasks by {
        WithoutAppend(p.tasks, [added], SubtaskKey, now);
        WithoutAbsent(p.tasks, SubtaskKey, now);
      }
      assert s.projects[i := p] == s.projects;
  }

  /** The subtask edit of the seed data: completing subtask 2 of project 1 touches nothing else. */
  lemma CompleteSeedSubtask()
    ensures var r := UpdateTask(InitialState, 1, 2, SubtaskPatch(None, None, Some(true), None));
      && r.projects[0].tasks == [InitialState.projects[0].tasks[0],
                                 InitialState.projects[0].tasks[1].(completed := true),
                                 InitialState.projects[0].tasks[2]]
      && r.projects[1] == InitialState.projects[1]
  {
  }
}
