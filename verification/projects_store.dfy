/**
 The action creators and the reducer the slice exports: one action per case
 reducer, dispatched by `Reduce`, plus any other action the store may
 dispatch, which the slice ignores. `SliceReducer` adds the reducer's default
 state, from which the store computes its first state. The clock reading that
 `addProject` and `addTask` take as the new id is the parameter `now`.
 */
module ProjectsStore {
  import opened Wrappers
  import S = ProjectsSlice

  datatype Action =
    | SetLoading(loading: bool)
    | SetError(error: Option<string>)
    | AddProject(draft: S.ProjectDraft)
    | UpdateProject(patch: S.ProjectPatch)
    | DeleteProject(projectId: int)
    | SetSelectedProject(selected: Option<int>)
    | AddTask(projectId: int, task: S.SubtaskDraft)
    | UpdateTask(projectId: int, taskId: int, updates: S.SubtaskPatch)
    | DeleteTask(projectId: int, taskId: int)
      /** An action of a type the slice has no case reducer for (the store's own init action, say). */
    | Other(actionType: string)

  /**
   The slice reducer. The flag actions never touch the project list, the
   project and subtask actions never touch the flags, and only `addProject`
   and `deleteProject` change the number of projects. An action of any other
   type leaves the state as it is.
   */
  function Reduce(s: S.ProjectsState, a: Action, now: int): (r: S.ProjectsState)
    ensures a.SetLoading? || a.SetError? || r.loading == s.loading
    ensures a.SetError? || r.error == s.error
    ensures a.SetSelectedProject? || r.selectedProject == s.selectedProject
    ensures a.SetLoading? || a.SetError? || a.SetSelectedProject? ==> r.projects == s.projects
    ensures a.AddProject? ==> |r.projects| == |s.projects| + 1
    ensures a.DeleteProject? ==> |r.projects| <= |s.projects|
    ensures !a.AddProject? && !a.DeleteProject? ==> |r.projects| == |s.projects|
    ensures a.Other? ==> r == s
  {
    match a
    case SetLoading(loading) => S.SetLoading(s, loading)
    case SetError(error) => S.SetError(s, error)
    case AddProject(draft) => S.AddProject(s, draft, now)
    case UpdateProject(patch) => S.UpdateProject(s, patch)
    case DeleteProject(id) => S.DeleteProject(s, id)
    case SetSelectedProject(selected) => S.SetSelectedProject(s, selected)
    case AddTask(projectId, task) => S.AddTask(s, projectId, task, now)
    case UpdateTask(projectId, taskId, updates) => S.UpdateTask(s, projectId, taskId, updates)
    case DeleteTask(projectId, taskId) => S.DeleteTask(s, projectId, taskId)
    case Other(_) => s
  }

  /**
   The reducer as the store calls it: with no state yet (`undefined`) it
   starts from the seed state. The store's first state, computed from its
   init action, is therefore the seed state.
   */
  function SliceReducer(s: Option<S.ProjectsState>, a: Action, now: int): (r: S.ProjectsState)
    ensures s.None? && a.Other? ==> r == S.InitialState
    ensures s.Some? && a.Other? ==> r == s.value
    ensures s.None? ==> r == Reduce(S.InitialState, a, now)
    ensures s.Some? ==> r == Reduce(s.value, a, now)
  {
    Reduce(s.GetOr(S.InitialState), a, now)
  }

  /** The project ids present, in list order. */
  function ProjectIds(s: S.ProjectsState): (ids: seq<int>)
    ensures |ids| == |s.projects|
    ensures forall i :: 0 <= i < |ids| ==> ids[i] == s.projects[i].id
  {
    seq(|s.projects|, i requires 0 <= i < |s.projects| => s.projects[i].id)
  }

  /**
   Apart from adding and deleting projects, no action changes which project
   ids the list holds or their order: updates merge into a project found by
   its id and keep that id.
   */
  lemma ActionsKeepProjectIds(s: S.ProjectsState, a: Action, now: int)
    requires !a.AddProject? && !a.DeleteProject?
    ensures ProjectIds(Reduce(s, a, now)) == ProjectIds(s)
  {
  }
}
