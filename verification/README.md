# Task board state transitions, in Dafny

A verified functional model of the two pieces of state logic in the task
board application:

- the **kanban board** of the main feature component: four fixed columns
  (`todo`, `inprogress`, `review`, `done`) mapping to ordered lists of task
  cards, with the drop, create and delete handlers (module `Kanban`);
- the **projects slice** of the global store: a list of projects each owning
  a list of subtasks, plus loading/error/selection flags, with its nine case
  reducers (module `ProjectsSlice`) and the action type and dispatcher they
  are exported as (module `ProjectsStore`).

Shared pieces: `KeyedSeq` gives one definition of the array idioms the
layers use (`filter` by id in both layers, `find`/`findIndex` by id in the
projects slice) and of the count of an id that the proofs use, with a
key function so that cards, projects and subtasks share it; `JsText` models
`String.prototype.trim`, which the create form's validation uses; `Wrappers`
holds `Option`.

Every state change is a pure function from one state to the next. React's
`setState` updaters and Immer's in-place edits become copies that differ in
exactly the edited place. Object spreads and `Object.assign` merges become
patch records whose absent fields leave the target alone. `Date.now()`, the
one clock read, is a parameter (`newId`, `now`). The component's drag state
is the captured `(task, sourceColumn)` pair, or nothing.

Three behaviours of the code differ from what a reader might expect, and the
model follows the code:

- One might expect a drop of a card that is no longer in its source column
  to do nothing. The code still filters the source and appends the captured card to
  the target, so the board grows by one card (`Kanban.MoveOfMissingCardAddsIt`).
- One might expect delete to remove a single card. The code filters, so it
  removes every card with that id from the column.
- The create handler checks the trimmed title twice
  (src/components/MainFeature.jsx:133-141). The second check can never fire
  and is modelled once. The stored title is the untrimmed form text.

Two behaviours of the code are worth knowing and are proved rather than
changed: `deleteProject` does not clear a selection that names the deleted
project (`ProjectsSlice.SelectionSurvivesDelete`), and `updateTask` copies an
`id` in the patch onto the subtask, so an update can rename a subtask
(`ProjectsSlice.ApplySubtaskPatch`).

## Model

| member | source | states |
|---|---|---|
| `Kanban.Drop` | src/components/MainFeature.jsx:105-125 | with no drag the state is unchanged; a drop always clears the drag and keeps the form; on the source column the board is unchanged; otherwise every card with the dragged id leaves the source, the captured card is appended to the target, and the other two columns are untouched |
| `Kanban.MoveCard` | src/components/MainFeature.jsx:117-121 | the move updater: source filtered by the card's id, target gains the captured card at its end, the remaining columns equal the old ones |
| `Kanban.MoveIdCount` | src/components/MainFeature.jsx:117-121 | a move leaves every other id's board-wide count alone; the moved id loses all its source occurrences and gains exactly one |
| `Kanban.MovePreservesCards` | src/components/MainFeature.jsx:117-121 | when the dragged id occurs exactly once in the source, a move keeps the total card count and every id's count, so a board with unique ids keeps them |
| `Kanban.MoveOfMissingCardAddsIt` | src/components/MainFeature.jsx:117-121 | when the source no longer holds the dragged id, the drop still appends the card: the board grows by one and the id's count rises by one |
| `Kanban.DragAndDropMovesCard` | src/components/MainFeature.jsx:95-125 | on a board with unique ids, dragging the card at position i of one column and dropping it on another removes exactly position i from the source, appends that card to the target, and keeps ids unique |
| `Kanban.WithColumn` | src/components/MainFeature.jsx:172-175 | `{ ...prev, [c]: s }`: column c becomes s and the other three columns are unchanged |
| `Kanban.StartDrag` | src/components/MainFeature.jsx:95-96 | drag start records the card and its column and changes nothing else |
| `Kanban.CreateTask` | src/components/MainFeature.jsx:132-169 | a title that trims to empty is refused with "title required", then an empty assignee with "assignee required", both leaving the state unchanged; creation succeeds exactly when neither holds, and then appends one card to the end of To Do carrying the form's title, description, priority, assignee and due date, the given id and no tags, leaves the other columns and the drag alone, and resets the form to its defaults |
| `Kanban.CreateKeepsIdsUnique` | src/components/MainFeature.jsx:148-157 | a successful create with an id no card carries puts that id on the board exactly once, grows the board by one card and preserves the unique-id invariant |
| `Kanban.DeleteTask` | src/components/MainFeature.jsx:171-177 | the named column becomes its cards without the id, in order; the other columns, the drag and the form are unchanged |
| `Kanban.DeleteNoopIffAbsent` | src/components/MainFeature.jsx:171-175 | a delete leaves the state unchanged if and only if the column holds no card with the id |
| `Kanban.DeleteKeepsIdsUnique` | src/components/MainFeature.jsx:171-175 | after a delete the column holds no card with the id, every other id's count is unchanged, unique ids stay unique, and a second identical delete changes nothing |
| `Kanban.InitialBoardIdsUnique` | src/components/MainFeature.jsx:21-75 | the seed board holds five cards with pairwise distinct ids |
| `JsText.Trim` | src/components/MainFeature.jsx:133 | `trim` returns an infix of the string with only whitespace cut on either side, and a non-empty result starts and ends with a non-whitespace character |
| `JsText.TrimEmptyIffBlank` | src/components/MainFeature.jsx:133 | the trimmed title is empty (falsy) exactly when the title is all whitespace |
| `KeyedSeq.Without` | src/store/projectsSlice.js:69 | `filter(x => x.id !== k)` keeps exactly the elements whose id is not k: its length drops by the number of k's, no k remains, every kept element comes from the input and every non-k element is kept |
| `KeyedSeq.WithoutAppend` | src/components/MainFeature.jsx:174 | filtering distributes over concatenation, so the kept elements stay in their original order |
| `KeyedSeq.WithoutKeepsOrder` | src/components/MainFeature.jsx:174 | any two kept elements appear in the filtered list in the same relative order as before |
| `KeyedSeq.WithoutAbsent` | src/components/MainFeature.jsx:174 | filtering by an id is the identity if and only if no element carries that id |
| `KeyedSeq.CountWithout` | src/store/projectsSlice.js:95 | after filtering id k, k occurs zero times and every other id as often as before |
| `KeyedSeq.WithoutIdempotent` | src/store/projectsSlice.js:69 | filtering twice by the same id equals filtering once |
| `KeyedSeq.WithoutUniqueAt` | src/components/MainFeature.jsx:119 | when an element is the only one with its id, filtering that id removes exactly its position |
| `KeyedSeq.FindFirst` | src/store/projectsSlice.js:63 | `findIndex` by id returns the first position holding the id, with no earlier match, and reports not-found exactly when no element holds it |
| `KeyedSeq.FindFirstSameKeys` | src/store/projectsSlice.js:76 | the first match depends only on the ids position by position |
| `ProjectsSlice.SetLoading` | src/store/projectsSlice.js:46-48 | sets `loading` to the payload and changes nothing else |
| `ProjectsSlice.SetError` | src/store/projectsSlice.js:49-52 | stores the error (or its absence), forces `loading` to false, and keeps the projects and selection |
| `ProjectsSlice.SetSelectedProject` | src/store/projectsSlice.js:71-73 | sets the selection to the payload and changes nothing else |
| `ProjectsSlice.ErrorEndsLoading` | src/store/projectsSlice.js:46-52 | an error after any loading update equals the error alone, and clearing loading after an error changes nothing |
| `ProjectsSlice.AddProject` | src/store/projectsSlice.js:53-61 | appends exactly one project after the unchanged existing ones, with id `now`, progress 0, the draft's subtasks or none when absent, and the draft's other fields; flags unchanged |
| `ProjectsSlice.AddProjectIgnoresDraftIdAndProgress` | src/store/projectsSlice.js:54-59 | an id or progress in the payload has no effect on the result |
| `ProjectsSlice.ApplyProjectPatch` | src/store/projectsSlice.js:65 | every field the patch carries is overwritten, every other field and the id are kept |
| `ProjectsSlice.UpdateProject` | src/store/projectsSlice.js:62-67 | with no project of the id the state is unchanged; otherwise the first project with the id is patched and every other project keeps its value and position |
| `ProjectsSlice.UpdateProjectKeepsIds` | src/store/projectsSlice.js:62-67 | an update never changes which project an id lookup finds |
| `ProjectsSlice.UpdateProjectIdempotent` | src/store/projectsSlice.js:62-67 | applying the same update twice equals applying it once |
| `ProjectsSlice.UpdateProjectEmptyPatch` | src/store/projectsSlice.js:65 | an update carrying only the id changes nothing |
| `ProjectsSlice.DeleteProject` | src/store/projectsSlice.js:68-70 | afterwards no project has the id, the list shrinks by the number of projects that had it, every other project is kept and nothing new appears; flags unchanged |
| `ProjectsSlice.DeleteProjectKeepsOrder` | src/store/projectsSlice.js:68-70 | two projects that survive a delete keep their relative order |
| `ProjectsSlice.SelectionSurvivesDelete` | src/store/projectsSlice.js:68-73 | deleting the selected project leaves the selection naming an id no project has |
| `ProjectsSlice.AddThenDeleteProject` | src/store/projectsSlice.js:53-70 | deleting a just-added project whose id was unused restores the state |
| `ProjectsSlice.AddTask` | src/store/projectsSlice.js:74-80 | with no project of the id the state is unchanged; otherwise the first matching project gains one subtask at the end with id `now` and the draft's title, completion and assignee, and nothing else changes |
| `ProjectsSlice.ApplySubtaskPatch` | src/store/projectsSlice.js:87 | `Object.assign` overwrites exactly the fields the patch carries, including the id |
| `ProjectsSlice.UpdateTask` | src/store/projectsSlice.js:81-90 | if the project or the subtask is missing the state is unchanged; otherwise only the first matching subtask of the first matching project is patched, and every other project and subtask is kept |
| `ProjectsSlice.UpdateTaskIdempotent` | src/store/projectsSlice.js:81-90 | an update that keeps the subtask's id, applied twice, equals applying it once |
| `ProjectsSlice.DeleteTask` | src/store/projectsSlice.js:91-97 | if the project is missing the state is unchanged; otherwise the first matching project's subtasks lose every subtask with the id, in order, and every other project is kept |
| `ProjectsSlice.AddThenDeleteTask` | src/store/projectsSlice.js:74-97 | deleting a just-added subtask whose id was unused in that project restores the state |
| `ProjectsSlice.CompleteSeedSubtask` | src/store/projectsSlice.js:15-19 | on the seed data, completing subtask 2 of project 1 flips only that subtask's flag; subtasks 1 and 3 and project 2 are unchanged |
| `ProjectsStore.Reduce` | src/store/projectsSlice.js:42-113 | flag actions never touch the project list, project and subtask actions never touch the flags, only adding or deleting a project changes the number of projects, and an action of a type the slice does not handle leaves the state unchanged |
| `ProjectsStore.SliceReducer` | src/store/projectsSlice.js:42-44 | with no state yet (`undefined`) the reducer acts on the seed state, so an action the slice does not handle yields the seed state, the store's first state; with a state, it dispatches on that state and such an action returns it unchanged |
| `ProjectsStore.ActionsKeepProjectIds` | src/store/projectsSlice.js:62-97 | every action other than adding or deleting a project keeps the list of project ids and their order |

## Left out

- Rendering: JSX markup, animation, icons, modal visibility flags, the `selectedTask` card and the unused `activeBoard` select are presentation with no effect on the modelled state.
- Toast notifications and date formatting are foreign library calls without state effect. A refused create reports its reason as a `CreateError` instead of a toast.
- Browser drag plumbing: `handleDragOver` and the `dataTransfer` effect flags are DOM calls. Drag start is modelled only as recording the `(task, sourceColumn)` pair.
- The form's `onChange` setters each overwrite one form field. They are ordinary field updates and are not modelled one by one: the form is an input of the create handler.
- `Date.now()` is a clock read. It is a parameter, and freshness of the id is a precondition of the lemmas that need it. Nothing prevents two creations in the same millisecond from sharing an id, as in the source.
- The priority and status colour helpers and the assignee initials only produce display strings.
- The home page, not-found page, app shell (theme toggle, routing) and store wiring are outside the state logic. `ProjectsStore.SliceReducer` stands for the slice reducer the store is built from; how the store dispatches its init action is not modelled.
- JavaScript values are narrowed to fixed field types. Ids and `progress` are JavaScript numbers compared with `===`; the model uses `int`, so a fractional `progress` stored by `updateProject` (src/store/projectsSlice.js:65) or a fractional id is not modelled.
- Payload fields are always present in the model. The `addProject` payload has every field except `id`, `progress` and `tasks`; the `addTask` subtask draft always has `title`, `completed` and `assignee`. In the source an omitted field is stored as `undefined` (src/store/projectsSlice.js:54-59, 78), which the model cannot express.
- Extra keys are not modelled. The spreads in `addProject` and `addTask` and the merges in `updateProject` (src/store/projectsSlice.js:65) and `updateTask` (src/store/projectsSlice.js:87) copy any key the payload holds, including keys outside the project or subtask schema. The draft and patch records carry only the schema's fields. A patch field explicitly set to `undefined` would overwrite with `undefined`; in a patch record a field is either carried or absent.
- `tasks || []` treats every falsy `tasks` as absent. The model has only "absent". A non-array truthy value is not modelled.
- The `setSelectedProject` payload is stored as given in the source. The model takes an optional project id, which is what the rest of the slice looks projects up by.
- Object identity and aliasing: Immer drafts and the shared `tasks` array of `addProject` do not exist in a value model.

