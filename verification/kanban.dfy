/**
 The kanban board of the main feature: four fixed status columns, each an
 ordered list of task cards, and the three handlers that change it (drop a
 dragged card on a column, create a card from the form, delete a card).
 React's `setState` calls become pure functions from one component state to
 the next; the clock read that supplies a new card's id is a parameter.
 */
module Kanban {
  import opened Wrappers
  import opened KeyedSeq
  import opened JsText

  /** The four column ids of the board, in display order. */
  datatype ColumnId = Todo | InProgress | Review | Done

  /** The priorities the create form offers. */
  datatype Priority = Low | Medium | High

  /** A card on the board. `dueDate` is the date input's text ("" when unset). */
  datatype Task = Task(
    id: int,
    title: string,
    description: string,
    priority: Priority,
    assignee: string,
    dueDate: string,
    tags: seq<string>)

  function TaskKey(t: Task): int { t.id }

  /** The `tasks` state object: one ordered card list per column id. */
  datatype Board = Board(todo: seq<Task>, inprogress: seq<Task>, review: seq<Task>, done: seq<Task>)

  /** `tasks[c]` */
  function Column(b: Board, c: ColumnId): seq<Task> {
    match c
    case Todo => b.todo
    case InProgress => b.inprogress
    case Review => b.review
    case Done => b.done
  }

  /** `{ ...b, [c]: s }`: column `c` replaced, the other three untouched. */
  function WithColumn(b: Board, c: ColumnId, s: seq<Task>): (r: Board)
    ensures Column(r, c) == s
    ensures forall d :: d != c ==> Column(r, d) == Column(b, d)
  {
    match c
    case Todo => b.(todo := s)
    case InProgress => b.(inprogress := s)
    case Review => b.(review := s)
    case Done => b.(done := s)
  }

  /** The `draggedTask` state: nothing, or the card captured at drag start with its column. */
  datatype Drag = NoDrag | Dragging(task: Task, sourceColumn: ColumnId)

  /** The `newTask` state behind the create form. */
  datatype NewTaskForm = NewTaskForm(
    title: string,
    description: string,
    priority: Priority,
    assignee: string,
    dueDate: string)

  /** What the form holds when the component mounts and after every successful create. */
  const EmptyForm := NewTaskForm("", "", Medium, "", "")

  /** The component state the handlers read and write. */
  datatype BoardState = BoardState(tasks: Board, draggedTask: Drag, newTask: NewTaskForm)

  /** Why a create was refused (the error toast shown to the user). */
  datatype CreateError = TitleRequired | AssigneeRequired

  /** The outcome of the create handler: the next state, and the refusal if any. */
  datatype CreateStep = CreateStep(state: BoardState, error: Option<CreateError>)

  /** Seed cards of the board as it first renders. */
  const InitialBoard := Board(
    [ Task(1, "Design Homepage Layout", "Create wireframes and mockups for the new homepage design",
           High, "Sarah Chen", "2024-01-15", ["design", "ui/ux"]),
      Task(2, "Setup Database Schema", "Design and implement the initial database structure",
           Medium, "Alex Kumar", "2024-01-18", ["backend", "database"]) ],
    [ Task(3, "Implement User Authentication", "Build login and registration functionality with JWT tokens",
           High, "Mike Johnson", "2024-01-12", ["backend", "security"]) ],
    [ Task(4, "Mobile Responsive Testing", "Test the application across different mobile devices",
           Medium, "Lisa Park", "2024-01-10", ["testing", "mobile"]) ],
    [ Task(5, "Project Setup", "Initialize repository and development environment",
           Low, "David Wilson", "2024-01-05", ["setup", "devops"]) ])

  const InitialState := BoardState(InitialBoard, NoDrag, EmptyForm)

  // ---------------------------------------------------------------------------
  // Counting cards across the board

  /** How many cards on the whole board carry id `k`. */
  function BoardCount(b: Board, k: int): nat {
    Count(b.todo, TaskKey, k) + Count(b.inprogress, TaskKey, k)
    + Count(b.review, TaskKey, k) + Count(b.done, TaskKey, k)
  }

  /** Number of cards on the board. */
  function TotalSize(b: Board): nat {
    |b.todo| + |b.inprogress| + |b.review| + |b.done|
  }

  /** The board invariant: no id appears twice, within a column or across columns. */
  ghost predicate UniqueIds(b: Board) {
    forall k :: BoardCount(b, k) <= 1
  }

  /** Replacing one column changes each id's board-wide count by that column's difference. */
  lemma BoardCountWithColumn(b: Board, c: ColumnId, s: seq<Task>, k: int)
    ensures BoardCount(WithColumn(b, c, s), k)
         == BoardCount(b, k) - Count(Column(b, c), TaskKey, k) + Count(s, TaskKey, k)
  {
  }

  // ---------------------------------------------------------------------------
  // handleDragStart's state effect

  /** Capture `task` together with the column it is dragged from. */
  function StartDrag(s: BoardState, task: Task, column: ColumnId): (r: BoardState)
    ensures r.draggedTask == Dragging(task, column)
    ensures r.tasks == s.tasks && r.newTask == s.newTask
  {
    s.(draggedTask := Dragging(task, column))
  }

  // ---------------------------------------------------------------------------
  // handleDrop

  /**
   The `setTasks` updater of a move between two different columns: every card
   with the moved card's id leaves `source`, and `task` itself is appended to
   `target`, whether or not `source` still held it.
   */
  function MoveCard(b: Board, task: Task, source: ColumnId, target: ColumnId): (r: Board)
    requires source != target
    ensures Column(r, source) == Without(Column(b, source), TaskKey, task.id)
    ensures Column(r, target) == Column(b, target) + [task]
    ensures forall c :: c != source && c != target ==> Column(r, c) == Column(b, c)
  {
    WithColumn(WithColumn(b, source, Without(Column(b, source), TaskKey, task.id)),
               target, Column(b, target) + [task])
  }

  /**
   Drop the dragged card on `target`. Without a drag nothing happens; on its
   own column only the drag ends; otherwise the card moves.
   */
  function Drop(s: BoardState, target: ColumnId): (r: BoardState)
    ensures s.draggedTask == NoDrag ==> r == s
    ensures r.draggedTask == NoDrag && r.newTask == s.newTask
    ensures s.draggedTask.Dragging? && s.draggedTask.sourceColumn == target ==> r.tasks == s.tasks
    ensures s.draggedTask.Dragging? && s.draggedTask.sourceColumn != target ==>
      var source, task := s.draggedTask.sourceColumn, s.draggedTask.task;
      && Column(r.tasks, source) == Without(Column(s.tasks, source), TaskKey, task.id)
      && Column(r.tasks, target) == Column(s.tasks, target) + [task]
      && forall c :: c != source && c != target ==> Column(r.tasks, c) == Column(s.tasks, c)
  {
    match s.draggedTask
    case NoDrag => s
    case Dragging(task, source) =>
      if source == target then s.(draggedTask := NoDrag)
      else BoardState(MoveCard(s.tasks, task, source, target), NoDrag, s.newTask)
  }

  /** A move shifts only the moved id's count: it loses its source occurrences and gains one. */
  lemma MoveIdCount(b: Board, task: Task, source: ColumnId, target: ColumnId, k: int)
    requires source != target
    ensures BoardCount(MoveCard(b, task, source, target), k)
      == if k == task.id then BoardCount(b, k) - Count(Column(b, source), TaskKey, k) + 1
         else BoardCount(b, k)
  {
    var removed := Without(Column(b, source), TaskKey, task.id);
    var b1 := WithColumn(b, source, removed);
    var appended := Column(b, target) + [task];
    assert MoveCard(b, task, source, target) == WithColumn(b1, target, appended);
    BoardCountWithColumn(b, source, removed, k);
    BoardCountWithColumn(b1, target, appended, k);
    CountWithout(Column(b, source), TaskKey, task.id, k);
    CountAppend(Column(b, target), [task], TaskKey, k);
  }

  /**
   Moving a card that sits exactly once in its source column keeps every id's
   count, so the board keeps its size and its unique-id invariant.
   */
  lemma MovePreservesCards(s: BoardState, target: ColumnId)
    requires s.draggedTask.Dragging? && s.draggedTask.sourceColumn != target
    requires Count(Column(s.tasks, s.draggedTask.sourceColumn), TaskKey, s.draggedTask.task.id) == 1
    ensures TotalSize(Drop(s, target).tasks) == TotalSize(s.tasks)
    ensures forall k :: BoardCount(Drop(s, target).tasks, k) == BoardCount(s.tasks, k)
    ensures UniqueIds(s.tasks) ==> UniqueIds(Drop(s, target).tasks)
  {
    var source, task := s.draggedTask.sourceColumn, s.draggedTask.task;
    forall k ensures BoardCount(Drop(s, target).tasks, k) == BoardCount(s.tasks, k) {
      MoveIdCount(s.tasks, task, source, target, k);
    }
  }

  /**
   A move whose card is no longer in its source column still appends it to
   the target: the board grows by one card.
   */
  lemma MoveOfMissingCardAddsIt(s: BoardState, target: ColumnId)
    requires s.draggedTask.Dragging? && s.draggedTask.sourceColumn != target
    requires Count(Column(s.tasks, s.draggedTask.sourceColumn), TaskKey, s.draggedTask.task.id) == 0
    ensures TotalSize(Drop(s, target).tasks) == TotalSize(s.tasks) + 1
    ensures BoardCount(Drop(s, target).tasks, s.draggedTask.task.id) == BoardCount(s.tasks, s.draggedTask.task.id) + 1
  {
    MoveIdCount(s.tasks, s.draggedTask.task, s.draggedTask.sourceColumn, target, s.draggedTask.task.id);
  }

  /**
   On a board with unique ids, dragging the card at position `i` of column `c`
   and dropping it on another column moves exactly that card: it leaves `c`,
   lands at the end of the target, and the invariant still holds.
   */
  lemma DragAndDropMovesCard(s: BoardState, c: ColumnId, i: nat, target: ColumnId)
    requires UniqueIds(s.tasks)
    requires i < |Column(s.tasks, c)| && c != target
    ensures var r := Drop(StartDrag(s, Column(s.tasks, c)[i], c), target).tasks;
      && r == WithColumn(WithColumn(s.tasks, c, Column(s.tasks, c)[..i] + Column(s.tasks, c)[i + 1..]),
                         target, Column(s.tasks, target) + [Column(s.tasks, c)[i]])
      && UniqueIds(r)
  {
    var col := Column(s.tasks, c);
    var t := col[i];
    var d := StartDrag(s, t, c);
    assert BoardCount(s.tasks, t.id) <= 1;
    assert Count(col, TaskKey, t.id) == 1;
    WithoutUniqueAt(col, TaskKey, i);
    MovePreservesCards(d, target);
  }

  // ---------------------------------------------------------------------------
  // handleCreateTask

  /**
   Validate the form and, when it passes, append a new card to "To Do" and
   reset the form. A title that trims to nothing is refused first, then an
   unchosen assignee; a refusal leaves the state exactly as it was.
   */
  function CreateTask(s: BoardState, newId: int): (r: CreateStep)
    ensures IsBlank(s.newTask.title) ==> r == CreateStep(s, Some(TitleRequired))
    ensures !IsBlank(s.newTask.title) && s.newTask.assignee == [] ==> r == CreateStep(s, Some(AssigneeRequired))
    ensures r.error.None? <==> !IsBlank(s.newTask.title) && s.newTask.assignee != []
    ensures r.error.None? ==>
      && r.state.newTask == EmptyForm
      && r.state.draggedTask == s.draggedTask
      && |Column(r.state.tasks, Todo)| == |Column(s.tasks, Todo)| + 1
      && Column(r.state.tasks, Todo)[..|Column(s.tasks, Todo)|] == Column(s.tasks, Todo)
      && Column(r.state.tasks, Todo)[|Column(s.tasks, Todo)|]
         == Task(newId, s.newTask.title, s.newTask.description, s.newTask.priority,
                 s.newTask.assignee, s.newTask.dueDate, [])
      && forall c :: c != Todo ==> Column(r.state.tasks, c) == Column(s.tasks, c)
  {
    TrimEmptyIffBlank(s.newTask.title);
    if Trim(s.newTask.title) == [] then CreateStep(s, Some(TitleRequired))
    else if s.newTask.assignee == [] then CreateStep(s, Some(AssigneeRequired))
    else
      var card := Task(newId, s.newTask.title, s.newTask.description, s.newTask.priority, s.newTask.assignee, s.newTask.dueDate, []);
      var todo := Column(s.tasks, Todo) + [card];
      assert todo[..|Column(s.tasks, Todo)|] == Column(s.tasks, Todo);
      CreateStep(BoardState(WithColumn(s.tasks, Todo, todo), s.draggedTask, EmptyForm), None)
  }

  /**
   A create with an id no card carries adds that id exactly once, grows the
   board by one card and keeps ids unique.
   */
  lemma CreateKeepsIdsUnique(s: BoardState, newId: int)
    requires BoardCount(s.tasks, newId) == 0
    requires CreateTask(s, newId).error.None?
    ensures BoardCount(CreateTask(s, newId).state.tasks, newId) == 1
    ensures TotalSize(CreateTask(s, newId).state.tasks) == TotalSize(s.tasks) + 1
    ensures UniqueIds(s.tasks) ==> UniqueIds(CreateTask(s, newId).state.tasks)
  {
    var card := Task(newId, s.newTask.title, s.newTask.description, s.newTask.priority, s.newTask.assignee, s.newTask.dueDate, []);
    var r := CreateTask(s, newId).state.tasks;
    assert r == WithColumn(s.tasks, Todo, Column(s.tasks, Todo) + [card]);
    forall k ensures BoardCount(r, k) == BoardCount(s.tasks, k) + (if k == newId then 1 else 0) {
      BoardCountWithColumn(s.tasks, Todo, Column(s.tasks, Todo) + [card], k);
      CountAppend(Column(s.tasks, Todo), [card], TaskKey, k);
    }
  }

  // ---------------------------------------------------------------------------
  // handleDeleteTask

  /** Remove every card with id `taskId` from column `columnId`, keeping the rest in order. */
  function DeleteTask(s: BoardState, taskId: int, columnId: ColumnId): (r: BoardState)
    ensures Column(r.tasks, columnId) == Without(Column(s.tasks, columnId), TaskKey, taskId)
    ensures forall c :: c != columnId ==> Column(r.tasks, c) == Column(s.tasks, c)
    ensures r.draggedTask == s.draggedTask && r.newTask == s.newTask
  {
    s.(tasks := WithColumn(s.tasks, columnId, Without(Column(s.tasks, columnId), TaskKey, taskId)))
  }

  /** Deleting changes nothing exactly when the column holds no card with the id. */
  lemma DeleteNoopIffAbsent(s: BoardState, taskId: int, columnId: ColumnId)
    ensures DeleteTask(s, taskId, columnId) == s <==> Count(Column(s.tasks, columnId), TaskKey, taskId) == 0
  {
    WithoutAbsent(Column(s.tasks, columnId), TaskKey, taskId);
    if DeleteTask(s, taskId, columnId) == s {
      assert Column(DeleteTask(s, taskId, columnId).tasks, columnId) == Column(s.tasks, columnId);
    }
  }

  /**
   Deleting removes the id from the column and leaves every other id's count
   alone, so the unique-id invariant survives; deleting again changes nothing.
   */
  lemma DeleteKeepsIdsUnique(s: BoardState, taskId: int, columnId: ColumnId)
    ensures Count(Column(DeleteTask(s, taskId, columnId).tasks, columnId), TaskKey, taskId) == 0
    ensures forall k :: k != taskId ==> BoardCount(DeleteTask(s, taskId, columnId).tasks, k) == BoardCount(s.tasks, k)
    ensures UniqueIds(s.tasks) ==> UniqueIds(DeleteTask(s, taskId, columnId).tasks)
    ensures DeleteTask(DeleteTask(s, taskId, columnId), taskId, columnId) == DeleteTask(s, taskId, columnId)
  {
    var col := Column(s.tasks, columnId);
    CountWithout(col, TaskKey, taskId, taskId);
    forall k ensures BoardCount(DeleteTask(s, taskId, columnId).tasks, k)
                  == BoardCount(s.tasks, k) - Count(col, TaskKey, k) + Count(Without(col, TaskKey, taskId), TaskKey, k) {
      BoardCountWithColumn(s.tasks, columnId, Without(col, TaskKey, taskId), k);
    }
    forall k ensures Count(Without(col, TaskKey, taskId), TaskKey, k) == if k == taskId then 0 else Count(col, TaskKey, k) {
      CountWithout(col, TaskKey, taskId, k);
    }
    DeleteNoopIffAbsent(DeleteTask(s, taskId, columnId), taskId, columnId);
  }

  /** The seed board satisfies the unique-id invariant. */
  lemma InitialBoardIdsUnique()
    ensures UniqueIds(InitialBoard)
    ensures TotalSize(InitialBoard) == 5
  {
  }
}
