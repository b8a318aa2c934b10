/** The normalised store snapshot the column selectors read, and the views they build. */
module Entities {

  type ColumnId = string
  type TaskId = string
  type BoardId = string

  datatype Option<T> = None | Some(value: T)

  /** A JavaScript object reference: an identity `addr` and the contents it points to.
      `===` on two references compares their identities only. */
  datatype Ref<T> = Ref(addr: nat, val: T)

  datatype Task = Task(id: TaskId, columnId: ColumnId, title: string, name: string, position: int)

  datatype Column = Column(id: ColumnId, boardId: BoardId, title: string, position: int, tasks: seq<TaskId>)

  /** `state.columns.byId`: one object mapping column ids to column objects. */
  type ColumnMap = map<ColumnId, Ref<Column>>

  /** The `state` object handed to every selector call: its identity `addr`, the column
      domain's `byId` object and the task lookup table that `selectTaskById` reads. */
  datatype State = State(addr: nat, columnsById: Ref<ColumnMap>, tasksById: map<TaskId, Task>)

  /** `{...column, tasks}`: the column record with its task ids replaced by tasks. */
  datatype NestedColumn = NestedColumn(id: ColumnId, boardId: BoardId, title: string, position: int, tasks: seq<Task>)

  /** One entry of the position list; `title` holds the formatted label. */
  datatype TaskPosition = TaskPosition(id: TaskId, position: int, title: string)

  /** The contents behind an optional reference. */
  function Contents<T>(r: Option<Ref<T>>): Option<T> {
    match r
    case None => None
    case Some(x) => Some(x.val)
  }
}
