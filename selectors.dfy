/** The bodies of the column selectors, as functions of one store snapshot. */
module Selectors {
  import opened Entities
  import opened Ordering
  import opened Numbers

  /** selectColumnById: `columnsById[columnId]`, absent when there is no such key. */
  function ColumnById(st: State, k: ColumnId): (r: Option<Ref<Column>>)
    ensures r.Some? <==> k in st.columnsById.val
    ensures r.Some? ==> r.value == st.columnsById.val[k]
  {
    if k in st.columnsById.val then Some(st.columnsById.val[k]) else None
  }

  /** selectTaskById: a plain lookup in the task table. */
  function TaskById(st: State, id: TaskId): (r: Option<Task>)
    ensures r.Some? <==> id in st.tasksById
    ensures r.Some? ==> r.value == st.tasksById[id]
  {
    if id in st.tasksById then Some(st.tasksById[id]) else None
  }

  /** The `map` stage of the pipeline: every task id looked up, in order. */
  function LookupTasks(st: State, ids: seq<TaskId>): (r: seq<Option<Task>>)
    ensures |r| == |ids|
    ensures forall i | 0 <= i < |ids| :: r[i] == TaskById(st, ids[i])
  {
    if ids == [] then [] else [TaskById(st, ids[0])] + LookupTasks(st, ids[1..])
  }

  /** The `filter(task => !!task)` stage: the tasks that were found. */
  function Present(found: seq<Option<Task>>): (r: seq<Task>)
    ensures |r| <= |found|
    ensures forall t | t in r :: Some(t) in found
    ensures forall i | 0 <= i < |found| && found[i].Some? :: found[i].value in r
  {
    if found == [] then []
    else if found[0].Some? then [found[0].value] + Present(found[1..])
    else Present(found[1..])
  }

  /** `filter` adds nothing: each task is kept exactly as often as it was found. */
  lemma {:induction false} PresentKeepsCounts(found: seq<Option<Task>>)
    ensures forall t :: multiset(Present(found))[t] == multiset(found)[Some(t)]
  {
    if found != [] {
      PresentKeepsCounts(found[1..]);
      assert found == [found[0]] + found[1..];
    }
  }

  /** The tasks that `ids` resolve to, in the order of `ids`, dangling ids dropped. */
  function Resolve(st: State, ids: seq<TaskId>): (r: seq<Task>)
    ensures |r| <= |ids|
    ensures forall t | t in r :: t in st.tasksById.Values
  {
    var found := LookupTasks(st, ids);
    assert forall t | Some(t) in found :: t in st.tasksById.Values by {
      forall t | Some(t) in found ensures t in st.tasksById.Values {
        var i :| 0 <= i < |found| && found[i] == Some(t);
        assert TaskById(st, ids[i]) == Some(t);
      }
    }
    Present(found)
  }

  /** The ids of `ids` that the task table knows, in order. */
  function KnownIds(st: State, ids: seq<TaskId>): seq<TaskId> {
    if ids == [] then []
    else if ids[0] in st.tasksById then [ids[0]] + KnownIds(st, ids[1..])
    else KnownIds(st, ids[1..])
  }

  function Ids(ts: seq<Task>): seq<TaskId> {
    if ts == [] then [] else [ts[0].id] + Ids(ts[1..])
  }

  /** Every task is stored under its own id. */
  predicate KeysMatch(st: State) {
    forall id | id in st.tasksById :: st.tasksById[id].id == id
  }

  /** The result function of selectTasksOfColumn, given the state and the looked-up column. */
  function TasksFrom(st: State, column: Option<Ref<Column>>): (r: seq<Task>)
    ensures column.None? ==> r == []
    ensures column.Some? ==> multiset(r) == multiset(Resolve(st, column.value.val.tasks))
    ensures SortedByPosition(r)
  {
    match column
    case None => []
    case Some(c) => SortByPosition(Resolve(st, c.val.tasks))
  }

  /** selectTasksOfColumn(state, k). */
  function TasksOfColumn(st: State, k: ColumnId): (r: seq<Task>)
    ensures k !in st.columnsById.val ==> r == []
    ensures SortedByPosition(r)
  {
    TasksFrom(st, ColumnById(st, k))
  }

  /** `{...column, tasks}` */
  function Spread(c: Column, tasks: seq<Task>): (r: NestedColumn)
    ensures Unspread(r, c.tasks) == c && r.tasks == tasks
  {
    NestedColumn(c.id, c.boardId, c.title, c.position, tasks)
  }

  /** The column record a view was spread from, given its task id list back. */
  function Unspread(n: NestedColumn, ids: seq<TaskId>): Column {
    Column(n.id, n.boardId, n.title, n.position, ids)
  }

  /** The result function of selectNestedColumnById. */
  function NestedFrom(column: Option<Ref<Column>>, tasks: seq<Task>): (r: Option<NestedColumn>)
    ensures r.None? <==> column.None?
    ensures r.Some? ==> Unspread(r.value, column.value.val.tasks) == column.value.val && r.value.tasks == tasks
  {
    match column
    case None => None
    case Some(c) => Some(Spread(c.val, tasks))
  }

  /** selectNestedColumnById(state, k). */
  function NestedColumnById(st: State, k: ColumnId): (r: Option<NestedColumn>)
    ensures r.None? <==> k !in st.columnsById.val
    ensures r.Some? ==> Unspread(r.value, st.columnsById.val[k].val.tasks) == st.columnsById.val[k].val
    ensures r.Some? ==> r.value.tasks == TasksOfColumn(st, k)
  {
    NestedFrom(ColumnById(st, k), TasksOfColumn(st, k))
  }

  /** `${task.position}. ${task.title} (${task.name})`: the label starts with the position,
      and reading the number in front of its first '.' gives the position back. */
  function Label(t: Task): (r: string)
    ensures ParseInt(BeforeDot(r)) == t.position
  {
    var rest := ". " + t.title + " (" + t.name + ")";
    BeforeDotOfConcat(Decimal(t.position), rest);
    DecimalRoundTrip(t.position);
    assert Decimal(t.position) + rest == Decimal(t.position) + ". " + t.title + " (" + t.name + ")";
    Decimal(t.position) + ". " + t.title + " (" + t.name + ")"
  }

  /** The result function of selectTaskPositionsOfColumn: `tasks.map(...)`. */
  function TaskPositions(tasks: seq<Task>): (r: seq<TaskPosition>)
    ensures |r| == |tasks|
    ensures forall i | 0 <= i < |tasks| ::
      r[i].id == tasks[i].id && r[i].position == tasks[i].position && r[i].title == Label(tasks[i])
  {
    if tasks == [] then []
    else [TaskPosition(tasks[0].id, tasks[0].position, Label(tasks[0]))] + TaskPositions(tasks[1..])
  }

  /** selectTaskPositionsOfColumn(state, k). */
  function TaskPositionsOfColumn(st: State, k: ColumnId): (r: seq<TaskPosition>)
    ensures |r| == |TasksOfColumn(st, k)|
    ensures k !in st.columnsById.val ==> r == []
    ensures forall i, j | 0 <= i < j < |r| :: r[i].position <= r[j].position
  {
    TaskPositions(TasksOfColumn(st, k))
  }

  // ---- Column lookup ----

  /** A write of column `j` into the column table is seen by the lookup of `j` only. */
  lemma ColumnByIdAfterWrite(st: State, j: ColumnId, c: Ref<Column>, addr: nat, k: ColumnId)
    ensures var st' := st.(columnsById := Ref(addr, st.columnsById.val[j := c]));
      ColumnById(st', k) == if k == j then Some(c) else ColumnById(st, k)
  {
  }

  // ---- Resolving task ids ----

  /** One step of the pipeline: the first id contributes its task, if it has one. */
  lemma ResolveStep(st: State, ids: seq<TaskId>)
    requires ids != []
    ensures Resolve(st, ids) == (if ids[0] in st.tasksById then [st.tasksById[ids[0]]] else []) + Resolve(st, ids[1..])
  {
    var found := LookupTasks(st, ids);
    assert found[1..] == LookupTasks(st, ids[1..]);
  }

  /** Every resolved task is the task stored under one of the ids, and there are at most as many. */
  lemma {:induction false} ResolvedTasksAreStored(st: State, ids: seq<TaskId>)
    ensures |Resolve(st, ids)| <= |ids|
    ensures forall t | t in Resolve(st, ids) ::
      exists i :: 0 <= i < |ids| && ids[i] in st.tasksById && st.tasksById[ids[i]] == t
  {
    if ids != [] {
      ResolvedTasksAreStored(st, ids[1..]);
      ResolveStep(st, ids);
      forall t | t in Resolve(st, ids)
        ensures exists i :: 0 <= i < |ids| && ids[i] in st.tasksById && st.tasksById[ids[i]] == t
      {
        if ids[0] in st.tasksById && t == st.tasksById[ids[0]] {
          assert 0 <= 0 < |ids| && ids[0] in st.tasksById && st.tasksById[ids[0]] == t;
        } else {
          assert t in Resolve(st, ids[1..]);
          var i :| 0 <= i < |ids[1..]| && ids[1..][i] in st.tasksById && st.tasksById[ids[1..][i]] == t;
          assert ids[i + 1] == ids[1..][i];
          assert 0 <= i + 1 < |ids| && ids[i + 1] in st.tasksById && st.tasksById[ids[i + 1]] == t;
        }
      }
    }
  }

  /** Every id that resolves contributes its task. */
  lemma {:induction false} ResolvedTasksAreComplete(st: State, ids: seq<TaskId>, i: nat)
    requires i < |ids| && ids[i] in st.tasksById
    ensures st.tasksById[ids[i]] in Resolve(st, ids)
  {
    if i > 0 {
      ResolvedTasksAreComplete(st, ids[1..], i - 1);
    }
    ResolveStep(st, ids);
  }

  /** With tasks stored under their own ids, the ids of the resolved tasks are
      exactly the known ids, in order: dangling ids and only they are dropped. */
  lemma {:induction false} ResolvedIdsAreKnownIds(st: State, ids: seq<TaskId>)
    requires KeysMatch(st)
    ensures Ids(Resolve(st, ids)) == KnownIds(st, ids)
  {
    if ids != [] {
      ResolvedIdsAreKnownIds(st, ids[1..]);
      ResolveStep(st, ids);
    }
  }

  /** When no id dangles, resolving keeps the length and maps id i to task i. */
  lemma {:induction false} ResolveWithoutDangling(st: State, ids: seq<TaskId>)
    requires forall i | 0 <= i < |ids| :: ids[i] in st.tasksById
    ensures |Resolve(st, ids)| == |ids|
    ensures forall i | 0 <= i < |ids| :: Resolve(st, ids)[i] == st.tasksById[ids[i]]
  {
    if ids != [] {
      ResolveWithoutDangling(st, ids[1..]);
      ResolveStep(st, ids);
    }
  }

  lemma {:induction false} InsertKeepsIds(t: Task, s: seq<Task>)
    ensures multiset(Ids(Insert(t, s))) == multiset(Ids(s)) + multiset{t.id}
  {
    if s == [] || t.position <= s[0].position {
      assert ([t] + s)[1..] == s;
    } else {
      InsertKeepsIds(t, s[1..]);
      assert ([s[0]] + Insert(t, s[1..]))[1..] == Insert(t, s[1..]);
    }
  }

  lemma {:induction false} SortKeepsIds(ts: seq<Task>)
    ensures multiset(Ids(SortByPosition(ts))) == multiset(Ids(ts))
  {
    if ts != [] {
      SortKeepsIds(ts[1..]);
      InsertKeepsIds(ts[0], SortByPosition(ts[1..]));
    }
  }

  // ---- selectTasksOfColumn ----

  /** An absent column yields no tasks. */
  lemma TasksOfAbsentColumn(st: State, k: ColumnId)
    requires k !in st.columnsById.val
    ensures TasksOfColumn(st, k) == []
  {
  }

  /** The task list holds exactly the stored tasks of the column's resolvable ids, no more of
      them than the column lists, sorted ascending by position. */
  lemma TasksOfColumnAreResolved(st: State, k: ColumnId)
    requires k in st.columnsById.val
    ensures var ids := st.columnsById.val[k].val.tasks;
      && |TasksOfColumn(st, k)| <= |ids|
      && multiset(TasksOfColumn(st, k)) == multiset(Resolve(st, ids))
      && (forall t | t in TasksOfColumn(st, k) ::
           exists i :: 0 <= i < |ids| && ids[i] in st.tasksById && st.tasksById[ids[i]] == t)
      && (forall i | 0 <= i < |ids| && ids[i] in st.tasksById :: st.tasksById[ids[i]] in TasksOfColumn(st, k))
  {
    var ids := st.columnsById.val[k].val.tasks;
    var r := TasksOfColumn(st, k);
    ResolvedTasksAreStored(st, ids);
    forall t | t in r
      ensures exists i :: 0 <= i < |ids| && ids[i] in st.tasksById && st.tasksById[ids[i]] == t
    {
      assert t in multiset(r);
      assert t in multiset(Resolve(st, ids));
      assert t in Resolve(st, ids);
    }
    forall i | 0 <= i < |ids| && ids[i] in st.tasksById
      ensures st.tasksById[ids[i]] in r
    {
      ResolvedTasksAreComplete(st, ids, i);
      assert st.tasksById[ids[i]] in multiset(Resolve(st, ids));
    }
  }

  /** With tasks stored under their own ids, the task list's ids are the column's known ids,
      counted with multiplicity: an id that does not resolve never appears. */
  lemma TasksOfColumnIds(st: State, k: ColumnId)
    requires k in st.columnsById.val && KeysMatch(st)
    ensures multiset(Ids(TasksOfColumn(st, k))) == multiset(KnownIds(st, st.columnsById.val[k].val.tasks))
  {
    var ids := st.columnsById.val[k].val.tasks;
    SortKeepsIds(Resolve(st, ids));
    ResolvedIdsAreKnownIds(st, ids);
  }

  /** Tasks with equal positions keep the order their ids have in the column. */
  lemma TasksOfColumnIsStable(st: State, k: ColumnId, p: int)
    requires k in st.columnsById.val
    ensures WithPosition(TasksOfColumn(st, k), p) == WithPosition(Resolve(st, st.columnsById.val[k].val.tasks), p)
  {
    SortKeepsTiesInOrder(Resolve(st, st.columnsById.val[k].val.tasks), p);
  }

  /** The task list is the one sorted arrangement of the resolved tasks that keeps ties in column order. */
  lemma TasksOfColumnIsTheStableSort(st: State, k: ColumnId, r: seq<Task>)
    requires k in st.columnsById.val
    requires SortedByPosition(r)
    requires forall p :: WithPosition(r, p) == WithPosition(Resolve(st, st.columnsById.val[k].val.tasks), p)
    ensures r == TasksOfColumn(st, k)
  {
    StableSortIsUnique(Resolve(st, st.columnsById.val[k].val.tasks), r);
  }

  /** Positions [2, 1, 1, 3] for tasks [A, B, C, D] are ordered [B, C, A, D]. */
  lemma StableSortExample()
    ensures var a, b, c, d := Task("A", "c", "a", "x", 2), Task("B", "c", "b", "x", 1),
                              Task("C", "c", "c", "x", 1), Task("D", "c", "d", "x", 3);
      var st := State(0, Ref(0, map["c" := Ref(1, Column("c", "b", "todo", 0, ["A", "B", "C", "D"]))]),
                      map["A" := a, "B" := b, "C" := c, "D" := d]);
      TasksOfColumn(st, "c") == [b, c, a, d]
  {
    var a, b, c, d := Task("A", "c", "a", "x", 2), Task("B", "c", "b", "x", 1),
                      Task("C", "c", "c", "x", 1), Task("D", "c", "d", "x", 3);
    var st := State(0, Ref(0, map["c" := Ref(1, Column("c", "b", "todo", 0, ["A", "B", "C", "D"]))]),
                    map["A" := a, "B" := b, "C" := c, "D" := d]);
    ResolveExample(st, a, b, c, d);
    OrderExample(a, b, c, d);
  }

  lemma ResolveExample(st: State, a: Task, b: Task, c: Task, d: Task)
    requires st.tasksById == map["A" := a, "B" := b, "C" := c, "D" := d]
    ensures Resolve(st, ["A", "B", "C", "D"]) == [a, b, c, d]
  {
    ResolveWithoutDangling(st, ["A", "B", "C", "D"]);
  }

  /** A column id that does not resolve is left out of the task list. */
  lemma DanglingIdExample()
    ensures var a := Task("A", "c", "a", "x", 1);
      var st := State(0, Ref(0, map["c" := Ref(1, Column("c", "b", "todo", 0, ["gone", "A"]))]), map["A" := a]);
      TasksOfColumn(st, "c") == [a]
  {
    var a := Task("A", "c", "a", "x", 1);
    var st := State(0, Ref(0, map["c" := Ref(1, Column("c", "b", "todo", 0, ["gone", "A"]))]), map["A" := a]);
    ResolveStep(st, ["gone", "A"]);
    ResolveStep(st, ["A"]);
    assert Resolve(st, []) == [];
    assert "gone" !in st.tasksById;
    assert Resolve(st, ["gone", "A"]) == [a];
    assert SortByPosition([a]) == Insert(a, []);
  }

  // ---- Position list ----

  /** The text in front of the first '.'. */
  function BeforeDot(s: string): string {
    if s == [] || s[0] == '.' then [] else [s[0]] + BeforeDot(s[1..])
  }

  lemma {:induction false} BeforeDotOfConcat(x: string, y: string)
    requires forall i | 0 <= i < |x| :: x[i] != '.'
    requires |y| > 0 && y[0] == '.'
    ensures BeforeDot(x + y) == x
  {
    if x != [] {
      BeforeDotOfConcat(x[1..], y);
      assert (x + y)[1..] == x[1..] + y;
    }
  }

  /** Each positions entry carries the id and position of the task at the same index,
      and its title is the label of that task. */
  lemma TaskPositionsFollowTasks(st: State, k: ColumnId, i: nat)
    requires i < |TasksOfColumn(st, k)|
    ensures var t := TasksOfColumn(st, k)[i];
      TaskPositionsOfColumn(st, k)[i] == TaskPosition(t.id, t.position, Label(t))
  {
  }

  /** Tasks {1, 1, "Fix", "bug"} and {2, 2, "Test", "feature"} are listed as
      "1. Fix (bug)" and "2. Test (feature)". */
  lemma PositionListExample()
    ensures var t1, t2 := Task("1", "c", "Fix", "bug", 1), Task("2", "c", "Test", "feature", 2);
      TaskPositions([t1, t2]) == [TaskPosition("1", 1, "1. Fix (bug)"), TaskPosition("2", 2, "2. Test (feature)")]
  {
    var t1, t2 := Task("1", "c", "Fix", "bug", 1), Task("2", "c", "Test", "feature", 2);
    assert DigitChar(1) == '1' && DigitChar(2) == '2';
    assert Decimal(1) == "1" && Decimal(2) == "2";
    assert Label(t1) == "1. Fix (bug)" && Label(t2) == "2. Test (feature)";
    assert [t1, t2][1..] == [t2];
    assert [t2][1..] == [];
  }
}
