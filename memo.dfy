/** The per-key caches that `createCachedSelector(...)((state, columnId) => columnId)` puts
    around each column selector.

    Each selector keeps one slot per column id. A slot remembers the arguments of the last
    call (the state object), the inputs its result function last ran on, and that result.
    A call whose state is the remembered one returns the remembered result without calling
    the input selectors; otherwise the input selectors run, and the result function runs
    again only if one of their results is a different object (`!==`) from the remembered
    input. Objects are compared by identity only, so a cached result is right only if the
    store is copy-on-write: that obligation is `Coherent`. */
module Memo {
  import opened Entities
  import opened Ordering
  import opened Selectors

  /** `a === b` */
  predicate Same<T>(a: Ref<T>, b: Ref<T>) {
    a.addr == b.addr
  }

  /** `===` on values that are an object or `undefined`. */
  predicate SameOpt<T>(a: Option<Ref<T>>, b: Option<Ref<T>>) {
    if a.None? || b.None? then a.None? && b.None? else a.value.addr == b.value.addr
  }

  /** Copy-on-write for one pair of references: one identity, one content. */
  ghost predicate Agrees<T>(a: Ref<T>, b: Ref<T>) {
    a.addr == b.addr ==> a == b
  }

  ghost predicate StateAgrees(a: State, b: State) {
    a.addr == b.addr ==> a == b
  }

  ghost predicate AgreesOpt<T>(a: Option<Ref<T>>, b: Option<Ref<T>>) {
    SameOpt(a, b) ==> a == b
  }

  /** selectColumnById: the last state, the last `byId` object, the last column. */
  datatype ColumnSlot = ColumnSlot(args: State, columnsById: Ref<ColumnMap>, result: Option<Ref<Column>>)

  /** selectTasksOfColumn: its first input is the state itself, so its inputs change
      exactly when its arguments do, and the slot needs no more than the last state. */
  datatype TasksSlot = TasksSlot(args: State, result: Ref<seq<Task>>)

  /** selectNestedColumnById: the last state, the last column and task list, the last view. */
  datatype NestedSlot = NestedSlot(args: State, column: Option<Ref<Column>>, tasks: Ref<seq<Task>>,
                                   result: Option<Ref<NestedColumn>>)

  /** selectTaskPositionsOfColumn: the last state, the last task list, the last position list. */
  datatype PositionsSlot = PositionsSlot(args: State, tasks: Ref<seq<Task>>, result: Ref<seq<TaskPosition>>)

  ghost predicate ColumnSlotOk(k: ColumnId, slot: ColumnSlot) {
    slot.columnsById == slot.args.columnsById && slot.result == ColumnById(slot.args, k)
  }

  ghost predicate TasksSlotOk(k: ColumnId, slot: TasksSlot, next: nat) {
    slot.result.addr < next && slot.result.val == TasksOfColumn(slot.args, k)
  }

  ghost predicate NestedSlotOk(k: ColumnId, slot: NestedSlot, next: nat) {
    && slot.column == ColumnById(slot.args, k)
    && slot.tasks.addr < next && slot.tasks.val == TasksOfColumn(slot.args, k)
    && (slot.result.Some? ==> slot.result.value.addr < next)
    && Contents(slot.result) == NestedFrom(slot.column, slot.tasks.val)
  }

  ghost predicate PositionsSlotOk(k: ColumnId, slot: PositionsSlot, next: nat) {
    && slot.tasks.addr < next && slot.tasks.val == TasksOfColumn(slot.args, k)
    && slot.result.addr < next && slot.result.val == TaskPositions(slot.tasks.val)
  }

  /** What a call of selectColumnById returns, given the slot remembered for its key: the
      same state object, or else the same `byId` object, hands back the remembered column;
      anything else looks the column up. */
  function ColumnCall(slot: Option<ColumnSlot>, s: State, k: ColumnId): (r: Option<Ref<Column>>)
    ensures slot.None? ==> r == ColumnById(s, k)
    ensures r == ColumnById(s, k) || (slot.Some? && r == slot.value.result)
  {
    if slot.Some? && (slot.value.args.addr == s.addr || Same(slot.value.columnsById, s.columnsById))
    then slot.value.result
    else ColumnById(s, k)
  }

  /** Under copy-on-write a consistent slot makes the call agree with the lookup. */
  lemma ColumnCallIsLookup(slot: ColumnSlot, s: State, k: ColumnId)
    requires ColumnSlotOk(k, slot)
    requires StateAgrees(slot.args, s) && Agrees(slot.columnsById, s.columnsById)
    ensures ColumnCall(Some(slot), s, k) == ColumnById(s, k)
  {
  }

  /** Why the store must be copy-on-write: a state changed in place keeps its identity, so a
      consistent slot is hit and hands back the column of the old contents. */
  lemma InPlaceChangeIsNotSeen(slot: ColumnSlot, s: State, k: ColumnId)
    requires ColumnSlotOk(k, slot) && slot.args.addr == s.addr
    requires ColumnById(slot.args, k) != ColumnById(s, k)
    ensures ColumnCall(Some(slot), s, k) == ColumnById(slot.args, k) != ColumnById(s, k)
  {
  }

  /** Column "c" deleted in place from a state object and its `byId` object: the call still
      returns the deleted column. */
  lemma InPlaceDeletionExample()
    ensures var col := Ref(1, Column("c", "b", "todo", 0, []));
      var before := State(0, Ref(0, map["c" := col]), map[]);
      var after := State(0, Ref(0, map[]), map[]);
      var slot := ColumnSlot(before, before.columnsById, ColumnCall(None, before, "c"));
      ColumnSlotOk("c", slot) && ColumnCall(Some(slot), after, "c") == Some(col) && ColumnById(after, "c") == None
  {
  }

  /** The result stage of selectNestedColumnById once its inputs are computed: the remembered
      view when both inputs are the remembered objects, else a view built with identity `next`. */
  function NestedCall(slot: Option<NestedSlot>, column: Option<Ref<Column>>, tasks: Ref<seq<Task>>, next: nat)
    : (r: Option<Ref<NestedColumn>>)
    ensures slot.Some? && SameOpt(slot.value.column, column) && Same(slot.value.tasks, tasks) ==> r == slot.value.result
    ensures !(slot.Some? && SameOpt(slot.value.column, column) && Same(slot.value.tasks, tasks)) ==>
      Contents(r) == NestedFrom(column, tasks.val) && (r.Some? ==> r.value.addr == next)
  {
    if slot.Some? && SameOpt(slot.value.column, column) && Same(slot.value.tasks, tasks) then slot.value.result
    else match NestedFrom(column, tasks.val)
      case None => None
      case Some(view) => Some(Ref(next, view))
  }

  /** The result stage of selectTaskPositionsOfColumn: the remembered list when the task list
      is the remembered object, else a list built with identity `next`. */
  function PositionsCall(slot: Option<PositionsSlot>, tasks: Ref<seq<Task>>, next: nat): (r: Ref<seq<TaskPosition>>)
    ensures slot.Some? && Same(slot.value.tasks, tasks) ==> r == slot.value.result
    ensures !(slot.Some? && Same(slot.value.tasks, tasks)) ==> r.val == TaskPositions(tasks.val) && r.addr == next
  {
    if slot.Some? && Same(slot.value.tasks, tasks) then slot.value.result
    else Ref(next, TaskPositions(tasks.val))
  }

  type ColumnSlots = map<ColumnId, ColumnSlot>
  type TasksSlots = map<ColumnId, TasksSlot>
  type NestedSlots = map<ColumnId, NestedSlot>
  type PositionsSlots = map<ColumnId, PositionsSlot>

  /** The slots of key `k` are consistent: each slot's result is what its result function
      gives on the remembered inputs, every identity handed out is below `next`, and a task
      list remembered as an input is, if it is still the tasks selector's current result,
      that very list, remembered for the same state object. */
  ghost predicate KeyOk(cs: ColumnSlots, ts: TasksSlots, ns: NestedSlots, ps: PositionsSlots, next: nat, k: ColumnId) {
    && (k in cs ==> ColumnSlotOk(k, cs[k]))
    && (k in ts ==> TasksSlotOk(k, ts[k], next))
    && (k in ns ==> NestedSlotOk(k, ns[k], next))
    && (k in ps ==> PositionsSlotOk(k, ps[k], next))
    && (k in ns && k in ts ==>
          Agrees(ns[k].tasks, ts[k].result) && (Same(ns[k].tasks, ts[k].result) ==> ns[k].args.addr == ts[k].args.addr))
    && (k in ps && k in ts ==>
          Agrees(ps[k].tasks, ts[k].result) && (Same(ps[k].tasks, ts[k].result) ==> ps[k].args.addr == ts[k].args.addr))
  }

  ghost predicate SlotsOk(cs: ColumnSlots, ts: TasksSlots, ns: NestedSlots, ps: PositionsSlots, next: nat) {
    forall k :: KeyOk(cs, ts, ns, ps, next, k)
  }

  /** The store's copy-on-write obligation, as seen by a call for key `k` on state `s`:
      every store object that a slot for `k` remembers and that is the very object `s`
      now holds has the contents `s` holds. */
  ghost predicate CoherentAt(cs: ColumnSlots, ts: TasksSlots, ns: NestedSlots, ps: PositionsSlots, s: State, k: ColumnId) {
    && (k in cs ==> StateAgrees(cs[k].args, s) && Agrees(cs[k].columnsById, s.columnsById))
    && (k in ts ==> StateAgrees(ts[k].args, s))
    && (k in ns ==> StateAgrees(ns[k].args, s) && AgreesOpt(ns[k].column, ColumnById(s, k)))
    && (k in ps ==> StateAgrees(ps[k].args, s))
  }

  lemma ColumnWriteKeepsSlotsOk(cs: ColumnSlots, ts: TasksSlots, ns: NestedSlots, ps: PositionsSlots, next: nat,
                                k: ColumnId, slot: ColumnSlot)
    requires SlotsOk(cs, ts, ns, ps, next) && ColumnSlotOk(k, slot)
    ensures SlotsOk(cs[k := slot], ts, ns, ps, next)
  {
    var cs' := cs[k := slot];
    forall j ensures KeyOk(cs', ts, ns, ps, next, j) {
      assert KeyOk(cs, ts, ns, ps, next, j);
    }
  }

  /** A freshly allocated task list cannot be mistaken for one remembered before. */
  lemma TasksWriteKeepsSlotsOk(cs: ColumnSlots, ts: TasksSlots, ns: NestedSlots, ps: PositionsSlots, next: nat,
                               k: ColumnId, slot: TasksSlot)
    requires SlotsOk(cs, ts, ns, ps, next) && TasksSlotOk(k, slot, next + 1) && slot.result.addr == next
    ensures SlotsOk(cs, ts[k := slot], ns, ps, next + 1)
  {
    var ts', next' := ts[k := slot], next + 1;
    forall j ensures KeyOk(cs, ts', ns, ps, next', j) {
      assert KeyOk(cs, ts, ns, ps, next, j);
    }
  }

  lemma NestedWriteKeepsSlotsOk(cs: ColumnSlots, ts: TasksSlots, ns: NestedSlots, ps: PositionsSlots, next: nat,
                                next': nat, k: ColumnId, slot: NestedSlot)
    requires SlotsOk(cs, ts, ns, ps, next) && next <= next'
    requires NestedSlotOk(k, slot, next') && k in ts && slot.tasks == ts[k].result && slot.args == ts[k].args
    ensures SlotsOk(cs, ts, ns[k := slot], ps, next')
  {
    var ns' := ns[k := slot];
    forall j ensures KeyOk(cs, ts, ns', ps, next', j) {
      assert KeyOk(cs, ts, ns, ps, next, j);
    }
  }

  lemma PositionsWriteKeepsSlotsOk(cs: ColumnSlots, ts: TasksSlots, ns: NestedSlots, ps: PositionsSlots, next: nat,
                                   next': nat, k: ColumnId, slot: PositionsSlot)
    requires SlotsOk(cs, ts, ns, ps, next) && next <= next'
    requires PositionsSlotOk(k, slot, next') && k in ts && slot.tasks == ts[k].result && slot.args == ts[k].args
    ensures SlotsOk(cs, ts, ns, ps[k := slot], next')
  {
    var ps' := ps[k := slot];
    forall j ensures KeyOk(cs, ts, ns, ps', next', j) {
      assert KeyOk(cs, ts, ns, ps, next, j);
    }
  }

  /** Once a call has missed on its arguments, its task input is the tasks selector's result
      for the new state object, a different object from the one the view or position list
      was built from: the result stages above never reuse what they remember. */
  lemma InnerReuseNeverFires(cs: ColumnSlots, ts: TasksSlots, ns: NestedSlots, ps: PositionsSlots, next: nat,
                             s: State, k: ColumnId)
    requires SlotsOk(cs, ts, ns, ps, next)
    requires k in ts && ts[k].args == s
    ensures k in ns && ns[k].args.addr != s.addr ==> !Same(ns[k].tasks, ts[k].result)
    ensures k in ps && ps[k].args.addr != s.addr ==> !Same(ps[k].tasks, ts[k].result)
  {
    assert KeyOk(cs, ts, ns, ps, next, k);
  }

  /** The caches of the four column selectors. Slots are created on first use and never
      removed. Every object a selector builds gets an identity not handed out before. */
  class ColumnSelectors {
    var columnSlots: ColumnSlots
    var tasksSlots: TasksSlots
    var nestedSlots: NestedSlots
    var positionsSlots: PositionsSlots
    var nextAddr: nat

    ghost predicate Valid()
      reads this
    {
      SlotsOk(columnSlots, tasksSlots, nestedSlots, positionsSlots, nextAddr)
    }

    ghost predicate Coherent(s: State, k: ColumnId)
      reads this
    {
      CoherentAt(columnSlots, tasksSlots, nestedSlots, positionsSlots, s, k)
    }

    constructor ()
      ensures Valid()
      ensures columnSlots == map[] && tasksSlots == map[] && nestedSlots == map[] && positionsSlots == map[]
      ensures nextAddr == 0
    {
      columnSlots, tasksSlots, nestedSlots, positionsSlots := map[], map[], map[], map[];
      nextAddr := 0;
    }

    /** selectColumnById(state, columnId). */
    method SelectColumnById(s: State, k: ColumnId) returns (r: Option<Ref<Column>>)
      requires Valid() && Coherent(s, k)
      modifies this
      ensures Valid() && Coherent(s, k)
      ensures r == ColumnById(s, k)
      ensures r == ColumnCall(if k in old(columnSlots) then Some(old(columnSlots)[k]) else None, s, k)
      ensures k in old(columnSlots) && Same(old(columnSlots)[k].columnsById, s.columnsById) ==>
        r == old(columnSlots)[k].result
      ensures columnSlots == old(columnSlots)[k := ColumnSlot(s, s.columnsById, r)]
      ensures tasksSlots == old(tasksSlots) && nestedSlots == old(nestedSlots)
      ensures positionsSlots == old(positionsSlots) && nextAddr == old(nextAddr)
    {
      assert KeyOk(columnSlots, tasksSlots, nestedSlots, positionsSlots, nextAddr, k);
      if k in columnSlots && columnSlots[k].args.addr == s.addr {
        r := columnSlots[k].result;
      } else {
        var columnsById := s.columnsById;  // selectColumnByIdMap(state)
        if k in columnSlots && Same(columnSlots[k].columnsById, columnsById) {
          r := columnSlots[k].result;
        } else {
          r := ColumnById(s, k);
        }
        ColumnWriteKeepsSlotsOk(columnSlots, tasksSlots, nestedSlots, positionsSlots, nextAddr,
                                k, ColumnSlot(s, columnsById, r));
        columnSlots := columnSlots[k := ColumnSlot(s, columnsById, r)];
      }
    }

    /** selectTasksOfColumn(state, columnId). */
    method SelectTasksOfColumn(s: State, k: ColumnId) returns (r: Ref<seq<Task>>)
      requires Valid() && Coherent(s, k)
      modifies this
      ensures Valid() && Coherent(s, k)
      ensures r.val == TasksOfColumn(s, k) && r.addr < nextAddr
      ensures tasksSlots == old(tasksSlots)[k := TasksSlot(s, r)]
      ensures nestedSlots == old(nestedSlots) && positionsSlots == old(positionsSlots)
      ensures if k in old(tasksSlots) && old(tasksSlots)[k].args.addr == s.addr then
                r == old(tasksSlots)[k].result && columnSlots == old(columnSlots) && nextAddr == old(nextAddr)
              else
                && r.addr == old(nextAddr) && nextAddr == old(nextAddr) + 1
                && columnSlots == old(columnSlots)[k := ColumnSlot(s, s.columnsById, ColumnById(s, k))]
    {
      assert KeyOk(columnSlots, tasksSlots, nestedSlots, positionsSlots, nextAddr, k);
      if k in tasksSlots && tasksSlots[k].args.addr == s.addr {
        r := tasksSlots[k].result;
      } else {
        var column := SelectColumnById(s, k);
        r := Ref(nextAddr, TasksFrom(s, column));
        TasksWriteKeepsSlotsOk(columnSlots, tasksSlots, nestedSlots, positionsSlots, nextAddr, k, TasksSlot(s, r));
        nextAddr := nextAddr + 1;
        tasksSlots := tasksSlots[k := TasksSlot(s, r)];
      }
    }

    /** selectNestedColumnById(state, columnId). */
    method SelectNestedColumnById(s: State, k: ColumnId) returns (r: Option<Ref<NestedColumn>>)
      requires Valid() && Coherent(s, k)
      modifies this
      ensures Valid() && Coherent(s, k)
      ensures Contents(r) == NestedColumnById(s, k)
      ensures r.Some? ==> r.value.addr < nextAddr
      ensures k in nestedSlots && nestedSlots[k].args == s && nestedSlots[k].result == r
      ensures positionsSlots == old(positionsSlots) && old(nextAddr) <= nextAddr
      ensures if k in old(nestedSlots) && old(nestedSlots)[k].args.addr == s.addr then
                && r == old(nestedSlots)[k].result && nextAddr == old(nextAddr)
                && columnSlots == old(columnSlots) && tasksSlots == old(tasksSlots) && nestedSlots == old(nestedSlots)
              else NestedRecomputed(old(columnSlots), old(tasksSlots), old(nestedSlots), old(nextAddr), s, k, r)
    {
      assert KeyOk(columnSlots, tasksSlots, nestedSlots, positionsSlots, nextAddr, k);
      if k in nestedSlots && nestedSlots[k].args.addr == s.addr {
        r := nestedSlots[k].result;
      } else {
        r := RecomputeNestedColumn(s, k);
      }
    }

    /** The new state after selectNestedColumnById missed on its arguments: both inputs were
        selected again, the task list is the one remembered for `s` or a new object, the
        remembered view was not reused, and the new view, if any, is a new object. */
    ghost predicate NestedRecomputed(cs: ColumnSlots, ts: TasksSlots, ns: NestedSlots, next: nat,
                                     s: State, k: ColumnId, r: Option<Ref<NestedColumn>>)
      reads this
    {
      && columnSlots == cs[k := ColumnSlot(s, s.columnsById, ColumnById(s, k))]
      && k in tasksSlots && tasksSlots[k].args == s
      && tasksSlots == ts[k := tasksSlots[k]]
      && ((k in ts && ts[k].args.addr == s.addr && tasksSlots == ts) || next <= tasksSlots[k].result.addr)
      && nestedSlots == ns[k := NestedSlot(s, ColumnById(s, k), tasksSlots[k].result, r)]
      && (k in ns ==> !Same(ns[k].tasks, tasksSlots[k].result))
      && (r.Some? ==> next <= r.value.addr)
    }

    /** The miss path of selectNestedColumnById: select the column and the task list, then
        run the result stage on them. */
    method RecomputeNestedColumn(s: State, k: ColumnId) returns (r: Option<Ref<NestedColumn>>)
      requires Valid() && Coherent(s, k)
      requires k in nestedSlots ==> nestedSlots[k].args.addr != s.addr
      modifies this
      ensures Valid() && Coherent(s, k)
      ensures Contents(r) == NestedColumnById(s, k)
      ensures r.Some? ==> r.value.addr < nextAddr
      ensures positionsSlots == old(positionsSlots) && old(nextAddr) <= nextAddr
      ensures NestedRecomputed(old(columnSlots), old(tasksSlots), old(nestedSlots), old(nextAddr), s, k, r)
    {
      ghost var tasksBefore := tasksSlots;
      var column := SelectColumnById(s, k);
      ghost var columnsAfter := columnSlots;
      var tasks := SelectTasksOfColumn(s, k);
      assert columnSlots == columnsAfter by {
        if !(k in tasksBefore && tasksBefore[k].args.addr == s.addr) {
          assert columnsAfter[k] == ColumnSlot(s, s.columnsById, ColumnById(s, k));
          assert columnsAfter[k := columnsAfter[k]] == columnsAfter;
        }
      }
      ghost var next := nextAddr;
      assert (k in tasksBefore && tasksBefore[k].args.addr == s.addr && tasksSlots == tasksBefore)
          || old(nextAddr) <= tasks.addr by {
        if k in tasksBefore && tasksBefore[k].args.addr == s.addr {
          assert tasksBefore[k] == TasksSlot(s, tasks);
          assert tasksBefore[k := tasksBefore[k]] == tasksBefore;
        }
      }
      InnerReuseNeverFires(columnSlots, tasksSlots, nestedSlots, positionsSlots, nextAddr, s, k);
      var remembered := if k in nestedSlots then Some(nestedSlots[k]) else None;
      assert remembered.Some? ==> !Same(remembered.value.tasks, tasks);
      r := NestedCall(remembered, column, tasks, nextAddr);
      assert Contents(r) == NestedFrom(column, tasks.val) && (r.Some? ==> r.value.addr == nextAddr);
      if r.Some? && r.value.addr == nextAddr {
        nextAddr := nextAddr + 1;
      }
      NestedWriteKeepsSlotsOk(columnSlots, tasksSlots, nestedSlots, positionsSlots, next, nextAddr,
                              k, NestedSlot(s, column, tasks, r));
      nestedSlots := nestedSlots[k := NestedSlot(s, column, tasks, r)];
    }

    /** selectTaskPositionsOfColumn(state, columnId). */
    method SelectTaskPositionsOfColumn(s: State, k: ColumnId) returns (r: Ref<seq<TaskPosition>>)
      requires Valid() && Coherent(s, k)
      modifies this
      ensures Valid() && Coherent(s, k)
      ensures r.val == TaskPositionsOfColumn(s, k) && r.addr < nextAddr
      ensures k in positionsSlots && positionsSlots[k].args == s && positionsSlots[k].result == r
      ensures nestedSlots == old(nestedSlots) && old(nextAddr) <= nextAddr
      ensures if k in old(positionsSlots) && old(positionsSlots)[k].args.addr == s.addr then
                && r == old(positionsSlots)[k].result && nextAddr == old(nextAddr)
                && columnSlots == old(columnSlots) && tasksSlots == old(tasksSlots)
                && positionsSlots == old(positionsSlots)
              else PositionsRecomputed(old(columnSlots), old(tasksSlots), old(positionsSlots), old(nextAddr), s, k, r)
    {
      assert KeyOk(columnSlots, tasksSlots, nestedSlots, positionsSlots, nextAddr, k);
      if k in positionsSlots && positionsSlots[k].args.addr == s.addr {
        r := positionsSlots[k].result;
      } else {
        r := RecomputeTaskPositions(s, k);
      }
    }

    /** The new state after selectTaskPositionsOfColumn missed on its arguments: the task
        list was selected again (and with it the column when the tasks selector missed too),
        it is the one remembered for `s` or a new object, the remembered list was not reused,
        and the new list is a new object. */
    ghost predicate PositionsRecomputed(cs: ColumnSlots, ts: TasksSlots, ps: PositionsSlots, next: nat,
                                        s: State, k: ColumnId, r: Ref<seq<TaskPosition>>)
      reads this
    {
      && k in tasksSlots && tasksSlots[k].args == s
      && tasksSlots == ts[k := tasksSlots[k]]
      && ((k in ts && ts[k].args.addr == s.addr && tasksSlots == ts) || next <= tasksSlots[k].result.addr)
      && columnSlots == (if k in ts && ts[k].args.addr == s.addr then cs
                         else cs[k := ColumnSlot(s, s.columnsById, ColumnById(s, k))])
      && positionsSlots == ps[k := PositionsSlot(s, tasksSlots[k].result, r)]
      && (k in ps ==> !Same(ps[k].tasks, tasksSlots[k].result))
      && next <= r.addr
    }

    /** The miss path of selectTaskPositionsOfColumn: select the task list, then run the
        result stage on it. */
    method RecomputeTaskPositions(s: State, k: ColumnId) returns (r: Ref<seq<TaskPosition>>)
      requires Valid() && Coherent(s, k)
      requires k in positionsSlots ==> positionsSlots[k].args.addr != s.addr
      modifies this
      ensures Valid() && Coherent(s, k)
      ensures r.val == TaskPositionsOfColumn(s, k) && r.addr < nextAddr
      ensures nestedSlots == old(nestedSlots) && old(nextAddr) <= nextAddr
      ensures PositionsRecomputed(old(columnSlots), old(tasksSlots), old(positionsSlots), old(nextAddr), s, k, r)
    {
      var tasks := SelectTasksOfColumn(s, k);
      ghost var next := nextAddr;
      InnerReuseNeverFires(columnSlots, tasksSlots, nestedSlots, positionsSlots, nextAddr, s, k);
      var remembered := if k in positionsSlots then Some(positionsSlots[k]) else None;
      assert remembered.Some? ==> !Same(remembered.value.tasks, tasks);
      r := PositionsCall(remembered, tasks, nextAddr);
      assert r.val == TaskPositions(tasks.val) && r.addr == nextAddr;
      if r.addr == nextAddr {
        nextAddr := nextAddr + 1;
      }
      PositionsWriteKeepsSlotsOk(columnSlots, tasksSlots, nestedSlots, positionsSlots, next, nextAddr,
                                 k, PositionsSlot(s, tasks, r));
      positionsSlots := positionsSlots[k := PositionsSlot(s, tasks, r)];
    }
  }

  /** Within one snapshot, reading a column view twice gives the same object. */
  method RepeatedReadIsStable(c: ColumnSelectors, s: State, k: ColumnId)
    returns (first: Option<Ref<NestedColumn>>, second: Option<Ref<NestedColumn>>)
    requires c.Valid() && c.Coherent(s, k)
    modifies c
    ensures c.Valid()
    ensures first == second && Contents(first) == NestedColumnById(s, k)
  {
    first := c.SelectNestedColumnById(s, k);
    second := c.SelectNestedColumnById(s, k);
  }

  /** A new state object rebuilds a column's view, with a new identity, whatever the cache
      holds and even when the column and its tasks did not change, because
      selectTasksOfColumn depends on the whole state. */
  method NewSnapshotRebuildsColumnView(c: ColumnSelectors, s: State, k: ColumnId) returns (v: Option<Ref<NestedColumn>>)
    requires c.Valid() && c.Coherent(s, k)
    requires k in c.nestedSlots && c.nestedSlots[k].args.addr != s.addr
    requires k in s.columnsById.val
    modifies c
    ensures c.Valid()
    ensures v.Some? && Contents(v) == NestedColumnById(s, k)
    ensures old(c.nestedSlots[k].result).Some? ==> v.value.addr != old(c.nestedSlots[k].result).value.addr
  {
    ghost var before := c.nestedSlots[k];
    ghost var tasks := c.tasksSlots;
    ghost var next := c.nextAddr;
    assert KeyOk(c.columnSlots, tasks, c.nestedSlots, c.positionsSlots, next, k);
    v := c.SelectNestedColumnById(s, k);
    assert !Same(before.tasks, c.tasksSlots[k].result);
  }

  /** A write of another column leaves a column's object, as selectColumnById returns it,
      the very object remembered before. */
  method SiblingColumnKeepsIdentity(c: ColumnSelectors, s: State, j: ColumnId, col: Ref<Column>,
                                    addr: nat, byIdAddr: nat, k: ColumnId)
    returns (r: Option<Ref<Column>>)
    requires j != k && k in c.columnSlots
    requires s == c.columnSlots[k].args.(addr := addr, columnsById := Ref(byIdAddr, c.columnSlots[k].args.columnsById.val[j := col]))
    requires c.Valid() && c.Coherent(s, k)
    modifies c
    ensures c.Valid()
    ensures r == old(c.columnSlots[k].result)
  {
    ghost var before := c.columnSlots[k];
    assert KeyOk(c.columnSlots, c.tasksSlots, c.nestedSlots, c.positionsSlots, c.nextAddr, k);
    ColumnByIdAfterWrite(before.args, j, col, byIdAddr, k);
    r := c.SelectColumnById(s, k);
  }
}
