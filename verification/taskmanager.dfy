/** The lab 1 task list: a map from id to task and an id counter that only
    grows (labs/lab01/backend/taskmanager/taskmanager.go). */
module TaskManager {
  import opened Bytes
  import opened Outcomes

  /** A wall-clock reading; the manager only stores it. */
  type Instant = int

  datatype Task = Task(id: int, title: Bytes, description: Bytes, done: bool, createdAt: Instant)

  datatype Manager = Manager(tasks: map<int, Task>, nextID: int)

  /** ErrInvalidID, ErrEmptyTitle, ErrTaskNotFound. */
  datatype TaskError = InvalidID | EmptyTitle | TaskNotFound

  /** What every manager built by these operations satisfies: each task is
      stored under its own id, and every id is positive and below the counter. */
  ghost predicate Valid(m: Manager) {
    && m.nextID >= 1
    && forall k :: k in m.tasks ==> 1 <= k < m.nextID && m.tasks[k].id == k
  }

  function NewTaskManager(): (m: Manager)
    ensures |m.tasks| == 0 && m.nextID == 1
    ensures Valid(m)
  {
    Manager(map[], 1)
  }

  /** AddTask: an empty title is refused; otherwise a task with the counter's
      value as id is stored and the counter moves on. */
  function AddTask(m: Manager, title: Bytes, description: Bytes, now: Instant): (r: (Manager, Result<Task, TaskError>))
    ensures title == [] ==> r == (m, Err(EmptyTitle))
    ensures title != [] ==>
      && r.1 == Ok(Task(m.nextID, title, description, false, now))
      && r.0.nextID == m.nextID + 1
      && r.0.tasks.Keys == m.tasks.Keys + {m.nextID}
      && r.0.tasks[m.nextID] == r.1.value
      && forall k :: k in m.tasks && k != m.nextID ==> r.0.tasks[k] == m.tasks[k]
    ensures Valid(m) && r.1.Ok? ==> r.1.value.id !in m.tasks && |r.0.tasks| == |m.tasks| + 1
    ensures Valid(m) ==> Valid(r.0)
  {
    if title == [] then (m, Err(EmptyTitle))
    else
      var t := Task(m.nextID, title, description, false, now);
      (Manager(m.tasks[m.nextID := t], m.nextID + 1), Ok(t))
  }

  /** UpdateTask: id, then title, then presence are checked in that order; on
      success only title, description and done of that one task change. */
  function UpdateTask(m: Manager, id: int, title: Bytes, description: Bytes, done: bool): (r: (Manager, Option<TaskError>))
    ensures r.1 == Some(InvalidID) <==> id < 1
    ensures r.1 == Some(EmptyTitle) <==> id >= 1 && title == []
    ensures r.1 == Some(TaskNotFound) <==> id >= 1 && title != [] && id !in m.tasks
    ensures r.1.Some? ==> r.0 == m
    ensures r.1 == None ==>
      && id in m.tasks
      && r.0.nextID == m.nextID
      && r.0.tasks.Keys == m.tasks.Keys
      && r.0.tasks[id].id == m.tasks[id].id
      && r.0.tasks[id].createdAt == m.tasks[id].createdAt
      && r.0.tasks[id].title == title
      && r.0.tasks[id].description == description
      && r.0.tasks[id].done == done
      && forall k :: k in m.tasks && k != id ==> r.0.tasks[k] == m.tasks[k]
    ensures Valid(m) ==> Valid(r.0)
  {
    if id < 1 then (m, Some(InvalidID))
    else if title == [] then (m, Some(EmptyTitle))
    else if id !in m.tasks then (m, Some(TaskNotFound))
    else
      var t := m.tasks[id].(title := title, description := description, done := done);
      (m.(tasks := m.tasks[id := t]), None)
  }

  /** DeleteTask: removes exactly the key `id`; the counter is never lowered. */
  function DeleteTask(m: Manager, id: int): (r: (Manager, Option<TaskError>))
    ensures r.1 == Some(InvalidID) <==> id < 1
    ensures r.1 == Some(TaskNotFound) <==> id >= 1 && id !in m.tasks
    ensures r.1.Some? ==> r.0 == m
    ensures r.1 == None ==>
      && id in m.tasks
      && r.0.nextID == m.nextID
      && r.0.tasks.Keys == m.tasks.Keys - {id}
      && forall k :: k in r.0.tasks ==> r.0.tasks[k] == m.tasks[k]
    ensures Valid(m) ==> Valid(r.0)
  {
    if id < 1 then (m, Some(InvalidID))
    else if id !in m.tasks then (m, Some(TaskNotFound))
    else (m.(tasks := m.tasks - {id}), None)
  }

  /** GetTask: the stored task, or the same errors as DeleteTask. */
  function GetTask(m: Manager, id: int): (r: Result<Task, TaskError>)
    ensures r == Err(InvalidID) <==> id < 1
    ensures r == Err(TaskNotFound) <==> id >= 1 && id !in m.tasks
    ensures r.Ok? <==> id >= 1 && id in m.tasks
    ensures r.Ok? ==> r.value == m.tasks[id]
    ensures Valid(m) && r.Ok? ==> r.value.id == id
  {
    if id < 1 then Err(InvalidID)
    else if id !in m.tasks then Err(TaskNotFound)
    else Ok(m.tasks[id])
  }

  /** The filter of ListTasks: nil keeps every task, &b keeps those with Done == b. */
  predicate Selected(filter: Option<bool>, t: Task) {
    filter == None || t.done == filter.value
  }

  /** The keys whose tasks pass the filter. */
  ghost function SelectedKeys(m: Manager, filter: Option<bool>): set<int> {
    set k | k in m.tasks && Selected(filter, m.tasks[k])
  }

  /** Some element of a non-empty key set; which one is left open, as Go's map
      iteration order is. */
  method PickKey(keys: set<int>) returns (k: int)
    requires keys != {}
    ensures k in keys
  {
    if forall x :: x !in keys {
      assert false;  // keys would equal {}
    }
    k :| k in keys;
  }

  /** The loop of ListTasks: visits every key once, in an order left open, and
      keeps the tasks that pass the filter; `keys` records where each came from. */
  method CollectSelected(m: Manager, filter: Option<bool>) returns (r: seq<Task>, ghost keys: seq<int>)
    ensures |keys| == |r| == |SelectedKeys(m, filter)|
    ensures forall i :: 0 <= i < |r| ==> keys[i] in SelectedKeys(m, filter) && r[i] == m.tasks[keys[i]]
    ensures forall i, j :: 0 <= i < j < |r| ==> keys[i] != keys[j]
    ensures forall k :: k in SelectedKeys(m, filter) ==> m.tasks[k] in r
  {
    r, keys := [], [];
    var remaining := m.tasks.Keys;
    ghost var picked: set<int> := {};
    while |remaining| > 0
      invariant remaining <= m.tasks.Keys && picked <= m.tasks.Keys
      invariant picked !! remaining
      invariant |r| == |picked| == |keys|
      invariant forall i :: 0 <= i < |r| ==> keys[i] in picked && r[i] == m.tasks[keys[i]]
      invariant forall i, j :: 0 <= i < j < |r| ==> keys[i] != keys[j]
      invariant forall k :: k in picked ==> Selected(filter, m.tasks[k]) && m.tasks[k] in r
      invariant forall k :: k in m.tasks && k !in remaining && Selected(filter, m.tasks[k]) ==> k in picked
      decreases remaining
    {
      var k := PickKey(remaining);
      if Selected(filter, m.tasks[k]) {
        r := r + [m.tasks[k]];
        keys := keys + [k];
        picked := picked + {k};
      }
      remaining := remaining - {k};
    }
    forall k ensures k in picked <==> k in SelectedKeys(m, filter) { }
    assert picked == SelectedKeys(m, filter);
  }

  /** ListTasks: every stored task passing the filter, each exactly once, in
      the unspecified order of Go's map iteration (here: any order). */
  method ListTasks(m: Manager, filter: Option<bool>) returns (r: seq<Task>)
    ensures forall i :: 0 <= i < |r| ==> r[i] in m.tasks.Values && Selected(filter, r[i])
    ensures forall k :: k in m.tasks && Selected(filter, m.tasks[k]) ==> m.tasks[k] in r
    ensures |r| == |SelectedKeys(m, filter)|
    ensures Valid(m) ==> forall i, j :: 0 <= i < j < |r| ==> r[i].id != r[j].id
  {
    ghost var keys;
    r, keys := CollectSelected(m, filter);
    forall i | 0 <= i < |r| ensures r[i] in m.tasks.Values {
      assert keys[i] in m.tasks;
    }
  }

  // ---------------------------------------------------------------------------
  // Histories: ids are never reused

  /** One call on the manager. */
  datatype Op =
    | AddOp(title: Bytes, description: Bytes, now: Instant)
    | UpdateOp(id: int, title: Bytes, description: Bytes, done: bool)
    | DeleteOp(id: int)

  /** The state after one call, and the id it issued if it was a successful AddTask. */
  function ApplyOp(m: Manager, op: Op): (Manager, seq<int>) {
    match op
    case AddOp(title, description, now) =>
      var (m', r) := AddTask(m, title, description, now);
      (m', if r.Ok? then [r.value.id] else [])
    case UpdateOp(id, title, description, done) => (UpdateTask(m, id, title, description, done).0, [])
    case DeleteOp(id) => (DeleteTask(m, id).0, [])
  }

  /** The state after a sequence of calls, and the ids issued along the way. */
  function ApplyOps(m: Manager, ops: seq<Op>): (Manager, seq<int>)
    decreases |ops|
  {
    if ops == [] then (m, [])
    else
      var (m1, ids1) := ApplyOp(m, ops[0]);
      var (m2, ids2) := ApplyOps(m1, ops[1..]);
      (m2, ids1 + ids2)
  }

  /** The ids strictly increase and all lie in [lo, hi). */
  ghost predicate IncreasingWithin(ids: seq<int>, lo: int, hi: int) {
    && (forall i :: 0 <= i < |ids| ==> lo <= ids[i] < hi)
    && (forall i, j :: 0 <= i < j < |ids| ==> ids[i] < ids[j])
  }

  lemma ConcatIncreasing(a: seq<int>, b: seq<int>, lo: int, mid: int, hi: int)
    requires lo <= mid <= hi
    requires IncreasingWithin(a, lo, mid) && IncreasingWithin(b, mid, hi)
    ensures IncreasingWithin(a + b, lo, hi)
  {
  }

  /** Over any history from a valid manager the ids issued by AddTask strictly
      increase, all lie in [nextID, final nextID), so none equals a key stored
      at the start or an id issued earlier, even after deletions. */
  lemma {:induction false} IssuedIdsNeverReused(m: Manager, ops: seq<Op>)
    requires Valid(m)
    ensures var (m', ids) := ApplyOps(m, ops);
      && Valid(m')
      && m.nextID <= m'.nextID
      && (forall i :: 0 <= i < |ids| ==> m.nextID <= ids[i] < m'.nextID && ids[i] !in m.tasks)
      && (forall i, j :: 0 <= i < j < |ids| ==> ids[i] < ids[j])
    decreases |ops|
  {
    if ops != [] {
      var (m1, ids1) := ApplyOp(m, ops[0]);
      assert Valid(m1) && m1.nextID >= m.nextID;
      assert forall i :: 0 <= i < |ids1| ==> ids1[i] == m.nextID && m1.nextID == m.nextID + 1;
      IssuedIdsNeverReused(m1, ops[1..]);
      var (m2, ids2) := ApplyOps(m1, ops[1..]);
      assert IncreasingWithin(ids1, m.nextID, m1.nextID);
      assert IncreasingWithin(ids2, m1.nextID, m2.nextID);
      ConcatIncreasing(ids1, ids2, m.nextID, m1.nextID, m2.nextID);
      assert ApplyOps(m, ops) == (m2, ids1 + ids2);
    }
  }
}
