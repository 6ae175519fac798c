/**
 * The in-memory store for agent-to-agent tasks: a dictionary from task id to
 * task, updated in place by `save`, `delete` and `cleanup_old`.
 *
 * A Python dict remembers the order in which its keys were first inserted,
 * and `list_active` returns tasks in that order, so the store keeps the key
 * order next to the map. Times are integers (microseconds); the clock is the
 * `now` parameter of the operations that read it.
 * (The module defining `Task` and `TaskStatus`, `a2a/models.py`, is not part
 * of this model: a task here carries only the fields the store reads or
 * writes, and a status is one of the three terminal states or some other
 * named state.)
 */
module TaskStore {
  import opened Wrappers
  import opened Text

  datatype TaskStatus = Completed | Canceled | Failed | Other(name: string)

  datatype Task = Task(id: string, status: TaskStatus, updatedAt: int)

  /** A `timedelta(hours=1)` in the model's time unit. */
  const MicrosPerHour: int := 3_600_000_000

  /** The default `max_age_hours` of `cleanup_old`. */
  const DefaultMaxAgeHours: int := 24

  /** The instant `max_age_hours` before `now`: older tasks are removed by `cleanup_old`. */
  function Cutoff(now: int, maxAgeHours: int): int {
    now - maxAgeHours * MicrosPerHour
  }

  /** The states `list_active` leaves out. */
  predicate IsTerminal(s: TaskStatus) {
    s == Completed || s == Canceled || s == Failed
  }

  predicate Distinct<T(==)>(s: seq<T>) {
    forall i, j | 0 <= i < j < |s| :: s[i] != s[j]
  }

  /** `s` without the elements in `gone`, order kept. */
  function RemoveAll<T(==)>(s: seq<T>, gone: set<T>): seq<T> {
    if s == [] then []
    else
      var r := RemoveAll(s[..|s| - 1], gone);
      if s[|s| - 1] in gone then r else r + [s[|s| - 1]]
  }

  /** `RemoveAll` keeps exactly the elements outside `gone`, each as often as before. */
  lemma {:induction false} RemoveAllElems<T>(s: seq<T>, gone: set<T>)
    ensures Elems(RemoveAll(s, gone)) == Elems(s) - gone
    ensures Distinct(s) ==> Distinct(RemoveAll(s, gone))
  {
    if s != [] {
      var init, last := s[..|s| - 1], s[|s| - 1];
      var r := RemoveAll(init, gone);
      RemoveAllElems(init, gone);
      assert s == init + [last];
      ElemsAppend(init, [last]);
      if last !in gone {
        ElemsAppend(r, [last]);
        if Distinct(s) {
          assert last !in Elems(init) by {
            forall i | 0 <= i < |init| ensures init[i] != last {
              assert init[i] == s[i];
            }
          }
        }
      }
    }
  }

  /** Removing two sets one after the other removes their union. */
  lemma {:induction false} RemoveAllTwice<T>(s: seq<T>, a: set<T>, b: set<T>)
    ensures RemoveAll(RemoveAll(s, a), b) == RemoveAll(s, a + b)
  {
    if s != [] {
      RemoveAllTwice(s[..|s| - 1], a, b);
      var r := RemoveAll(s[..|s| - 1], a);
      if s[|s| - 1] !in a {
        assert (r + [s[|s| - 1]])[..|r|] == r;
      }
    }
  }

  /** The tasks of `order`, looked up in `tasks`, in key order: `self._tasks.values()`. */
  function ValuesIn(order: seq<string>, tasks: map<string, Task>): (r: seq<Task>)
    requires Elems(order) <= tasks.Keys
  {
    seq(|order|, i requires 0 <= i < |order| => tasks[order[i]])
  }

  /** The non-terminal tasks among `values`, order kept. */
  function ActiveOf(values: seq<Task>): (r: seq<Task>)
  {
    if values == [] then []
    else
      var r := ActiveOf(values[..|values| - 1]);
      if IsTerminal(values[|values| - 1].status) then r else r + [values[|values| - 1]]
  }

  /** A task is listed as active exactly when it is among the values and not terminal. */
  lemma {:induction false} ActiveOfExactly(values: seq<Task>, t: Task)
    ensures t in ActiveOf(values) <==> t in values && !IsTerminal(t.status)
  {
    if values != [] {
      var init := values[..|values| - 1];
      ActiveOfExactly(init, t);
      assert values == init + [values[|values| - 1]];
    }
  }

  /** No two tasks of `s` share an id. */
  predicate DistinctIds(s: seq<Task>) {
    forall i, j | 0 <= i < j < |s| :: s[i].id != s[j].id
  }

  /** Filtering keeps ids distinct. */
  lemma {:induction false} ActiveOfDistinctIds(values: seq<Task>)
    requires DistinctIds(values)
    ensures DistinctIds(ActiveOf(values))
  {
    if values != [] {
      var init := values[..|values| - 1];
      var last := values[|values| - 1];
      assert DistinctIds(init);
      ActiveOfDistinctIds(init);
      var r := ActiveOf(init);
      forall i | 0 <= i < |r| ensures r[i].id != last.id {
        ActiveOfExactly(init, r[i]);
        var j :| 0 <= j < |init| && init[j] == r[i];
        assert values[j] == init[j];
      }
    }
  }

  /** The ids in `order` whose task was last updated before `cutoff`, in key order. */
  function StaleIds(order: seq<string>, tasks: map<string, Task>, cutoff: int): (r: seq<string>)
    requires Elems(order) <= tasks.Keys
  {
    if order == [] then []
    else
      var r := StaleIds(order[..|order| - 1], tasks, cutoff);
      ElemsAppend(order[..|order| - 1], [order[|order| - 1]]);
      assert order == order[..|order| - 1] + [order[|order| - 1]];
      if tasks[order[|order| - 1]].updatedAt < cutoff then r + [order[|order| - 1]] else r
  }

  /** The set of stored ids whose task is older than `cutoff`. */
  function StaleKeys(tasks: map<string, Task>, cutoff: int): set<string> {
    set k | k in tasks && tasks[k].updatedAt < cutoff
  }

  /** `StaleIds` lists every stale key once, and nothing else. */
  lemma {:induction false} StaleIdsExactly(order: seq<string>, tasks: map<string, Task>, cutoff: int)
    requires Elems(order) <= tasks.Keys
    ensures Elems(StaleIds(order, tasks, cutoff)) == Elems(order) * StaleKeys(tasks, cutoff)
    ensures Distinct(order) ==> Distinct(StaleIds(order, tasks, cutoff))
  {
    if order != [] {
      var init := order[..|order| - 1];
      var last := order[|order| - 1];
      assert order == init + [last];
      ElemsAppend(init, [last]);
      StaleIdsExactly(init, tasks, cutoff);
      var r := StaleIds(init, tasks, cutoff);
      ElemsAppend(r, [last]);
      if Distinct(order) {
        assert Distinct(init);
        assert last !in Elems(init) by {
          forall i | 0 <= i < |init| ensures init[i] != last {
            assert init[i] == order[i];
          }
        }
      }
    }
  }

  /** A distinct sequence has as many elements as its set. */
  lemma DistinctLength<T>(s: seq<T>)
    requires Distinct(s)
    ensures |Elems(s)| == |s|
  {
    DistinctSetCard(s);
  }

  /** The key order lists each stored id once, and every task is stored under its own id. */
  ghost predicate Consistent(tasks: map<string, Task>, order: seq<string>) {
    Distinct(order) && Elems(order) == tasks.Keys &&
    forall k | k in tasks :: tasks[k].id == k
  }

  /** Removing a set of keys from both the map and the key order keeps them consistent. */
  lemma RemovalKeepsConsistent(tasks: map<string, Task>, order: seq<string>, gone: set<string>)
    requires Consistent(tasks, order)
    ensures Consistent(tasks - gone, RemoveAll(order, gone))
  {
    RemoveAllElems(order, gone);
  }

  class TaskStore {
    /** `self._tasks`. */
    var tasks: map<string, Task>
    /** The dict's key order: the order in which each id was first saved. */
    var order: seq<string>

    /** The order lists each stored id once, and every task is stored under its own id. */
    ghost predicate Valid()
      reads this
    {
      Consistent(tasks, order)
    }

    constructor ()
      ensures Valid()
      ensures tasks == map[] && order == []
    {
      tasks := map[];
      order := [];
    }

    /** `save`: stamp the task with the current time and store it under its id. */
    method Save(task: Task, now: int)
      requires Valid()
      modifies this
      ensures Valid()
      ensures tasks == old(tasks)[task.id := task.(updatedAt := now)]
      ensures order == if task.id in old(tasks) then old(order) else old(order) + [task.id]
      ensures |tasks| == if task.id in old(tasks) then |old(tasks)| else |old(tasks)| + 1
    {
      if task.id !in tasks {
        ElemsAppend(order, [task.id]);
        order := order + [task.id];
      }
      tasks := tasks[task.id := task.(updatedAt := now)];
    }

    /** `get`: the task stored under `taskId`, if any; it carries that id. */
    function Get(taskId: string): (r: Option<Task>)
      reads this
      requires Valid()
      ensures r.Some? <==> taskId in tasks
      ensures r.Some? ==> r.value.id == taskId && r.value == tasks[taskId]
    {
      if taskId in tasks then Some(tasks[taskId]) else None
    }

    /** `delete`: drop `taskId`; report whether it was there. */
    method Delete(taskId: string) returns (existed: bool)
      requires Valid()
      modifies this
      ensures Valid()
      ensures existed <==> taskId in old(tasks)
      ensures tasks == old(tasks) - {taskId}
      ensures order == RemoveAll(old(order), {taskId})
    {
      if taskId in tasks {
        RemoveAllElems(order, {taskId});
        tasks := tasks - {taskId};
        order := RemoveAll(order, {taskId});
        return true;
      }
      assert RemoveAll(order, {taskId}) == order by {
        RemoveAllOfAbsent(order, {taskId});
      }
      return false;
    }

    /** `list_active`: the stored tasks that are not completed, canceled or failed, in key order. */
    function ListActive(): (r: seq<Task>)
      reads this
      requires Valid()
      ensures forall t :: t in r <==> t in tasks.Values && !IsTerminal(t.status)
      ensures forall i, j | 0 <= i < j < |r| :: r[i].id != r[j].id
    {
      var values := ValuesIn(order, tasks);
      assert forall t :: t in values <==> t in tasks.Values by {
        forall t | t in tasks.Values ensures t in values {
          var k :| k in tasks && tasks[k] == t;
          assert k in Elems(order);
          var i :| 0 <= i < |order| && order[i] == k;
          assert values[i] == t;
        }
      }
      forall t ensures t in ActiveOf(values) <==> t in values && !IsTerminal(t.status) {
        ActiveOfExactly(values, t);
      }
      assert DistinctIds(values);
      ActiveOfDistinctIds(values);
      ActiveOf(values)
    }

    /** `cleanup_old`: remove every task last updated more than `maxAgeHours` before `now`. */
    method CleanupOld(now: int, maxAgeHours: int := DefaultMaxAgeHours) returns (removed: nat)
      requires Valid()
      modifies this
      ensures Valid()
      ensures tasks == old(tasks) - StaleKeys(old(tasks), Cutoff(now, maxAgeHours))
      ensures order == RemoveAll(old(order), StaleKeys(old(tasks), Cutoff(now, maxAgeHours)))
      ensures removed == |StaleKeys(old(tasks), Cutoff(now, maxAgeHours))|
      ensures removed == |old(tasks)| - |tasks|
    {
      var cutoff := Cutoff(now, maxAgeHours);
      var oldIds := StaleIds(order, tasks, cutoff);
      StaleIdsExactly(order, tasks, cutoff);
      ghost var stale := StaleKeys(tasks, cutoff);
      assert Elems(oldIds) == stale;
      RemovalKeepsConsistent(tasks, order, stale);
      DeleteEach(oldIds);
      removed := |oldIds|;
      DistinctLength(oldIds);
      CleanupCount(old(tasks), stale);
    }

    /** The deletion loop of `cleanup_old`: `del` each of `ids` in turn. */
    method DeleteEach(ids: seq<string>)
      requires Elems(ids) <= tasks.Keys
      modifies this
      ensures tasks == old(tasks) - Elems(ids)
      ensures order == RemoveAll(old(order), Elems(ids))
    {
      ghost var done: set<string> := {};
      RemoveAllOfAbsent(order, {});
      for i := 0 to |ids|
        invariant done == Elems(ids[..i])
        invariant tasks == old(tasks) - done
        invariant order == RemoveAll(old(order), done)
      {
        var id := ids[i];
        ElemsAppend(ids[..i], [id]);
        assert ids[..i + 1] == ids[..i] + [id];
        RemoveAllTwice(old(order), done, {id});
        MapMinusTwice(old(tasks), done, {id});
        tasks := tasks - {id};
        order := RemoveAll(order, {id});
        done := done + {id};
      }
      assert ids[..|ids|] == ids;
    }
  }

  /** Removing elements the sequence does not hold changes nothing. */
  lemma {:induction false} RemoveAllOfAbsent<T>(s: seq<T>, gone: set<T>)
    requires Elems(s) !! gone
    ensures RemoveAll(s, gone) == s
  {
    if s != [] {
      ElemsAppend(s[..|s| - 1], [s[|s| - 1]]);
      assert s == s[..|s| - 1] + [s[|s| - 1]];
      RemoveAllOfAbsent(s[..|s| - 1], gone);
      assert s == s[..|s| - 1] + [s[|s| - 1]];
    }
  }

  /** Removing two key sets one after the other removes their union. */
  lemma MapMinusTwice<K, V>(m: map<K, V>, a: set<K>, b: set<K>)
    ensures (m - a) - b == m - (a + b)
  {
    assert ((m - a) - b).Keys == (m - (a + b)).Keys;
  }

  lemma CleanupCount(m: map<string, Task>, gone: set<string>)
    requires gone <= m.Keys
    ensures |(m - gone).Keys| == |m.Keys| - |gone|
  {
    assert (m - gone).Keys == m.Keys - gone;
  }
}
