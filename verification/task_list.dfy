/** `TaskList`: the ordered collection of tasks of one session, changed in
    place by add, remove, update and import. */
module TaskLists {
  import opened Results
  import opened Decimal
  import opened Tasks

  /** The tasks of `ts` whose id differs from `id`, in their original
      order: what `retain(|task| task.id != id)` keeps. */
  function Without(ts: seq<Task>, id: u32): (r: seq<Task>)
    ensures |r| <= |ts|
    ensures forall i :: 0 <= i < |r| ==> r[i].id != id
    ensures forall t :: t in r ==> t in ts
    decreases |ts|
  {
    if ts == [] then []
    else (if ts[0].id == id then [] else [ts[0]]) + Without(ts[1..], id)
  }

  /** How many tasks of `ts` carry `id`. */
  function CountId(ts: seq<Task>, id: u32): nat
    decreases |ts|
  {
    if ts == [] then 0 else (if ts[0].id == id then 1 else 0) + CountId(ts[1..], id)
  }

  predicate HasId(ts: seq<Task>, id: u32)
  {
    exists i :: 0 <= i < |ts| && ts[i].id == id
  }

  /** Removing drops exactly the tasks that carry the id. */
  lemma {:induction false} WithoutLength(ts: seq<Task>, id: u32)
    ensures |Without(ts, id)| == |ts| - CountId(ts, id)
    decreases |ts|
  {
    if ts != [] { WithoutLength(ts[1..], id); }
  }

  /** Removal works piece by piece, so the kept tasks stay in order. */
  lemma {:induction false} WithoutAppend(a: seq<Task>, b: seq<Task>, id: u32)
    ensures Without(a + b, id) == Without(a, id) + Without(b, id)
    decreases |a|
  {
    if a == [] {
      assert a + b == b;
    } else {
      assert (a + b)[1..] == a[1..] + b;
      WithoutAppend(a[1..], b, id);
    }
  }

  /** A task with another id is kept as often as it occurs. */
  lemma {:induction false} WithoutKeepsOthers(ts: seq<Task>, id: u32, t: Task)
    requires t.id != id
    ensures multiset(Without(ts, id))[t] == multiset(ts)[t]
    decreases |ts|
  {
    if ts != [] {
      WithoutKeepsOthers(ts[1..], id, t);
      assert ts == [ts[0]] + ts[1..];
    }
  }

  /** Removing an id nobody carries changes nothing. */
  lemma {:induction false} WithoutAbsent(ts: seq<Task>, id: u32)
    requires !HasId(ts, id)
    ensures Without(ts, id) == ts
    decreases |ts|
  {
    if ts != [] {
      assert !HasId(ts[1..], id) by {
        forall i | 0 <= i < |ts| - 1 ensures ts[1..][i].id != id {
          assert ts[1..][i] == ts[i + 1];
        }
      }
      WithoutAbsent(ts[1..], id);
      assert [ts[0]] + ts[1..] == ts;
    }
  }

  /** Removing the same id twice is removing it once. */
  lemma WithoutIdempotent(ts: seq<Task>, id: u32)
    ensures Without(Without(ts, id), id) == Without(ts, id)
  {
    WithoutAbsent(Without(ts, id), id);
  }

  /** The position of the first task carrying `id`, as `iter().find`
      reaches it, or None when no task carries it. */
  function FirstMatch(ts: seq<Task>, id: u32): (r: Option<nat>)
    ensures r.Some? ==> r.value < |ts| && ts[r.value].id == id
    ensures r.Some? ==> forall j :: 0 <= j < r.value ==> ts[j].id != id
    ensures r.None? <==> !HasId(ts, id)
    decreases |ts|
  {
    if ts == [] then None
    else if ts[0].id == id then Some(0)
    else
      match FirstMatch(ts[1..], id)
      case None => None
      case Some(k) => Some(k + 1)
  }

  const NotFoundPrefix := "Task with id "
  const NotFoundSuffix := " was not found"

  /** The error of an update whose id no task carries: the id can be read
      back from between the fixed prefix and suffix. */
  function NotFoundMessage(id: u32): (msg: string)
    ensures |msg| >= |NotFoundPrefix| + |NotFoundSuffix|
    ensures msg[..|NotFoundPrefix|] == NotFoundPrefix
    ensures msg[|msg| - |NotFoundSuffix|..] == NotFoundSuffix
    ensures ParseU32(msg[|NotFoundPrefix|..|msg| - |NotFoundSuffix|]) == Success(id)
  {
    var msg := NotFoundPrefix + DecimalString(id) + NotFoundSuffix;
    assert msg[|NotFoundPrefix|..|msg| - |NotFoundSuffix|] == DecimalString(id);
    ParseDecimalRoundTrip(id);
    msg
  }

  class TaskList {
    var tasks: seq<Task>

    /** `TaskList::new`: an empty list. */
    constructor ()
      ensures tasks == []
    {
      tasks := [];
    }

    /** `add`: append at the end, never merging by id. */
    method Add(task: Task)
      modifies this
      ensures tasks == old(tasks) + [task]
    {
      tasks := tasks + [task];
    }

    /** `remove`: drop every task carrying `id`; a missing id is no error. */
    method Remove(id: u32)
      modifies this
      ensures tasks == Without(old(tasks), id)
    {
      var ts, kept := tasks, [];
      var i := 0;
      while i < |ts|
        invariant 0 <= i <= |ts|
        invariant kept == Without(ts[..i], id)
      {
        WithoutAppend(ts[..i], [ts[i]], id);
        assert ts[..i + 1] == ts[..i] + [ts[i]];
        if ts[i].id != id {
          kept := kept + [ts[i]];
        }
        i := i + 1;
      }
      assert ts[..i] == ts;
      tasks := kept;
    }

    /** `iter_mut().find(|task| task.id == id)`: the index of the first
        task carrying `id`. */
    method Find(id: u32) returns (r: Option<nat>)
      ensures r == FirstMatch(tasks, id)
    {
      var i := 0;
      while i < |tasks| && tasks[i].id != id
        invariant 0 <= i <= |tasks|
        invariant forall j :: 0 <= j < i ==> tasks[j].id != id
      {
        i := i + 1;
      }
      r := if i < |tasks| then Some(i) else None;
      FirstMatchUnique(tasks, id, r);
    }

    /** `update_status`: overwrite the status of the first task carrying
        `id`; fail without change when no task carries it. */
    method UpdateStatus(id: u32, status: TaskStatus) returns (r: Outcome)
      modifies this
      ensures match FirstMatch(old(tasks), id)
              case Some(i) => r == Pass && tasks == old(tasks)[i := old(tasks)[i].(status := status)]
              case None => r == Fail(NotFoundMessage(id)) && tasks == old(tasks)
    {
      var found := Find(id);
      match found
      case Some(i) =>
        tasks := tasks[i := tasks[i].(status := status)];
        r := Pass;
      case None =>
        r := Fail(NotFoundMessage(id));
    }

    /** `update_description`: as `UpdateStatus`, on the description. */
    method UpdateDescription(id: u32, description: string) returns (r: Outcome)
      modifies this
      ensures match FirstMatch(old(tasks), id)
              case Some(i) => r == Pass && tasks == old(tasks)[i := old(tasks)[i].(description := description)]
              case None => r == Fail(NotFoundMessage(id)) && tasks == old(tasks)
    {
      var found := Find(id);
      match found
      case Some(i) =>
        tasks := tasks[i := tasks[i].(description := description)];
        r := Pass;
      case None =>
        r := Fail(NotFoundMessage(id));
    }

    /** `import`: given the outcome of decoding the JSON payload, replace
        the whole collection, or leave it untouched when decoding failed. */
    method Import(decoded: Result<seq<Task>>) returns (r: Outcome)
      modifies this
      ensures decoded.Success? ==> r == Pass && tasks == decoded.value
      ensures decoded.Failure? ==> r == Fail(decoded.error) && tasks == old(tasks)
    {
      match decoded
      case Success(imported) =>
        tasks := imported;
        r := Pass;
      case Failure(e) =>
        r := Fail(e);
    }
  }

  /** The first-match conditions pin the position down: any `r` meeting
      them is `FirstMatch`. */
  lemma FirstMatchUnique(ts: seq<Task>, id: u32, r: Option<nat>)
    requires r.Some? ==> r.value < |ts| && ts[r.value].id == id
                         && forall j :: 0 <= j < r.value ==> ts[j].id != id
    requires r.None? ==> !HasId(ts, id)
    ensures r == FirstMatch(ts, id)
  {
    var f := FirstMatch(ts, id);
    if r.Some? && f.Some? {
      // each index holds a match, so neither lies before the other
      assert ts[r.value].id == id && ts[f.value].id == id;
    }
  }

  /** An update leaves the ids as they were, so every later lookup finds
      the same task, and removing the updated id afterwards gives what
      removing it without the update gives. */
  lemma UpdateKeepsIds(ts: seq<Task>, i: nat, t: Task, id: u32)
    requires i < |ts| && t.id == ts[i].id
    ensures FirstMatch(ts[i := t], id) == FirstMatch(ts, id)
    ensures ts[i].id == id ==> Without(ts[i := t], id) == Without(ts, id)
  {
    FirstMatchUnique(ts[i := t], id, FirstMatch(ts, id));
    if ts[i].id == id { WithoutReplaced(ts, i, t, id); }
  }

  lemma {:induction false} WithoutReplaced(ts: seq<Task>, i: nat, t: Task, id: u32)
    requires i < |ts| && t.id == id && ts[i].id == id
    ensures Without(ts[i := t], id) == Without(ts, id)
    decreases i
  {
    if i > 0 {
      assert ts[i := t][1..] == ts[1..][i - 1 := t];
      WithoutReplaced(ts[1..], i - 1, t, id);
    }
  }

  // Sessions against the interface alone, one per unit test of the list.

  /** `test_update_status`: task 1 "Test" is added, then marked in progress. */
  method UpdateStatusUsage()
  {
    var list := new TaskList();
    list.Add(NewTask(1, "Test"));
    assert |list.tasks| == 1;
    var r := list.UpdateStatus(1, InProgress);
    assert r == Pass && list.tasks[0].status == InProgress;
  }

  /** `test_update_description`: task 2 "Test2" is added, then its
      description becomes "Test123". */
  method UpdateDescriptionUsage()
  {
    var list := new TaskList();
    list.Add(NewTask(2, "Test2"));
    var r := list.UpdateDescription(2, "Test123");
    assert r == Pass && list.tasks[0].description == "Test123";
  }

  /** `test_remove`: task 1 "Test1" is added and removed, leaving the list
      empty; removing again is harmless. */
  method RemoveUsage()
  {
    var list := new TaskList();
    list.Add(NewTask(1, "Test1"));
    list.Remove(1);
    assert list.tasks == [];
    list.Remove(1);
    assert list.tasks == [];
  }

  /** The message for id 999, as `test_tasklist_update_status_nonexistent`
      and `test_tasklist_update_description_nonexistent` expect it. */
  lemma MissingIdMessage()
    ensures NotFoundMessage(999) == "Task with id 999 was not found"
  {
    assert DecimalString(999) == DecimalString(99) + [DigitChar(9)];
    assert DecimalString(99) == "99";
  }

  /** The two `..._nonexistent` tests: updating id 999 of an empty list
      fails with the id in the message, for either field. */
  method MissingIdUsage()
  {
    var list := new TaskList();
    MissingIdMessage();
    var r := list.UpdateStatus(999, Completed);
    assert r == Fail("Task with id 999 was not found");
    r := list.UpdateDescription(999, "New description");
    assert r == Fail("Task with id 999 was not found");
  }
}
