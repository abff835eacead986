/**
  The in-memory task store: a table from id to task, updated in place, with
  the four operations every repository offers (list all, get, put, delete).
 */
module Repo {
  import opened Model

  datatype Option<T> = None | Some(value: T)

  /** A Go `error` value; `Option<Error>` is an `error` that may be nil (`None`). */
  datatype Error = Error(message: string)

  /** The message `Get` reports for an id the store does not hold. */
  function GetNotFound(id: string): Error
  {
    Error("id not found: " + id)
  }

  /** The message `Delete` reports for an id the store does not hold
      (note: no colon, unlike `GetNotFound`). */
  function DeleteNotFound(id: string): Error
  {
    Error("id not found " + id)
  }

  /** Some key of a non-empty map; the same key every time for the same map. */
  ghost function PickKey<K, V>(m: map<K, V>): (k: K)
    requires m != map[]
    ensures k in m
  {
    var k :| k in m; k
  }

  /** The values of a map, each counted once per key that holds it. */
  ghost function ValuesOf<K, V>(m: map<K, V>): multiset<V>
    decreases |m|
  {
    if m == map[] then multiset{}
    else
      var k := PickKey(m);
      assert |m - {k}| < |m| by { assert (m - {k}).Keys == m.Keys - {k}; }
      multiset{m[k]} + ValuesOf(m - {k})
  }

  /** Taking out any one key takes out exactly its value, whichever key
      `ValuesOf` itself happened to pick first. */
  lemma {:induction false} ValuesOfRemove<K, V>(m: map<K, V>, k: K)
    requires k in m
    ensures ValuesOf(m) == multiset{m[k]} + ValuesOf(m - {k})
    decreases |m|
  {
    var j := PickKey(m);
    if j != k {
      var mj, mk := m - {j}, m - {k};
      var rest := mj - {k};
      assert mj.Keys == m.Keys - {j};
      assert mk.Keys == m.Keys - {k};
      assert rest == mk - {j};
      assert ValuesOf(m) == multiset{m[j]} + ValuesOf(mj);
      ValuesOfRemove(mj, k);
      ValuesOfRemove(mk, j);
      calc {
        ValuesOf(m);
        multiset{m[j]} + (multiset{m[k]} + ValuesOf(rest));
        multiset{m[k]} + (multiset{m[j]} + ValuesOf(rest));
        multiset{m[k]} + ValuesOf(mk);
      }
    }
  }

  /** A value occurs in `ValuesOf(m)` exactly when some key maps to it. */
  lemma {:induction false} ValuesOfMembers<K, V>(m: map<K, V>, v: V)
    ensures v in ValuesOf(m) <==> v in m.Values
    decreases |m|
  {
    if m != map[] {
      var k := PickKey(m);
      assert (m - {k}).Keys == m.Keys - {k};
      ValuesOfMembers(m - {k}, v);
      if v in m.Values && v != m[k] {
        var j :| j in m && m[j] == v;
        assert j in m - {k};
      }
    }
  }

  /** Every key maps to a task with that id. `Put` and `Delete` keep this true. */
  ghost predicate KeysMatchIds(m: map<string, Task>)
  {
    forall k :: k in m ==> m[k].id == k
  }

  /** In a table whose keys are the tasks' own ids, no task is held twice. */
  lemma {:induction false} KeyedValuesOnce(m: map<string, Task>, t: Task)
    requires KeysMatchIds(m)
    requires t in ValuesOf(m)
    ensures ValuesOf(m)[t] == 1
    decreases |m|
  {
    var k := PickKey(m);
    var rest := m - {k};
    assert rest.Keys == m.Keys - {k};
    assert KeysMatchIds(rest);
    ValuesOfMembers(rest, m[k]);
    ValuesOfMembers(m, t);
    if t != m[k] {
      ValuesOfMembers(rest, t);
      KeyedValuesOnce(rest, t);
    }
  }

  /** One step of ranging over a map: moving the value under `k` from the
      rest of the map to the listing keeps the two together unchanged. */
  lemma TakeOne<K, V>(listed: seq<V>, rest: map<K, V>, k: K)
    requires k in rest
    ensures multiset(listed + [rest[k]]) + ValuesOf(rest - {k}) == multiset(listed) + ValuesOf(rest)
    ensures |rest - {k}| == |rest| - 1
  {
    ValuesOfRemove(rest, k);
    assert (rest - {k}).Keys == rest.Keys - {k};
    assert multiset(listed + [rest[k]]) == multiset(listed) + multiset{rest[k]};
  }

  /** What a listing of a table's values says about the table's tasks. */
  lemma ListingOfValues(all: seq<Task>, m: map<string, Task>)
    requires multiset(all) == ValuesOf(m)
    ensures forall t :: t in all <==> t in m.Values
    ensures KeysMatchIds(m) ==> forall t :: t in all ==> multiset(all)[t] == 1
  {
    forall t ensures t in all <==> t in m.Values {
      ValuesOfMembers(m, t);
      assert t in all <==> t in multiset(all);
    }
    if KeysMatchIds(m) {
      forall t | t in all ensures multiset(all)[t] == 1 {
        KeyedValuesOnce(m, t);
      }
    }
  }

  /** The store: a Go map from id to task, shared by reference. */
  class InMemoryTasks {
    var tasks: map<string, Task>

    /** A store holding `initial`, as a map literal creates it. */
    constructor (initial: map<string, Task>)
      ensures tasks == initial
    {
      tasks := initial;
    }

    /** Every stored task, once per key, in no particular order. */
    method GetAll() returns (all: seq<Task>)
      ensures multiset(all) == ValuesOf(tasks)
      ensures |all| == |tasks|
      ensures forall t :: t in all <==> t in tasks.Values
      ensures KeysMatchIds(tasks) ==> forall t :: t in all ==> multiset(all)[t] == 1
    {
      all := [];
      var rest := tasks;
      while rest != map[]
        invariant multiset(all) + ValuesOf(rest) == ValuesOf(tasks)
        invariant |all| + |rest| == |tasks|
        decreases |rest|
      {
        var k :| k in rest;
        TakeOne(all, rest, k);
        all := all + [rest[k]];
        rest := rest - {k};
      }
      ListingOfValues(all, tasks);
    }

    /** The task stored under `id`, or the zero task and a not-found error. */
    method Get(id: string) returns (task: Task, err: Option<Error>)
      ensures err == None <==> id in tasks
      ensures id in tasks ==> task == tasks[id]
      ensures id !in tasks ==> task == ZeroTask && err == Some(GetNotFound(id))
      ensures KeysMatchIds(tasks) && err == None ==> task.id == id
    {
      if id !in tasks {
        return ZeroTask, Some(GetNotFound(id));
      }
      task := tasks[id];
      err := None;
    }

    /** Stores `task` under its own id, replacing whatever was there. */
    method Put(task: Task)
      modifies this
      ensures tasks == old(tasks)[task.id := task]
      ensures |tasks| == if task.id in old(tasks) then |old(tasks)| else |old(tasks)| + 1
      ensures old(KeysMatchIds(tasks)) ==> KeysMatchIds(tasks)
    {
      var id := task.id;
      tasks := tasks[id := task];
    }

    /** Removes `id`, or fails with a not-found error and changes nothing. */
    method Delete(id: string) returns (err: Option<Error>)
      modifies this
      ensures err == None <==> id in old(tasks)
      ensures id in old(tasks) ==> tasks == old(tasks) - {id} && |tasks| == |old(tasks)| - 1
      ensures id !in old(tasks) ==> tasks == old(tasks) && err == Some(DeleteNotFound(id))
      ensures old(KeysMatchIds(tasks)) ==> KeysMatchIds(tasks)
    {
      if id !in tasks {
        return Some(DeleteNotFound(id));
      }
      assert (tasks - {id}).Keys == tasks.Keys - {id};
      tasks := tasks - {id};
      err := None;
    }
  }

  /** Putting a task and then getting its id gives the task back. */
  method PutThenGet(store: InMemoryTasks, task: Task) returns (got: Task, err: Option<Error>)
    modifies store
    ensures got == task && err == None
  {
    store.Put(task);
    got, err := store.Get(task.id);
  }

  /** Putting a task under a new id and then deleting it restores the store. */
  method PutThenDelete(store: InMemoryTasks, task: Task) returns (err: Option<Error>)
    requires task.id !in store.tasks
    modifies store
    ensures err == None && store.tasks == old(store.tasks)
  {
    store.Put(task);
    err := store.Delete(task.id);
  }

  /** Deleting the same id twice: the second call always fails. */
  method DeleteTwice(store: InMemoryTasks, id: string) returns (first: Option<Error>, second: Option<Error>)
    modifies store
    ensures first == None <==> id in old(store.tasks)
    ensures second == Some(DeleteNotFound(id))
    ensures store.tasks == old(store.tasks) - {id}
  {
    first := store.Delete(id);
    second := store.Delete(id);
  }

  /** After a delete, getting the id fails with the zero task. */
  method DeleteThenGet(store: InMemoryTasks, id: string) returns (got: Task, err: Option<Error>)
    modifies store
    ensures got == ZeroTask && err == Some(GetNotFound(id))
  {
    var _ := store.Delete(id);
    got, err := store.Get(id);
  }
}
