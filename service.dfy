/**
  The to-do list service: a thin layer that holds one repository and hands
  every call to it unchanged, so the transport never sees the storage type.
 */
module Service {
  import opened Model
  import opened Repo

  class TodoList {
    /** The repository every call is routed to; fixed at construction. */
    const repo: InMemoryTasks

    /** `New(repo)`: a list that forwards to `repo` (shared, not copied). */
    constructor New(repo: InMemoryTasks)
      ensures this.repo == repo
    {
      this.repo := repo;
    }

    /** All tasks of the repository, once per key, in no particular order. */
    method GetAll() returns (all: seq<Task>)
      ensures multiset(all) == ValuesOf(repo.tasks)
      ensures |all| == |repo.tasks|
      ensures forall t :: t in all <==> t in repo.tasks.Values
      ensures KeysMatchIds(repo.tasks) ==> forall t :: t in all ==> multiset(all)[t] == 1
    {
      all := repo.GetAll();
    }

    /** The repository's answer for `id`, task and error both unchanged. */
    method Get(id: string) returns (task: Task, err: Option<Error>)
      ensures err == None <==> id in repo.tasks
      ensures id in repo.tasks ==> task == repo.tasks[id]
      ensures id !in repo.tasks ==> task == ZeroTask && err == Some(GetNotFound(id))
    {
      task, err := repo.Get(id);
    }

    /** Stores `task` in the repository; nothing but its table changes. */
    method Put(task: Task)
      modifies repo
      ensures repo.tasks == old(repo.tasks)[task.id := task]
      ensures old(KeysMatchIds(repo.tasks)) ==> KeysMatchIds(repo.tasks)
    {
      repo.Put(task);
    }

    /** Deletes `id` from the repository, with the repository's error. */
    method Delete(id: string) returns (err: Option<Error>)
      modifies repo
      ensures err == None <==> id in old(repo.tasks)
      ensures id in old(repo.tasks) ==> repo.tasks == old(repo.tasks) - {id}
      ensures id !in old(repo.tasks) ==> repo.tasks == old(repo.tasks) && err == Some(DeleteNotFound(id))
      ensures old(KeysMatchIds(repo.tasks)) ==> KeysMatchIds(repo.tasks)
    {
      err := repo.Delete(id);
    }
  }

  /** A change made through a list lands in the store the list was built
      over, where a direct read of that store sees it. */
  method SharedStore(store: InMemoryTasks, task: Task) returns (got: Task, err: Option<Error>)
    modifies store
    ensures got == task && err == None
    ensures store.tasks == old(store.tasks)[task.id := task]
  {
    var list := new TodoList.New(store);
    list.Put(task);
    got, err := store.Get(task.id);
  }
}
