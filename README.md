# To-do list task store, modelled in Dafny

This project models the core of a small Go REST service that keeps a list of
tasks in memory. Each task has an id, a description, a note and a list of
applications. There are two core pieces:

- **The store** (`InMemoryTasks`, internal/repo/memory-rep.go) is a Go map from
  task id to task. It has four operations. `GetAll` lists every task in an
  unspecified order. `Get` looks one task up by id. `Put` stores a task under
  its own id and overwrites any task already there. `Delete` removes an id.
  `Get` and `Delete` report an `error` when the id is absent.
- **The to-do list service** (`TodoList`, internal/service/todolist.go) holds
  one repository. Each of its four methods forwards the call to that
  repository unchanged.

Files:

- `model.dfy` (module `Model`): the `Task` record and the zero task `model.Task{}`.
- `repo.dfy` (module `Repo`): the error type, the multiset of a map's values
  (`ValuesOf`) with its lemmas, the class `InMemoryTasks`, and client methods
  that chain two operations and prove what the pair does.
- `service.dfy` (module `Service`): the class `TodoList` and one client method.

The Go map is a reference type, so the list and the server share one table.
The model keeps that sharing: `InMemoryTasks` is a class with a
`tasks: map<string, Task>` field, and `TodoList` keeps a reference to it in a
`const` field. `Put` and `Delete` reassign that field. `GetAll` and `Get` have
no `modifies` clause, so they cannot change the store.

`GetAll` ranges over the map in Go's unspecified order. The model mirrors
that: its loop takes any remaining key on each step (`:|`). The result is
pinned down only up to order. As a multiset it equals the map's values, with
one copy per key.

Error values are `Option<Error>`. `None` stands for a nil `error`. The two
not-found messages differ as the source writes them: `Get` reports
`id not found: <id>` and `Delete` reports `id not found <id>`, with no colon.

Where the design and the code disagree, the model follows the code:

- The design and the tests describe a create operation, `Post`, that rejects
  an id that is already present. The store defines only `Put`, which
  overwrites (internal/repo/memory-rep.go:33-36). The model has `Put` as
  written and no `Post`.
- The handler tests expect `id not found: <id>` from a failed delete. The
  store's `Delete` builds `id not found <id>` (internal/repo/memory-rep.go:40),
  and the model uses that string.

## Model

| member | source | states |
|---|---|---|
| `Repo.InMemoryTasks.constructor` | internal/repo/memory-rep.go:15 | a store created from a map literal holds exactly that map |
| `Repo.InMemoryTasks.GetAll` | internal/repo/memory-rep.go:17-23 | the result is a listing of the store's values in some order. As a multiset it equals the map's values with one copy per key, and its length is the number of keys (so an empty store gives an empty sequence). A task is in the result iff some key maps to it. When every key is its task's id, each task is listed exactly once |
| `Repo.InMemoryTasks.Get` | internal/repo/memory-rep.go:25-31 | no error iff the id is stored. A present id returns the stored task unchanged. An absent id, including on an empty store, returns the zero task and the error `"id not found: " + id`. When keys are ids, a found task carries the requested id |
| `Repo.InMemoryTasks.Put` | internal/repo/memory-rep.go:33-36 | afterwards the task's id maps to the task and every other key maps to what it did before. The size grows by one iff the id was new and is unchanged otherwise. "Every key is its task's id" is preserved |
| `Repo.InMemoryTasks.Delete` | internal/repo/memory-rep.go:38-44 | no error iff the id was present. A present id: exactly that key is removed, the rest is unchanged, and the size drops by one. An absent id: the error `"id not found " + id` and the table is unchanged. "Every key is its task's id" is preserved |
| `Repo.ValuesOfRemove` | internal/repo/memory-rep.go:19-21 | removing any one key removes exactly one copy of its value from the map's values, whatever order the iteration takes. This is what each step of `GetAll`'s loop relies on |
| `Repo.ValuesOfMembers` | internal/repo/memory-rep.go:17-23 | a task occurs among the map's values (counted per key) iff some key maps to it |
| `Repo.KeyedValuesOnce` | internal/repo/memory-rep.go:15-23 | when every key is its task's id, each task occurs exactly once among the values |
| `Repo.PutThenGet` | internal/repo/memory-rep.go:25-36 | a `Put(task)` followed by `Get(task.ID)` returns that task with no error |
| `Repo.PutThenDelete` | internal/repo/memory-rep.go:33-44 | a `Put` under a new id followed by a `Delete` of that id succeeds and restores the table exactly |
| `Repo.DeleteTwice` | internal/repo/memory-rep.go:38-44 | deleting the same id twice removes it once. The second call always fails with `"id not found " + id` |
| `Repo.DeleteThenGet` | internal/repo/memory-rep.go:25-44 | after a `Delete` of an id, `Get` of that id fails with the zero task and `"id not found: " + id` |
| `Service.TodoList.New` | internal/service/todolist.go:12-14 | the list holds the given repository itself (shared, not copied), and it never changes afterwards |
| `Service.TodoList.GetAll` | internal/service/todolist.go:16-18 | same promise as the repository's `GetAll` on the repository's table |
| `Service.TodoList.Get` | internal/service/todolist.go:20-22 | the repository's task and error, unchanged, including the same not-found error for absent ids |
| `Service.TodoList.Put` | internal/service/todolist.go:24-26 | exactly the repository's `Put` effect on its table. Nothing outside the repository changes |
| `Service.TodoList.Delete` | internal/service/todolist.go:28-30 | exactly the repository's `Delete` effect and error |
| `Service.SharedStore` | internal/service/todolist.go:12-26 | a `Put` made through a list lands in the store the list was built over, where a direct `Get` on that store sees it |

## Left out

- The `Repository` interface (internal/repo/memory-rep.go:8-13) has one implementation in the repository. The model binds `TodoList` directly to `InMemoryTasks`, so other implementations are not covered.
- internal/model/task.go is not part of this model. The `Task` fields are taken from how the store and its callers use them.
- HTTP handlers (internal/api/handlers.go) and the router and server (cmd/sever/server.go) are left out. They cover JSON encoding and decoding, URL parameters and status codes, which all go through libraries outside the model. The two seed tasks in the server can be built with the `InMemoryTasks` constructor.
- The rejecting `Post` that the handler and tests call does not exist in the store, so it is not modelled.
- Concurrency: the Go map is shared by request goroutines without a lock. The model covers single-threaded calls only.
- Go's difference between a nil slice and an empty one is not modelled. `GetAll` on an empty store returns a non-nil empty slice; the model's result is the empty sequence. The zero task's `Applications` is nil in Go and `[]` here.
- Go returns tasks by value, but a task's `Applications` slice shares its backing array with the stored copy. That aliasing is not modelled: tasks are immutable values here.
- `Repo.InMemoryTasks.GetAll`: the concrete order Go's map iteration produces is not modelled. The result is fixed only up to order.
