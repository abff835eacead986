/**
  The task record the store keeps, and the zero value Go gives a task that
  was never filled in.
 */
module Model {

  /** One task: its id (the store's key), free-text description and note,
      and the ordered list of applications it mentions. */
  datatype Task = Task(id: string, description: string, note: string, applications: seq<string>)

  /** The zero task `model.Task{}`: every string empty, no applications. */
  const ZeroTask: Task := Task("", "", "", [])
}
