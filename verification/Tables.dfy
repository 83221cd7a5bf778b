/** The columns of the `tasks` table that more than one part of the model reads. */
module Tables {
  import opened Common

  datatype Status = Open | Claimed | Completed

  datatype TaskRow = TaskRow(
    workspace: string,
    title: string,
    details: string,
    status: Status,
    epicId: Option<Id>,
    priority: string,
    owner: Option<string>,
    labels: seq<string>,
    createdAt: Time,
    updatedAt: Time)

  predicate InWorkspace(tasks: map<Id, TaskRow>, id: Id, workspace: string) {
    id in tasks && tasks[id].workspace == workspace
  }
}
