/** Three end-to-end sequences of data-access calls with the server unreachable, as a
    client sees them. */
module Scenarios {
  import opened Wrappers
  import opened Records
  import opened Storage
  import opened Api

  /** Empty cache, no server: the created task carries the local id, and listing the
      tasks afterwards gives exactly that task. */
  method OfflineCreateThenList(task: Task, freshId: string) returns (created: Task, listed: seq<Task>)
    ensures created.id == Some(freshId)
    ensures created == task.(id := Some(freshId))
    ensures listed == [created]
  {
    var s := new LocalStorage(true, map[]);
    created := CreateTask(s, task, NoReply, NoReply, freshId);
    listed := GetTasks(s, NoReply);
  }

  /** Only the legacy key holds users, no server: listing the users returns the legacy
      list and leaves it under the canonical key too. */
  method LegacyUsersAdopted(legacy: seq<User>) returns (users: seq<User>, canonical: Option<Json>)
    ensures users == legacy
    ensures canonical == Some(UserList(legacy))
  {
    var s := new LocalStorage(true, map[LegacyUsersKey := UserList(legacy)]);
    users := GetUsers(s, NoReply);
    canonical := s.GetItem(UsersKey);
  }

  /** No server: deleting a task twice leaves the same list as deleting it once. */
  method OfflineDeleteTwice(tasks: seq<Task>, id: string) returns (once: seq<Task>, twice: seq<Task>)
    ensures once == twice == WithoutId(tasks, id)
  {
    var s := new LocalStorage(true, map[TasksKey := TaskList(tasks)]);
    DeleteTask(s, id, NoReply, NoReply);
    once := TasksFromStorage(s);
    DeleteTask(s, id, NoReply, NoReply);
    twice := TasksFromStorage(s);
    WithoutIdIdempotent(tasks, id);
  }
}
