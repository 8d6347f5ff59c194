/** The data-access layer: every operation asks the remote server first and mirrors
    its answer into `localStorage`; when a request fails it works on `localStorage`
    alone. The outcome of each HTTP request is a parameter. */
module Api {
  import opened Wrappers
  import opened Seqs
  import opened Records
  import opened Storage

  const TasksKey: string := "team-todo-tasks"
  const UsersKey: string := "team-todo-users"
  const LegacyUsersKey: string := "users_db"

  /** The error `updateTask` throws when the cached list has no task with the id. */
  datatype ApiError = TaskNotFound

  /** A mutation and the re-fetch that follows it both answered; otherwise the
      `catch` branch runs, even when the mutation itself reached the server. */
  predicate Synced<A, B>(call: Remote<A>, refetch: Remote<B>)
  {
    call.Reply? && refetch.Reply?
  }

  // ---------- tasks ----------

  /** The task list a store holds: a missing, empty, unparsable or wrongly shaped
      slot reads as the empty list. */
  function TasksIn(m: map<string, Json>): seq<Task>
  {
    match Lookup(m, TasksKey)
    case Some(TaskList(tasks)) => tasks
    case _ => []
  }

  /** `getTasksFromStorage`. */
  function TasksFromStorage(s: LocalStorage): (r: seq<Task>)
    reads s
    ensures !s.inBrowser ==> r == []
    ensures r != [] ==> s.GetItem(TasksKey) == Some(TaskList(r))
  {
    if s.inBrowser then TasksIn(s.items) else []
  }

  /** Writing a task list and reading it back gives the same list. */
  lemma TasksRoundTrip(m: map<string, Json>, tasks: seq<Task>)
    ensures TasksIn(m[TasksKey := TaskList(tasks)]) == tasks
  {
  }

  /** `saveTasksToStorage`. */
  method SaveTasksToStorage(s: LocalStorage, tasks: seq<Task>)
    modifies s
    ensures s.items == old(s.Written(TasksKey, TaskList(tasks)))
    ensures s.inBrowser ==> TasksFromStorage(s) == tasks
  {
    if s.inBrowser {
      s.SetItem(TasksKey, TaskList(tasks));
    }
  }

  /** `getTasks`. */
  method GetTasks(s: LocalStorage, get: Remote<seq<Task>>) returns (tasks: seq<Task>)
    modifies s
    ensures get.Reply? ==> tasks == get.data && s.items == old(s.Written(TasksKey, TaskList(get.data)))
    ensures get.NoReply? ==> tasks == old(TasksFromStorage(s)) && s.items == old(s.items)
  {
    if get.Reply? {
      SaveTasksToStorage(s, get.data);
      return get.data;
    }
    tasks := TasksFromStorage(s);
  }

  /** `createTask`: on the fallback path the task gets the locally made id `freshId`
      and is appended to the cached list. */
  method CreateTask(s: LocalStorage, task: Task, post: Remote<Task>, refetch: Remote<seq<Task>>,
                    freshId: string)
    returns (created: Task)
    modifies s
    ensures Synced(post, refetch) ==>
              created == post.data && s.items == old(s.Written(TasksKey, TaskList(refetch.data)))
    ensures !Synced(post, refetch) ==>
              created == task.(id := Some(freshId)) &&
              s.items == old(s.Written(TasksKey, TaskList(TasksFromStorage(s) + [created])))
    ensures !Synced(post, refetch) && s.inBrowser ==>
              TasksFromStorage(s) == old(TasksFromStorage(s)) + [created] &&
              |TasksFromStorage(s)| == |old(TasksFromStorage(s))| + 1
  {
    if post.Reply? {
      if refetch.Reply? {
        SaveTasksToStorage(s, refetch.data);
        return post.data;
      }
    }
    var tasks := TasksFromStorage(s);
    var newTask := task.(id := Some(freshId));
    tasks := tasks + [newTask];
    SaveTasksToStorage(s, tasks);
    created := newTask;
  }

  /** If no cached task carried `freshId`, the appended task is the only one with it. */
  lemma CreatedAppearsOnce(tasks: seq<Task>, task: Task, freshId: string)
    requires forall j :: 0 <= j < |tasks| ==> !HasId(tasks[j], freshId)
    ensures Filter(tasks + [task.(id := Some(freshId))], IdIs(freshId)) == [task.(id := Some(freshId))]
  {
    var created := task.(id := Some(freshId));
    FilterAppend(tasks, [created], IdIs(freshId));
    FilterKeepsNone(tasks, IdIs(freshId));
  }

  /** `k` is the position of the first task with `id`. */
  predicate FirstWithId(tasks: seq<Task>, id: string, k: int)
  {
    0 <= k < |tasks| && HasId(tasks[k], id) && forall j :: 0 <= j < k ==> !HasId(tasks[j], id)
  }

  /** The fallback of `updateTask` on the cached list: the first task with `id` is
      replaced by `updated`; with no such task the update fails. */
  function ReplaceFirst(tasks: seq<Task>, id: string, updated: Task): (r: Result<seq<Task>, ApiError>)
    ensures r.Err? <==> forall j :: 0 <= j < |tasks| ==> !HasId(tasks[j], id)
    ensures r.Err? ==> r.error == TaskNotFound
    ensures r.Ok? ==> |r.value| == |tasks| &&
                      exists k :: FirstWithId(tasks, id, k) && r.value[k] == updated &&
                                  forall j :: 0 <= j < |tasks| && j != k ==> r.value[j] == tasks[j]
  {
    var index := FindIndex(tasks, IdIs(id));
    if index != -1 then
      assert FirstWithId(tasks, id, index);
      Ok(tasks[index := updated])
    else Err(TaskNotFound)
  }

  /** `updateTask`. */
  method UpdateTask(s: LocalStorage, id: string, updated: Task, put: Remote<Task>,
                    refetch: Remote<seq<Task>>)
    returns (r: Result<Task, ApiError>)
    modifies s
    ensures Synced(put, refetch) ==>
              r == Ok(put.data) && s.items == old(s.Written(TasksKey, TaskList(refetch.data)))
    ensures !Synced(put, refetch) ==>
              match ReplaceFirst(old(TasksFromStorage(s)), id, updated)
              case Ok(tasks) => r == Ok(updated) && s.items == old(s.Written(TasksKey, TaskList(tasks)))
              case Err(e) => r == Err(e) && s.items == old(s.items)
  {
    if put.Reply? {
      if refetch.Reply? {
        SaveTasksToStorage(s, refetch.data);
        return Ok(put.data);
      }
    }
    var tasks := TasksFromStorage(s);
    var index := FindIndex(tasks, IdIs(id));
    if index != -1 {
      tasks := tasks[index := updated];
      SaveTasksToStorage(s, tasks);
      return Ok(updated);
    }
    return Err(TaskNotFound);
  }

  /** `deleteTask`: on the fallback path every task with `id` is dropped from the
      cached list, which is written back even when nothing was dropped. */
  method DeleteTask(s: LocalStorage, id: string, del: Remote<()>, refetch: Remote<seq<Task>>)
    modifies s
    ensures Synced(del, refetch) ==> s.items == old(s.Written(TasksKey, TaskList(refetch.data)))
    ensures !Synced(del, refetch) ==>
              s.items == old(s.Written(TasksKey, TaskList(WithoutId(TasksFromStorage(s), id))))
    ensures !Synced(del, refetch) && s.inBrowser ==> s.items == DeletedIn(old(s.items), id)
  {
    if del.Reply? {
      if refetch.Reply? {
        SaveTasksToStorage(s, refetch.data);
        return;
      }
    }
    var tasks := TasksFromStorage(s);
    var filtered := WithoutId(tasks, id);
    SaveTasksToStorage(s, filtered);
  }

  /** The store after the fallback of `deleteTask` in a browser. */
  function DeletedIn(m: map<string, Json>, id: string): map<string, Json>
  {
    m[TasksKey := TaskList(WithoutId(TasksIn(m), id))]
  }

  /** Deleting the same id twice on the fallback path leaves the store as deleting it once. */
  lemma DeleteTwiceIsDeleteOnce(m: map<string, Json>, id: string)
    ensures DeletedIn(DeletedIn(m, id), id) == DeletedIn(m, id)
  {
    WithoutIdIdempotent(TasksIn(m), id);
  }

  // ---------- users ----------

  /** The user list `getUsersFromStorage` returns for a store: the canonical slot when it
      is non-empty (an unreadable one gives the empty list), else the legacy slot. */
  function UsersIn(m: map<string, Json>): seq<User>
  {
    if Truthy(Lookup(m, UsersKey)) then
      (if m[UsersKey].UserList? then m[UsersKey].users else [])
    else if Truthy(Lookup(m, LegacyUsersKey)) && m[LegacyUsersKey].UserList? then
      m[LegacyUsersKey].users
    else []
  }

  /** The store after `getUsersFromStorage`: a readable legacy list is copied to the
      canonical key when that key is empty. */
  function UsersMigrated(m: map<string, Json>): map<string, Json>
  {
    if !Truthy(Lookup(m, UsersKey)) && Truthy(Lookup(m, LegacyUsersKey)) && m[LegacyUsersKey].UserList? then
      m[UsersKey := m[LegacyUsersKey]]
    else m
  }

  /** What `getUsersFromStorage` returns for store `m`: nothing outside a browser. */
  function CachedUsers(inBrowser: bool, m: map<string, Json>): seq<User>
  {
    if inBrowser then UsersIn(m) else []
  }

  /** The store `m` after `getUsersFromStorage`. */
  function AfterRead(inBrowser: bool, m: map<string, Json>): map<string, Json>
  {
    if inBrowser then UsersMigrated(m) else m
  }

  function UsersFromStorage(s: LocalStorage): seq<User>
    reads s
  {
    CachedUsers(s.inBrowser, s.items)
  }

  function AfterUsersRead(s: LocalStorage): map<string, Json>
    reads s
  {
    AfterRead(s.inBrowser, s.items)
  }

  /** The list `getUsers` returns: the server's answer, else the cached list. */
  function ServedUsers(inBrowser: bool, m: map<string, Json>, get: Remote<seq<User>>): seq<User>
  {
    if get.Reply? then get.data else CachedUsers(inBrowser, m)
  }

  /** The store `m` after `getUsers` (and after `findUserByName`, whose second read of
      the cache writes nothing more). */
  function AfterGetUsers(inBrowser: bool, m: map<string, Json>, get: Remote<seq<User>>): map<string, Json>
  {
    if get.Reply? then Write(inBrowser, m, UsersKey, UserList(get.data)) else AfterRead(inBrowser, m)
  }

  /** The account `createUser(user)` returns. */
  function CreatedUser(user: User, post: Remote<User>, refetch: Remote<seq<User>>, freshId: string): User
  {
    if Synced(post, refetch) then post.data else user.(id := Some(freshId))
  }

  /** The store `m` after `createUser(user)`. */
  function AfterCreateUser(inBrowser: bool, m: map<string, Json>, user: User, post: Remote<User>,
                           refetch: Remote<seq<User>>, freshId: string): map<string, Json>
  {
    if Synced(post, refetch) then Write(inBrowser, m, UsersKey, UserList(refetch.data))
    else Write(inBrowser, m, UsersKey, UserList(CachedUsers(inBrowser, m) + [user.(id := Some(freshId))]))
  }

  /** With the canonical key empty and a readable legacy list, the legacy list is returned
      and copied to the canonical key. */
  lemma LegacyListIsAdopted(m: map<string, Json>)
    requires !Truthy(Lookup(m, UsersKey))
    requires LegacyUsersKey in m && m[LegacyUsersKey].UserList?
    ensures UsersIn(m) == m[LegacyUsersKey].users
    ensures UsersMigrated(m) == m[UsersKey := UserList(m[LegacyUsersKey].users)]
  {
  }

  /** Once the canonical key holds something, the legacy key is neither read nor copied. */
  lemma CanonicalKeyWins(m: map<string, Json>, legacy: Json)
    requires Truthy(Lookup(m, UsersKey))
    ensures UsersIn(m[LegacyUsersKey := legacy]) == UsersIn(m)
    ensures UsersMigrated(m) == m
  {
  }

  /** The migration happens once: reading again returns the same list and writes nothing. */
  lemma MigrationIsOneTime(m: map<string, Json>)
    ensures UsersIn(UsersMigrated(m)) == UsersIn(m)
    ensures UsersMigrated(UsersMigrated(m)) == UsersMigrated(m)
  {
  }

  /** In a browser, after `getUsers` the cache holds exactly the list it returned. */
  lemma ServedUsersAreCached(m: map<string, Json>, get: Remote<seq<User>>)
    ensures UsersIn(AfterGetUsers(true, m, get)) == ServedUsers(true, m, get)
  {
    if get.NoReply? {
      MigrationIsOneTime(m);
    }
  }

  /** `saveUsersToStorage`. */
  method SaveUsersToStorage(s: LocalStorage, users: seq<User>)
    modifies s
    ensures s.items == old(s.Written(UsersKey, UserList(users)))
  {
    if s.inBrowser {
      s.SetItem(UsersKey, UserList(users));
    }
  }

  /** `getUsersFromStorage`. */
  method GetUsersFromStorage(s: LocalStorage) returns (users: seq<User>)
    modifies s
    ensures users == old(UsersFromStorage(s))
    ensures s.items == old(AfterUsersRead(s))
  {
    if !s.inBrowser {
      return [];
    }
    var stored := s.GetItem(UsersKey);
    if Truthy(stored) {
      // JSON.parse, or the catch when the text is not a user list
      return if stored.value.UserList? then stored.value.users else [];
    }
    var oldStored := s.GetItem(LegacyUsersKey);
    if Truthy(oldStored) {
      if oldStored.value.UserList? {
        var oldUsers := oldStored.value.users;
        SaveUsersToStorage(s, oldUsers);
        return oldUsers;
      }
      return [];
    }
    return [];
  }

  /** `getUsers`. */
  method GetUsers(s: LocalStorage, get: Remote<seq<User>>) returns (users: seq<User>)
    modifies s
    ensures get.Reply? ==> users == get.data && s.items == old(s.Written(UsersKey, UserList(get.data)))
    ensures get.NoReply? ==> users == old(UsersFromStorage(s)) && s.items == old(AfterUsersRead(s))
  {
    if get.Reply? {
      SaveUsersToStorage(s, get.data);
      return get.data;
    }
    users := GetUsersFromStorage(s);
  }

  /** `createUser`: on the fallback path the user gets the locally made id `freshId`
      and is appended to the cached list (after any legacy migration). */
  method CreateUser(s: LocalStorage, user: User, post: Remote<User>, refetch: Remote<seq<User>>,
                    freshId: string)
    returns (created: User)
    modifies s
    ensures Synced(post, refetch) ==>
              created == post.data && s.items == old(s.Written(UsersKey, UserList(refetch.data)))
    ensures !Synced(post, refetch) ==>
              created == user.(id := Some(freshId)) &&
              s.items == old(s.Written(UsersKey, UserList(UsersFromStorage(s) + [created])))
  {
    if post.Reply? {
      if refetch.Reply? {
        SaveUsersToStorage(s, refetch.data);
        return post.data;
      }
    }
    var users := GetUsersFromStorage(s);
    var newUser := user.(id := Some(freshId));
    users := users + [newUser];
    SaveUsersToStorage(s, users);
    created := newUser;
  }

  /** `findUserByName`: the server list (or, when it cannot be fetched, the cached list)
      is searched first, then the cached list once more. The second search never finds
      anything the first missed, since the cache then mirrors the list just searched. */
  method FindUserByName(s: LocalStorage, name: string, get: Remote<seq<User>>)
    returns (found: Option<User>)
    modifies s
    ensures var served := if get.Reply? then get.data else old(UsersFromStorage(s));
            found == FindByName(served, Text.Trim(name))
    ensures found.Some? ==> NameMatches(found.value, Text.Trim(name))
    ensures get.Reply? ==> s.items == old(s.Written(UsersKey, UserList(get.data)))
    ensures get.NoReply? ==> s.items == old(AfterUsersRead(s))
  {
    var cleanName := Text.Trim(name);
    ghost var m := s.items;
    var serverUsers := GetUsers(s, get);
    var serverFound := FindByName(serverUsers, cleanName);
    if serverFound.Some? {
      return serverFound;
    }
    MigrationIsOneTime(m);
    var localUsers := GetUsersFromStorage(s);
    assert s.inBrowser ==> localUsers == serverUsers;
    found := FindByName(localUsers, cleanName);
  }
}
