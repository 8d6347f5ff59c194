/** The home page: the task list it shows, the search and filter applied to it, and
    the handlers that call the data-access layer and then update the list. */
module Home {
  import opened Wrappers
  import opened Seqs
  import opened Text
  import opened Records
  import opened Storage
  import opened Api

  // ---------- search and filter ----------

  /** A value inside a template literal: a missing field prints as "undefined". */
  function Interpolated(v: Option<string>): string
  {
    match v
    case Some(s) => s
    case None => "undefined"
  }

  /** `${t.author} ${t.text}`. */
  function SearchText(t: Task): string
  {
    Interpolated(t.author) + " " + t.text
  }

  /** The lower-cased query occurs in the lower-cased author and text. */
  predicate MatchesQuery(t: Task, query: string)
  {
    Includes(ToLower(SearchText(t)), ToLower(query))
  }

  /** "all" keeps every task, "completed" the completed ones, "pending" the others;
      any other value keeps none. */
  predicate MatchesFilter(t: Task, filter: string)
  {
    filter == "all" || (filter == "completed" && t.completed) || (filter == "pending" && !t.completed)
  }

  function Visible(query: string, filter: string): Task -> bool
  {
    t => MatchesQuery(t, query) && MatchesFilter(t, filter)
  }

  /** `filtered`: the tasks that match both the query and the filter, in list order. */
  function Filtered(tasks: seq<Task>, query: string, filter: string): (r: seq<Task>)
    ensures IsSubsequence(r, tasks)
    ensures forall i :: 0 <= i < |r| ==> MatchesQuery(r[i], query) && MatchesFilter(r[i], filter)
    ensures forall j :: 0 <= j < |tasks| && MatchesQuery(tasks[j], query) && MatchesFilter(tasks[j], filter)
                        ==> tasks[j] in r
  {
    FilterIsSubsequence(tasks, Visible(query, filter));
    Filter(tasks, Visible(query, filter))
  }

  /** Every copy of a task that matches is shown, and no copy of one that does not. */
  lemma FilteredCount(tasks: seq<Task>, query: string, filter: string, t: Task)
    ensures multiset(Filtered(tasks, query, filter))[t] ==
            if MatchesQuery(t, query) && MatchesFilter(t, filter) then multiset(tasks)[t] else 0
  {
    FilterCount(tasks, Visible(query, filter), t);
  }

  /** With the default search state every task is shown. */
  lemma EverythingShownByDefault(tasks: seq<Task>)
    ensures Filtered(tasks, "", "all") == tasks
  {
    forall j | 0 <= j < |tasks|
      ensures Visible("", "all")(tasks[j])
    {
      EmptyIsIncluded(ToLower(SearchText(tasks[j])));
    }
    FilterKeepsAll(tasks, Visible("", "all"));
  }

  /** A filter value other than "all", "completed" and "pending" shows nothing. */
  lemma UnknownFilterShowsNothing(tasks: seq<Task>, query: string, filter: string)
    requires filter != "all" && filter != "completed" && filter != "pending"
    ensures Filtered(tasks, query, filter) == []
  {
    FilterKeepsNone(tasks, Visible(query, filter));
  }

  /** The query matches exactly when its lower-cased form is a slice of the lower-cased
      `author + " " + text`. */
  lemma QueryIsCaseInsensitiveSlice(t: Task, query: string)
    ensures MatchesQuery(t, query) <==> exists i :: OccursAt(ToLower(SearchText(t)), ToLower(query), i)
  {
    IncludesIsInfix(ToLower(SearchText(t)), ToLower(query));
  }

  // ---------- records built by the handlers ----------

  /** `{ author: user.name, text, completed: false, editor: null }`. */
  function NewTask(author: Option<string>, text: string): (r: Task)
    ensures r.author == author && r.text == text && !r.completed && r.editor.None?
    ensures forall id :: !HasId(r, id)
  {
    Task(None, author, text, false, None)
  }

  /** `{ ...current, completed }`. */
  function Toggled(current: Task, completed: bool): (r: Task)
    ensures r.completed == completed
    ensures r.(completed := current.completed) == current
  {
    current.(completed := completed)
  }

  /** `{ ...current, text: newText, editor: user.name }`. */
  function Edited(current: Task, newText: string, editor: Option<string>): (r: Task)
    ensures r.text == newText && r.editor == editor
    ensures r.(text := current.text, editor := current.editor) == current
  {
    current.(text := newText, editor := editor)
  }

  // ---------- list updates ----------

  /** `prev.map((t) => (t.id === id ? updated : t))`. */
  function ReplaceById(prev: seq<Task>, id: string, updated: Task): (r: seq<Task>)
    ensures |r| == |prev|
    ensures forall i :: 0 <= i < |prev| && HasId(prev[i], id) ==> r[i] == updated
    ensures forall i :: 0 <= i < |prev| && !HasId(prev[i], id) ==> r[i] == prev[i]
  {
    seq(|prev|, i requires 0 <= i < |prev| => if HasId(prev[i], id) then updated else prev[i])
  }

  /** At most one task of the list carries `id`. */
  predicate IdUnique(tasks: seq<Task>, id: string)
  {
    forall i, j :: 0 <= i < j < |tasks| && HasId(tasks[i], id) ==> !HasId(tasks[j], id)
  }

  /** When the id occurs exactly once, the page's update of its list and the fallback
      update of the cached list agree. */
  lemma ViewAndCacheUpdatesAgree(tasks: seq<Task>, id: string, updated: Task)
    requires IdUnique(tasks, id)
    requires exists k :: 0 <= k < |tasks| && HasId(tasks[k], id)
    ensures ReplaceFirst(tasks, id, updated) == Ok(ReplaceById(tasks, id, updated))
  {
    var r := ReplaceFirst(tasks, id, updated);
    var k :| FirstWithId(tasks, id, k) && r.value[k] == updated &&
             forall j :: 0 <= j < |tasks| && j != k ==> r.value[j] == tasks[j];
    var v := ReplaceById(tasks, id, updated);
    forall j | 0 <= j < |tasks|
      ensures r.value[j] == v[j]
    {
      if j < k {
        assert !HasId(tasks[j], id);
      } else if j > k {
        assert !HasId(tasks[j], id);
      }
    }
    assert |r.value| == |v|;
    assert r.value == v;
  }

  /** With a repeated id the two disagree: the cache replaces the first copy only, the
      page replaces every copy. */
  lemma RepeatedIdMakesViewAndCacheDiverge()
    ensures var t := Task(Some("a"), None, "x", false, None);
            var u := Task(Some("a"), None, "y", true, None);
            ReplaceFirst([t, t], "a", u) == Ok([u, t]) && ReplaceById([t, t], "a", u) == [u, u]
  {
    var t := Task(Some("a"), None, "x", false, None);
    var u := Task(Some("a"), None, "y", true, None);
    assert FindIndex([t, t], IdIs("a")) == 0;
    assert [t, t][0 := u] == [u, t];
    var v := ReplaceById([t, t], "a", u);
    assert v[0] == u && v[1] == u;
  }

  /** Replacing by an id the list does not carry leaves it unchanged. */
  lemma ReplaceAbsentId(prev: seq<Task>, id: string, updated: Task)
    requires forall j :: 0 <= j < |prev| ==> !HasId(prev[j], id)
    ensures ReplaceById(prev, id, updated) == prev
  {
  }

  // ---------- page state ----------

  class HomePage {
    const storage: LocalStorage
    var tasks: seq<Task>
    var query: string
    var filter: string

    constructor (storage: LocalStorage)
      ensures this.storage == storage && tasks == [] && query == "" && filter == "all"
    {
      this.storage := storage;
      tasks := [];
      query := "";
      filter := "all";
    }

    /** The list the page renders. */
    function Shown(): seq<Task>
      reads this
    {
      Filtered(tasks, query, filter)
    }

    method SetQuery(q: string)
      modifies this`query
      ensures query == q
    {
      query := q;
    }

    method SetFilter(f: string)
      modifies this`filter
      ensures filter == f
    {
      filter := f;
    }

    /** The mount effect: `getTasks().then(setTasks)`. */
    method Load(get: Remote<seq<Task>>)
      modifies this`tasks, storage
      ensures tasks == if get.Reply? then get.data else old(TasksFromStorage(storage))
      ensures get.Reply? ==> storage.items == old(storage.Written(TasksKey, TaskList(get.data)))
      ensures get.NoReply? ==> storage.items == old(storage.items)
    {
      tasks := GetTasks(storage, get);
    }

    /** `handleAdd`: the created task goes to the front of the list. Without a logged-in
        user, reading `user.name` throws and nothing is created. */
    method HandleAdd(text: string, user: Option<User>, post: Remote<Task>,
                     refetch: Remote<seq<Task>>, freshId: string)
      returns (created: Option<Task>)
      modifies this`tasks, storage
      ensures user.None? ==> created.None? && tasks == old(tasks) && storage.items == old(storage.items)
      ensures user.Some? ==> created.Some? && tasks == [created.value] + old(tasks)
      ensures user.Some? && Synced(post, refetch) ==>
                created == Some(post.data) &&
                storage.items == old(storage.Written(TasksKey, TaskList(refetch.data)))
      ensures user.Some? && !Synced(post, refetch) ==>
                created == Some(NewTask(user.value.name, text).(id := Some(freshId))) &&
                storage.items == old(storage.Written(TasksKey, TaskList(TasksFromStorage(storage) + [created.value])))
    {
      if user.None? {
        return None;
      }
      var newTask := NewTask(user.value.name, text);
      var c := CreateTask(storage, newTask, post, refetch, freshId);
      tasks := [c] + tasks;
      return Some(c);
    }

    /** `handleToggle`: a task not on the list is ignored; otherwise the record the update
        returns replaces every task with the id. A failed update changes nothing here. */
    method HandleToggle(id: string, completed: bool, put: Remote<Task>, refetch: Remote<seq<Task>>)
      returns (updated: Option<Task>)
      modifies this`tasks, storage
      ensures tasks == if updated.Some? then ReplaceById(old(tasks), id, updated.value) else old(tasks)
      ensures match Find(old(tasks), IdIs(id))
              case None => updated.None? && storage.items == old(storage.items)
              case Some(current) =>
                if Synced(put, refetch) then
                  updated == Some(put.data) &&
                  storage.items == old(storage.Written(TasksKey, TaskList(refetch.data)))
                else
                  match ReplaceFirst(old(TasksFromStorage(storage)), id, Toggled(current, completed))
                  case Ok(cached) =>
                    updated == Some(Toggled(current, completed)) &&
                    storage.items == old(storage.Written(TasksKey, TaskList(cached)))
                  case Err(_) => updated.None? && storage.items == old(storage.items)
    {
      var current := Find(tasks, IdIs(id));
      if current.None? {
        return None;
      }
      var updatedTask := Toggled(current.value, completed);
      var r := UpdateTask(storage, id, updatedTask, put, refetch);
      if r.Err? {
        return None;
      }
      tasks := ReplaceById(tasks, id, r.value);
      return Some(r.value);
    }

    /** `handleDelete`: every task with the id leaves the list. */
    method HandleDelete(id: string, del: Remote<()>, refetch: Remote<seq<Task>>)
      modifies this`tasks, storage
      ensures tasks == WithoutId(old(tasks), id)
      ensures Synced(del, refetch) ==> storage.items == old(storage.Written(TasksKey, TaskList(refetch.data)))
      ensures !Synced(del, refetch) ==>
                storage.items == old(storage.Written(TasksKey, TaskList(WithoutId(TasksFromStorage(storage), id))))
    {
      DeleteTask(storage, id, del, refetch);
      tasks := WithoutId(tasks, id);
    }

    /** `handleEdit`: like `handleToggle`, with the text replaced and the editor set to the
        current user's name. Without a logged-in user nothing is updated. */
    method HandleEdit(id: string, newText: string, user: Option<User>, put: Remote<Task>,
                      refetch: Remote<seq<Task>>)
      returns (updated: Option<Task>)
      modifies this`tasks, storage
      ensures tasks == if updated.Some? then ReplaceById(old(tasks), id, updated.value) else old(tasks)
      ensures match Find(old(tasks), IdIs(id))
              case None => updated.None? && storage.items == old(storage.items)
              case Some(current) =>
                if user.None? then updated.None? && storage.items == old(storage.items)
                else if Synced(put, refetch) then
                  updated == Some(put.data) &&
                  storage.items == old(storage.Written(TasksKey, TaskList(refetch.data)))
                else
                  match ReplaceFirst(old(TasksFromStorage(storage)), id, Edited(current, newText, user.value.name))
                  case Ok(cached) =>
                    updated == Some(Edited(current, newText, user.value.name)) &&
                    storage.items == old(storage.Written(TasksKey, TaskList(cached)))
                  case Err(_) => updated.None? && storage.items == old(storage.items)
    {
      var current := Find(tasks, IdIs(id));
      if current.None? {
        return None;
      }
      if user.None? {
        return None;
      }
      var updatedTask := Edited(current.value, newText, user.value.name);
      var r := UpdateTask(storage, id, updatedTask, put, refetch);
      if r.Err? {
        return None;
      }
      tasks := ReplaceById(tasks, id, r.value);
      return Some(r.value);
    }
  }
}
