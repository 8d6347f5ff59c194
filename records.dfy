/** The two entities the application stores, and the lookups on them that the
    data-access layer and the pages share. */
module Records {
  import opened Wrappers
  import opened Seqs
  import opened Text

  /** A to-do item. Fields a JSON object may lack are `Option`s; `editor` is `None`
      both for `null` and for a missing field. */
  datatype Task = Task(id: Option<string>, author: Option<string>, text: string,
                       completed: bool, editor: Option<string>)

  /** An account: passwords are kept and compared as plain strings. */
  datatype User = User(id: Option<string>, name: Option<string>, password: Option<string>)

  /** `t.id === id` for a string `id`. */
  predicate HasId(t: Task, id: string)
  {
    t.id == Some(id)
  }

  function IdIs(id: string): Task -> bool
  {
    t => HasId(t, id)
  }

  function IdIsNot(id: string): Task -> bool
  {
    t => !HasId(t, id)
  }

  /** `tasks.filter((t) => t.id !== id)`: what is left once every task with `id` is removed. */
  function WithoutId(tasks: seq<Task>, id: string): (r: seq<Task>)
    ensures forall i :: 0 <= i < |r| ==> !HasId(r[i], id)
    ensures forall j :: 0 <= j < |tasks| && !HasId(tasks[j], id) ==> tasks[j] in r
    ensures IsSubsequence(r, tasks)
  {
    FilterIsSubsequence(tasks, IdIsNot(id));
    Filter(tasks, IdIsNot(id))
  }

  /** Every copy of a task with another id remains, and no copy of a task with `id`. */
  lemma WithoutIdCount(tasks: seq<Task>, id: string, t: Task)
    ensures multiset(WithoutId(tasks, id))[t] == if HasId(t, id) then 0 else multiset(tasks)[t]
  {
    FilterCount(tasks, IdIsNot(id), t);
  }

  /** Removing the same id a second time changes nothing. */
  lemma WithoutIdIdempotent(tasks: seq<Task>, id: string)
    ensures WithoutId(WithoutId(tasks, id), id) == WithoutId(tasks, id)
  {
    FilterIdempotent(tasks, IdIsNot(id));
  }

  /** Removing an id no task carries changes nothing. */
  lemma WithoutAbsentId(tasks: seq<Task>, id: string)
    requires forall j :: 0 <= j < |tasks| ==> !HasId(tasks[j], id)
    ensures WithoutId(tasks, id) == tasks
  {
    FilterKeepsAll(tasks, IdIsNot(id));
  }

  /** `u.name && u.name.trim() === cleanName`: a present, non-empty name whose trim is the query. */
  predicate NameMatches(u: User, cleanName: string)
  {
    u.name.Some? && u.name.value != "" && Trim(u.name.value) == cleanName
  }

  function NameIs(cleanName: string): User -> bool
  {
    u => NameMatches(u, cleanName)
  }

  /** `users.find((u) => u.name && u.name.trim() === cleanName)`: the first user whose
      trimmed name is `cleanName`, if there is one. */
  function FindByName(users: seq<User>, cleanName: string): (r: Option<User>)
    ensures r.None? <==> forall j :: 0 <= j < |users| ==> !NameMatches(users[j], cleanName)
    ensures r.Some? ==> exists k :: 0 <= k < |users| && users[k] == r.value &&
                                     NameMatches(users[k], cleanName) &&
                                     forall j :: 0 <= j < k ==> !NameMatches(users[j], cleanName)
  {
    Find(users, NameIs(cleanName))
  }

  /** A query that is not trimmed matches no user. */
  lemma UntrimmedQueryMatchesNothing(users: seq<User>, query: string)
    requires !IsTrimmed(query)
    ensures FindByName(users, query) == None
  {
  }

  /** Trimming a query that was trimmed already finds the same user. */
  lemma LookupOfTrimmedName(users: seq<User>, name: string)
    ensures FindByName(users, Trim(Trim(name))) == FindByName(users, Trim(name))
  {
    TrimIdempotent(name);
  }
}
