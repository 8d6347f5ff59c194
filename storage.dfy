/** The browser's `localStorage`: a string-keyed store of serialised values. */
module Storage {
  import opened Wrappers
  import opened Records

  /** What a slot can hold once read back. `Blank` is the empty string, which the
      application treats as falsy; `Garbled` is text `JSON.parse` rejects. */
  datatype Json =
    | Blank
    | Garbled
    | TaskList(tasks: seq<Task>)
    | UserList(users: seq<User>)
    | UserRecord(user: User)

  /** The value under `key`, or `None` (`null`) when the key is missing. */
  function Lookup(m: map<string, Json>, key: string): Option<Json>
  {
    if key in m then Some(m[key]) else None
  }

  /** `if (stored)`: `getItem` returned a non-empty string. */
  predicate Truthy(v: Option<Json>)
  {
    v.Some? && v.value != Blank
  }

  /** A write guarded by `typeof window !== 'undefined'`: outside a browser the store
      is left as it is. */
  function Write(inBrowser: bool, m: map<string, Json>, key: string, v: Json): map<string, Json>
  {
    if inBrowser then m[key := v] else m
  }

  class LocalStorage {
    /** `typeof window !== 'undefined'`: the code runs in a browser and the store exists. */
    const inBrowser: bool
    var items: map<string, Json>

    constructor (inBrowser: bool, items: map<string, Json>)
      ensures this.inBrowser == inBrowser && this.items == items
    {
      this.inBrowser := inBrowser;
      this.items := items;
    }

    /** `localStorage.getItem(key)`: `None` stands for `null`. */
    function GetItem(key: string): Option<Json>
      reads this
    {
      Lookup(items, key)
    }

    /** The store after a guarded write: unchanged outside a browser. */
    function Written(key: string, v: Json): map<string, Json>
      reads this
    {
      Write(inBrowser, items, key, v)
    }

    method SetItem(key: string, v: Json)
      modifies this
      ensures items == old(items)[key := v]
      ensures GetItem(key) == Some(v)
    {
      items := items[key := v];
    }

    method RemoveItem(key: string)
      modifies this
      ensures items == old(items) - {key}
      ensures GetItem(key) == None
    {
      items := items - {key};
    }
  }
}
