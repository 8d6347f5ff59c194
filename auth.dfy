/** The session manager: the logged-in user, mirrored in the `auth_user` slot of
    `localStorage`. Name lookup and account creation are the data-access layer's
    `findUserByName` and `createUser`, run on the same store. */
module Auth {
  import opened Wrappers
  import opened Text
  import opened Records
  import opened Storage
  import opened Api

  const SessionKey: string := "auth_user"

  /** The notification `login` ends with. */
  datatype LoginOutcome =
    | Welcomed       // existing account, password matched
    | Registered     // no account under the name: one was created
    | WrongPassword  // existing account, password differs

  /** The record `login` asks to create: `{ name: cleanName, password: cleanPassword }`. */
  function NewUser(cleanName: string, cleanPassword: string): (r: User)
    ensures r.id.None? && r.name == Some(cleanName)
    ensures PasswordAccepted(r, cleanPassword)
  {
    User(None, Some(cleanName), Some(cleanPassword))
  }

  /** `existing.password === cleanPassword`: the stored password is not trimmed. */
  predicate PasswordAccepted(existing: User, cleanPassword: string)
    ensures existing.password.None? ==> !PasswordAccepted(existing, cleanPassword)
    ensures PasswordAccepted(existing, cleanPassword) ==> existing.password.value == cleanPassword
  {
    existing.password == Some(cleanPassword)
  }

  /** A stored password with white space at either end never matches, whatever is typed. */
  lemma PaddedPasswordNeverMatches(existing: User, password: string)
    requires existing.password.Some? && !IsTrimmed(existing.password.value)
    ensures !PasswordAccepted(existing, Trim(password))
  {
  }

  /** The record `login` registers accepts the same typed password afterwards, and its
      name matches the trimmed typed name unless that name is empty, whatever id the
      store gave it. */
  lemma RegisteredUserCanLogIn(name: string, password: string, id: Option<string>)
    ensures PasswordAccepted(NewUser(Trim(name), Trim(password)).(id := id), Trim(password))
    ensures NameMatches(NewUser(Trim(name), Trim(password)).(id := id), Trim(name)) <==> Trim(name) != ""
  {
    TrimIdempotent(name);
  }

  /** Appending the registered record to a list in which the name was not found makes a
      later lookup of the same typed name find exactly that record (unless the name
      trims to the empty string, which no lookup ever matches). */
  lemma RegisteredUserIsFound(users: seq<User>, name: string, password: string, id: Option<string>)
    requires FindByName(users, Trim(name)) == None
    ensures var u := NewUser(Trim(name), Trim(password)).(id := id);
            FindByName(users + [u], Trim(name)) == if Trim(name) != "" then Some(u) else None
  {
    var u := NewUser(Trim(name), Trim(password)).(id := id);
    var all := users + [u];
    RegisteredUserCanLogIn(name, password, id);
    assert forall j :: 0 <= j < |users| ==> all[j] == users[j] && !NameMatches(all[j], Trim(name));
    assert all[|users|] == u;
    var r := FindByName(all, Trim(name));
    if Trim(name) == "" {
      assert r.None?;
    } else {
      assert r.Some?;
      var k :| 0 <= k < |all| && all[k] == r.value && NameMatches(all[k], Trim(name));
      assert k == |users|;
    }
  }

  /** In a browser, after a lookup that found nothing and an offline registration, the
      users slot yields the new account for the same typed name. */
  lemma OfflineRegistrationIsFound(m: map<string, Json>, get: Remote<seq<User>>, name: string,
                                   password: string, post: Remote<User>, refetch: Remote<seq<User>>,
                                   freshId: string)
    requires FindByName(ServedUsers(true, m, get), Trim(name)) == None
    requires !Synced(post, refetch) && Trim(name) != ""
    ensures var newUser := NewUser(Trim(name), Trim(password));
            var created := CreatedUser(newUser, post, refetch, freshId);
            var registered := AfterCreateUser(true, AfterGetUsers(true, m, get), newUser, post, refetch, freshId);
            FindByName(UsersIn(registered[SessionKey := UserRecord(created)]), Trim(name)) == Some(created)
  {
    var looked := AfterGetUsers(true, m, get);
    var newUser := NewUser(Trim(name), Trim(password));
    var created := newUser.(id := Some(freshId));
    var registered := looked[UsersKey := UserList(UsersIn(looked) + [created])];
    ServedUsersAreCached(m, get);
    RegisteredUserIsFound(UsersIn(looked), name, password, Some(freshId));
    assert SessionKey != UsersKey by {
      assert |SessionKey| != |UsersKey|;
    }
    assert UsersIn(registered[SessionKey := UserRecord(created)]) == UsersIn(looked) + [created];
  }

  /** Removing the session slot twice is removing it once. */
  lemma ClearingTwiceIsClearingOnce(m: map<string, Json>)
    ensures (m - {SessionKey}) - {SessionKey} == m - {SessionKey}
    ensures SessionKey !in m - {SessionKey}
  {
  }

  class Session {
    const storage: LocalStorage
    var user: Option<User>

    /** `useState(null)`. */
    constructor (storage: LocalStorage)
      ensures this.storage == storage && user == None
    {
      this.storage := storage;
      user := None;
    }

    /** The mount effect: a stored session becomes the current user. `JSON.parse` is not
        guarded there, so an unreadable slot makes the effect throw (`threw`). */
    method Restore() returns (threw: bool)
      modifies this
      ensures var raw := if storage.inBrowser then storage.GetItem(SessionKey) else None;
              if !Truthy(raw) then !threw && user == old(user)
              else if raw.value.UserRecord? then !threw && user == Some(raw.value.user)
              else threw && user == old(user)
    {
      threw := false;
      if storage.inBrowser {
        var raw := storage.GetItem(SessionKey);
        if Truthy(raw) {
          if raw.value.UserRecord? {
            user := Some(raw.value.user);
          } else {
            threw := true;
          }
        }
      }
    }

    /** `login`: both inputs are trimmed and the name is looked up with `findUserByName`
        (the server list answers `get`); a found account is entered only when its stored
        password equals the trimmed input; an unknown name is registered with
        `createUser` (the server answers `post` and `refetch`; offline the account gets
        `freshId`). Every write of the lookup and the creation stays in the store. */
    method Login(name: string, password: string, get: Remote<seq<User>>,
                 post: Remote<User>, refetch: Remote<seq<User>>, freshId: string)
      returns (outcome: LoginOutcome)
      modifies this, storage
      ensures var cleanName, cleanPassword := Trim(name), Trim(password);
              var looked := AfterGetUsers(storage.inBrowser, old(storage.items), get);
              match FindByName(ServedUsers(storage.inBrowser, old(storage.items), get), cleanName)
              case Some(existing) =>
                if PasswordAccepted(existing, cleanPassword) then
                  outcome == Welcomed && user == Some(existing) &&
                  storage.items == Write(storage.inBrowser, looked, SessionKey, UserRecord(existing))
                else
                  outcome == WrongPassword && user == old(user) && storage.items == looked
              case None =>
                var newUser := NewUser(cleanName, cleanPassword);
                var created := CreatedUser(newUser, post, refetch, freshId);
                outcome == Registered && user == Some(created) &&
                storage.items == Write(storage.inBrowser,
                                       AfterCreateUser(storage.inBrowser, looked, newUser, post, refetch, freshId),
                                       SessionKey, UserRecord(created))
      ensures outcome == Registered && !Synced(post, refetch) && storage.inBrowser && Trim(name) != "" ==>
                FindByName(UsersFromStorage(storage), Trim(name)) == user
    {
      var cleanName := Trim(name);
      var cleanPassword := Trim(password);
      ghost var m := storage.items;
      var existing := FindUserByName(storage, cleanName, get);
      LookupOfTrimmedName(ServedUsers(storage.inBrowser, m, get), name);
      ghost var looked := storage.items;
      assert looked == AfterGetUsers(storage.inBrowser, m, get);
      if existing.Some? {
        var found := existing.value;
        if !PasswordAccepted(found, cleanPassword) {
          return WrongPassword;
        }
        user := Some(found);
        if storage.inBrowser {
          storage.SetItem(SessionKey, UserRecord(found));
        }
        return Welcomed;
      }
      var newUser := NewUser(cleanName, cleanPassword);
      var created := CreateUser(storage, newUser, post, refetch, freshId);
      assert storage.items == AfterCreateUser(storage.inBrowser, looked, newUser, post, refetch, freshId);
      user := Some(created);
      if storage.inBrowser {
        storage.SetItem(SessionKey, UserRecord(created));
      }
      if !Synced(post, refetch) && storage.inBrowser && cleanName != "" {
        OfflineRegistrationIsFound(m, get, name, password, post, refetch, freshId);
      }
      return Registered;
    }

    /** `logout`: no current user and no stored session. */
    method Logout()
      modifies this, storage
      ensures user == None
      ensures storage.items == if storage.inBrowser then old(storage.items) - {SessionKey}
                               else old(storage.items)
    {
      user := None;
      if storage.inBrowser {
        storage.RemoveItem(SessionKey);
      }
    }
  }
}
