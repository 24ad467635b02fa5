/** The two front-end apps (student and worker): each keeps its signed-in user in component
    state and its session in the browser's local storage under its own pair of keys. */
module SessionStore {
  import opened Common

  /** The local-storage keys an app keeps its session under. */
  datatype SessionKeys = SessionKeys(token: string, user: string)

  const STUDENT_KEYS: SessionKeys := SessionKeys("student_token", "student_user")
  const WORKER_KEYS: SessionKeys := SessionKeys("worker_token", "worker_user")

  /** The four keys are pairwise different. */
  lemma SessionKeysDistinct()
    ensures STUDENT_KEYS.token != STUDENT_KEYS.user && WORKER_KEYS.token != WORKER_KEYS.user
    ensures STUDENT_KEYS.token != WORKER_KEYS.token && STUDENT_KEYS.token != WORKER_KEYS.user
    ensures STUDENT_KEYS.user != WORKER_KEYS.token && STUDENT_KEYS.user != WORKER_KEYS.user
  {
    assert STUDENT_KEYS.token[8] != STUDENT_KEYS.user[8];
    assert WORKER_KEYS.token[7] != WORKER_KEYS.user[7];
    assert STUDENT_KEYS.token[0] != WORKER_KEYS.token[0] && STUDENT_KEYS.user[0] != WORKER_KEYS.user[0];
  }

  /** JavaScript truthiness of a `getItem` result: a missing key (null) and "" are falsy. */
  predicate Truthy(v: Option<string>)
  {
    v.Some? && v.value != ""
  }

  function Lookup(stored: map<string, string>, key: string): (r: Option<string>)
    ensures r.Some? <==> key in stored
    ensures r.Some? ==> r.value == stored[key]
  {
    if key in stored then Some(stored[key]) else None
  }

  /** After a key is removed, looking it up finds nothing, and every other key looks up as
      before. */
  lemma LookupAfterRemove(stored: map<string, string>, key: string, other: string)
    ensures Lookup(stored - {key}, key) == None
    ensures other != key ==> Lookup(stored - {key}, other) == Lookup(stored, other)
  {
  }

  /** The user the mount effect restores from storage: only when both of the app's keys hold
      a non-empty value, and then the stored user. */
  function RestoredUser(stored: map<string, string>, keys: SessionKeys): Option<string>
  {
    if Truthy(Lookup(stored, keys.token)) && Truthy(Lookup(stored, keys.user)) then Lookup(stored, keys.user) else None
  }

  /** A user is restored exactly when both keys are present and non-empty; it is the value
      stored under the user key. */
  lemma RestoredUserNeedsBothKeys(stored: map<string, string>, keys: SessionKeys)
    ensures RestoredUser(stored, keys).Some? <==>
              keys.token in stored && stored[keys.token] != "" && keys.user in stored && stored[keys.user] != ""
    ensures RestoredUser(stored, keys).Some? ==> RestoredUser(stored, keys).value == stored[keys.user]
  {
  }

  /** The storage after logout: the app's two keys removed. */
  function WithoutSession(stored: map<string, string>, keys: SessionKeys): map<string, string>
  {
    stored - {keys.token, keys.user}
  }

  /** Logout removes exactly the app's two keys, keeps every other key with its value, and
      leaves nothing for the mount effect to restore. */
  lemma LogoutRemovesOnlySession(stored: map<string, string>, keys: SessionKeys)
    ensures forall k :: k in WithoutSession(stored, keys) <==> k in stored && k != keys.token && k != keys.user
    ensures forall k :: k in WithoutSession(stored, keys) ==> WithoutSession(stored, keys)[k] == stored[k]
    ensures RestoredUser(WithoutSession(stored, keys), keys) == None
  {
  }

  /** Signing out of one app does not sign the browser out of the other. */
  lemma LogoutKeepsOtherAppSession(stored: map<string, string>)
    ensures RestoredUser(WithoutSession(stored, WORKER_KEYS), STUDENT_KEYS) == RestoredUser(stored, STUDENT_KEYS)
    ensures RestoredUser(WithoutSession(stored, STUDENT_KEYS), WORKER_KEYS) == RestoredUser(stored, WORKER_KEYS)
  {
    SessionKeysDistinct();
  }

  /** The browser's local storage. */
  class LocalStorage {
    var items: map<string, string>

    constructor (initial: map<string, string>)
      ensures items == initial
    {
      items := initial;
    }

    /** `getItem`: null for a missing key. */
    function GetItem(key: string): (r: Option<string>)
      reads this
      ensures r == Lookup(items, key)
    {
      if key in items then Some(items[key]) else None
    }

    /** `removeItem`: no effect on a missing key. */
    method RemoveItem(key: string)
      modifies this
      ensures items == old(items) - {key}
      ensures GetItem(key) == None
      ensures forall other :: other != key ==> GetItem(other) == old(GetItem(other))
    {
      items := items - {key};
    }
  }

  /** `StudentApp` / `WorkerApp`: the signed-in user (the stored user document; parsing it
      from JSON is not modelled) and the storage it restores from. */
  class PortalApp {
    const keys: SessionKeys
    const storage: LocalStorage
    var user: Option<string>

    /** The component as first rendered: nobody signed in yet. */
    constructor (keys: SessionKeys, storage: LocalStorage)
      ensures this.keys == keys && this.storage == storage && user == None
    {
      this.keys := keys;
      this.storage := storage;
      user := None;
    }

    /** The mount effect: restore the user when both keys are truthy; otherwise keep state. */
    method Restore()
      modifies this
      ensures user == if RestoredUser(storage.items, keys).Some? then RestoredUser(storage.items, keys) else old(user)
      ensures storage.items == old(storage.items)
    {
      var token := storage.GetItem(keys.token);
      var storedUser := storage.GetItem(keys.user);
      if Truthy(token) && Truthy(storedUser) {
        user := storedUser;
      }
    }

    /** `handleLoginSuccess`: the login screen hands over the user. */
    method LoginSuccess(userData: string)
      modifies this
      ensures user == Some(userData)
      ensures storage.items == old(storage.items)
    {
      user := Some(userData);
    }

    /** `handleLogout`: remove both keys, then forget the user. */
    method Logout()
      modifies this, storage
      ensures storage.items == WithoutSession(old(storage.items), keys)
      ensures user == None
    {
      storage.RemoveItem(keys.token);
      storage.RemoveItem(keys.user);
      user := None;
    }

    /** The render: the dashboard when a user is set, the login screen otherwise. */
    predicate ShowsDashboard()
      reads this
    {
      user.Some?
    }
  }

  /** Mounting an app: the first render with nobody signed in, then the mount effect. The
      user is the restored one, or none when either key is missing or empty. */
  method Mount(keys: SessionKeys, storage: LocalStorage) returns (app: PortalApp)
    ensures app.keys == keys && app.storage == storage
    ensures app.user == RestoredUser(storage.items, keys)
    ensures app.ShowsDashboard() <==> RestoredUser(storage.items, keys).Some?
  {
    app := new PortalApp(keys, storage);
    app.Restore();
  }

  /** Reloading the page after logout mounts a new component that shows the login screen. */
  method ReloadAfterLogout(app: PortalApp) returns (reloaded: PortalApp)
    modifies app, app.storage
    ensures !app.ShowsDashboard() && !reloaded.ShowsDashboard()
    ensures reloaded.keys == app.keys && reloaded.storage == app.storage
  {
    app.Logout();
    LogoutRemovesOnlySession(old(app.storage.items), app.keys);
    reloaded := Mount(app.keys, app.storage);
  }
}
