/**
 * The browser's two string stores, `localStorage` (kept across visits) and
 * `sessionStorage` (kept for the tab), shared by the auth and theme stores.
 */
module Storage {
  import opened Base

  /** `getItem`: the stored string, or nothing for a missing key. */
  function Get(store: map<string, string>, key: string): (r: Option<string>)
    ensures r.Some? <==> key in store
    ensures r.Some? ==> r.value == store[key]
  {
    if key in store then Some(store[key]) else None
  }

  /** Both stores, changed in place by `setItem` and `removeItem`. */
  class BrowserStorage {
    var local: map<string, string>
    var session: map<string, string>

    constructor (local: map<string, string>, session: map<string, string>)
      ensures this.local == local && this.session == session
    {
      this.local := local;
      this.session := session;
    }

    /** `localStorage.setItem`. */
    method SetLocal(key: string, value: string)
      modifies this
      ensures local == old(local)[key := value] && session == old(session)
      ensures Get(local, key) == Some(value)
    {
      local := local[key := value];
    }

    /** `localStorage.removeItem`. */
    method RemoveLocal(key: string)
      modifies this
      ensures local == old(local) - {key} && session == old(session)
      ensures Get(local, key) == None
    {
      local := local - {key};
    }

    /** `sessionStorage.setItem`. */
    method SetSession(key: string, value: string)
      modifies this
      ensures session == old(session)[key := value] && local == old(local)
      ensures Get(session, key) == Some(value)
    {
      session := session[key := value];
    }

    /** `sessionStorage.removeItem`. */
    method RemoveSession(key: string)
      modifies this
      ensures session == old(session) - {key} && local == old(local)
      ensures Get(session, key) == None
    {
      session := session - {key};
    }
  }
}
