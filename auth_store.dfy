/** The authentication store: the signed-in user, the bearer token and a
    loading flag, persisted in the browser's key-value storage under the
    keys "token" and "user". `JSON.stringify` and `JSON.parse` are supplied
    by the caller: `parse` returns `None` where `JSON.parse` throws. */
module AuthStore {
  import opened Wrappers

  datatype User = User(id: string, email: string)

  const TokenKey := "token"
  const UserKey := "user"

  /** `getItem`: the stored string, or `None` for `null`. */
  function GetItem(items: map<string, string>, k: string): (r: Option<string>)
    ensures r.Some? <==> k in items
    ensures r.Some? ==> r.value == items[k]
  {
    if k in items then Some(items[k]) else None
  }

  /** JavaScript truthiness of `getItem`'s result: `null` and `""` are
      both false. */
  predicate Truthy(v: Option<string>)
    ensures Truthy(v) <==> v != None && v != Some("")
  {
    v.Some? && v.value != ""
  }

  /** The store's fields together with the storage they are persisted in. */
  datatype Session = Session(
    user: Option<User>,
    token: Option<string>,
    isLoading: bool,
    storage: map<string, string>)

  /** The store as created: no user, loading, and the token read from
      storage when running in a browser. */
  function Initial(storage: map<string, string>, inBrowser: bool): (r: Session)
    ensures r.user == None && r.isLoading && r.storage == storage
    ensures r.token.Some? <==> inBrowser && TokenKey in storage
    ensures r.token.Some? ==> r.token.value == storage[TokenKey]
  {
    Session(None, if inBrowser then GetItem(storage, TokenKey) else None, true, storage)
  }

  /** `login`: both keys written, the fields set, every other key kept. */
  function AfterLogin(s: Session, token: string, user: User, stringify: User -> string): (r: Session)
    ensures r.user == Some(user) && r.token == Some(token) && !r.isLoading
    ensures GetItem(r.storage, TokenKey) == Some(token)
    ensures GetItem(r.storage, UserKey) == Some(stringify(user))
    ensures forall k | k != TokenKey && k != UserKey :: GetItem(r.storage, k) == GetItem(s.storage, k)
  {
    Session(Some(user), Some(token), false, s.storage[TokenKey := token][UserKey := stringify(user)])
  }

  /** `logout`: both keys removed, the fields cleared, every other key
      kept. */
  function AfterLogout(s: Session): (r: Session)
    ensures r.user == None && r.token == None && !r.isLoading
    ensures GetItem(r.storage, TokenKey) == None && GetItem(r.storage, UserKey) == None
    ensures forall k | k != TokenKey && k != UserKey :: GetItem(r.storage, k) == GetItem(s.storage, k)
  {
    Session(None, None, false, s.storage - {TokenKey, UserKey})
  }

  /** `checkAuth` after it has run to completion. */
  function AfterCheckAuth(s: Session, parse: string -> Option<User>): (r: Session)
    ensures !r.isLoading
    ensures !Truthy(GetItem(s.storage, TokenKey)) ==>
      r.user == None && r.token == None && r.storage == s.storage
    ensures
      var stored, saved := GetItem(s.storage, TokenKey), GetItem(s.storage, UserKey);
      Truthy(stored) && !Truthy(saved) ==> r == s.(isLoading := false)
    ensures
      var stored, saved := GetItem(s.storage, TokenKey), GetItem(s.storage, UserKey);
      Truthy(stored) && Truthy(saved) && parse(saved.value).Some? ==>
        r.user == parse(saved.value) && r.token == stored && r.storage == s.storage
    ensures
      var stored, saved := GetItem(s.storage, TokenKey), GetItem(s.storage, UserKey);
      Truthy(stored) && Truthy(saved) && parse(saved.value).None? ==>
        r.user == None && r.token == None && r.storage == s.storage - {TokenKey}
  {
    var token := GetItem(s.storage, TokenKey);
    if !Truthy(token) then
      s.(user := None, token := None, isLoading := false)
    else
      var saved := GetItem(s.storage, UserKey);
      if !Truthy(saved) then
        s.(isLoading := false)
      else
        match parse(saved.value)
        case Some(u) => s.(user := Some(u), token := token, isLoading := false)
        case None => Session(None, None, false, s.storage - {TokenKey})
  }

  /** Every path of `checkAuth` ends with the loading flag down, and the
      only change it can make to storage is to remove the token. */
  lemma CheckAuthSettles(s: Session, parse: string -> Option<User>)
    ensures !AfterCheckAuth(s, parse).isLoading
    ensures AfterCheckAuth(s, parse).storage == s.storage
         || AfterCheckAuth(s, parse).storage == s.storage - {TokenKey}
  {
  }

  /** A signed-in session survives a reload: checking the storage written
      by `login` with a non-empty token restores the same user and token. */
  lemma LoginThenCheckAuth(s: Session, token: string, user: User,
                           stringify: User -> string, parse: string -> Option<User>)
    requires token != ""
    requires parse(stringify(user)) == Some(user)
    ensures AfterCheckAuth(AfterLogin(s, token, user, stringify), parse) == AfterLogin(s, token, user, stringify)
  {
    var l := AfterLogin(s, token, user, stringify);
    assert GetItem(l.storage, TokenKey) == Some(token);
    assert GetItem(l.storage, UserKey) == Some(stringify(user));
  }

  /** An empty token is falsy, so `checkAuth` drops the session that a
      `login` with it wrote, while the storage keeps both keys. */
  lemma LoginEmptyTokenThenCheckAuth(s: Session, user: User,
                                     stringify: User -> string, parse: string -> Option<User>)
    ensures var c := AfterCheckAuth(AfterLogin(s, "", user, stringify), parse);
      c.user == None && c.token == None && !c.isLoading
      && c.storage == AfterLogin(s, "", user, stringify).storage
  {
    assert GetItem(AfterLogin(s, "", user, stringify).storage, TokenKey) == Some("");
  }

  /** After `logout`, checking the storage finds no session. */
  lemma LogoutThenCheckAuth(s: Session, parse: string -> Option<User>)
    ensures AfterCheckAuth(AfterLogout(s), parse) == AfterLogout(s)
  {
    assert TokenKey !in AfterLogout(s).storage;
  }

  /** Checking twice is the same as checking once. */
  lemma CheckAuthIdempotent(s: Session, parse: string -> Option<User>)
    ensures AfterCheckAuth(AfterCheckAuth(s, parse), parse) == AfterCheckAuth(s, parse)
  {
    var c := AfterCheckAuth(s, parse);
    if Truthy(GetItem(s.storage, TokenKey)) && Truthy(GetItem(s.storage, UserKey))
       && parse(GetItem(s.storage, UserKey).value).None?
    {
      assert TokenKey !in c.storage;
    }
  }

  /** The browser's `localStorage`. */
  class LocalStore {
    var items: map<string, string>

    constructor (items: map<string, string>)
      ensures this.items == items
    {
      this.items := items;
    }

    method SetItem(k: string, v: string)
      modifies this
      ensures items == old(items)[k := v]
    {
      items := items[k := v];
    }

    method RemoveItem(k: string)
      modifies this
      ensures items == old(items) - {k}
    {
      items := items - {k};
    }
  }

  /** `useAuthStore`: the fields the app reads, over the storage it
      persists to. */
  class Store {
    var user: Option<User>
    var token: Option<string>
    var isLoading: bool
    const local: LocalStore

    function State(): Session
      reads this, local
    {
      Session(user, token, isLoading, local.items)
    }

    constructor (local: LocalStore, inBrowser: bool)
      ensures this.local == local
      ensures user == None && isLoading
      ensures token == if inBrowser then GetItem(local.items, TokenKey) else None
      ensures State() == Initial(local.items, inBrowser)
    {
      this.local := local;
      user := None;
      token := if inBrowser then GetItem(local.items, TokenKey) else None;
      isLoading := true;
    }

    /** `login`: persists the token and the serialised user, then sets the
        fields. */
    method Login(t: string, u: User, stringify: User -> string)
      modifies this, local
      ensures token == Some(t) && user == Some(u) && !isLoading
      ensures local.items == old(local.items)[TokenKey := t][UserKey := stringify(u)]
      ensures State() == AfterLogin(old(State()), t, u, stringify)
    {
      local.SetItem(TokenKey, t);
      local.SetItem(UserKey, stringify(u));
      token, user, isLoading := Some(t), Some(u), false;
    }

    /** `logout`: removes both keys and clears the fields. */
    method Logout()
      modifies this, local
      ensures token == None && user == None && !isLoading
      ensures local.items == old(local.items) - {TokenKey, UserKey}
      ensures forall k :: k != TokenKey && k != UserKey ==>
        (k in local.items <==> k in old(local.items)) &&
        (k in local.items ==> local.items[k] == old(local.items)[k])
      ensures State() == AfterLogout(old(State()))
    {
      local.RemoveItem(TokenKey);
      local.RemoveItem(UserKey);
      assert local.items == old(local.items) - {TokenKey, UserKey};
      token, user, isLoading := None, None, false;
    }

    /** `checkAuth`: restores the session from storage. Without a stored
        token it clears the fields; with a token and a saved user it loads
        both; with a token but no saved user it only ends loading; if the
        saved user cannot be parsed it drops the stored token (the saved
        user stays) and clears the fields. */
    method CheckAuth(parse: string -> Option<User>)
      modifies this, local
      ensures !isLoading
      ensures local.items == old(local.items) || local.items == old(local.items) - {TokenKey}
      ensures !Truthy(GetItem(old(local.items), TokenKey)) ==>
        user == None && token == None && local.items == old(local.items)
      ensures
        var stored, saved := GetItem(old(local.items), TokenKey), GetItem(old(local.items), UserKey);
        Truthy(stored) && !Truthy(saved) ==>
          user == old(user) && token == old(token) && local.items == old(local.items)
      ensures
        var stored, saved := GetItem(old(local.items), TokenKey), GetItem(old(local.items), UserKey);
        Truthy(stored) && Truthy(saved) && parse(saved.value).Some? ==>
          user == parse(saved.value) && token == stored && local.items == old(local.items)
      ensures
        var stored, saved := GetItem(old(local.items), TokenKey), GetItem(old(local.items), UserKey);
        Truthy(stored) && Truthy(saved) && parse(saved.value).None? ==>
          user == None && token == None && local.items == old(local.items) - {TokenKey}
      ensures State() == AfterCheckAuth(old(State()), parse)
    {
      isLoading := true;
      var stored := GetItem(local.items, TokenKey);
      if !Truthy(stored) {
        token, user, isLoading := None, None, false;
        return;
      }
      var saved := GetItem(local.items, UserKey);
      if Truthy(saved) {
        match parse(saved.value)
        case Some(u) =>
          user, token, isLoading := Some(u), stored, false;
        case None =>
          local.RemoveItem(TokenKey);
          token, user, isLoading := None, None, false;
      } else {
        isLoading := false;
      }
    }
  }
}
