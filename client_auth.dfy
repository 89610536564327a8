/** The browser-side session helpers: the token and the user object kept in
    local storage, the expiry test, and the helpers that clear what they find
    stale or unreadable. `decode` stands for `jwtDecode` (`None` when it
    throws) and `nowMs` for `Date.now()`. */
module ClientAuth {
  import opened Wrappers
  import opened Text

  /** The browser's key-value store. */
  class LocalStorage {
    var items: map<string, string>

    constructor (initial: map<string, string>)
      ensures items == initial
    {
      items := initial;
    }

    /** `getItem`: `None` stands for `null`. */
    function GetItem(key: string): (v: Option<string>)
      reads this
      ensures v.Some? <==> key in items
      ensures v.Some? ==> v.value == items[key]
    {
      if key in items then Some(items[key]) else None
    }

    method SetItem(key: string, value: string)
      modifies this
      ensures items == old(items)[key := value]
    {
      items := items[key := value];
    }

    method RemoveItem(key: string)
      modifies this
      ensures items == old(items) - {key}
    {
      items := items - {key};
    }
  }

  /** The claims of a decoded token the client reads. */
  datatype DecodedToken = DecodedToken(exp: Option<int>, role: Option<string>)

  /** `isTokenExpired`: a token that does not decode, or has no `exp` (or an
      `exp` of 0), counts as expired; otherwise it is expired when `exp`, in
      seconds, is before the current time, so a token is still good during the
      second it expires in. */
  function IsTokenExpired(decode: string -> Option<DecodedToken>, token: string, nowMs: int): (expired: bool)
    ensures decode(token).None? ==> expired
    ensures decode(token).Some? && (decode(token).value.exp.None? || decode(token).value.exp.value == 0) ==> expired
    ensures decode(token).Some? && decode(token).value.exp.Some? && decode(token).value.exp.value != 0
            ==> (expired <==> (decode(token).value.exp.value as real) < (nowMs as real) / 1000.0)
  {
    match decode(token)
    case None => true
    case Some(d) =>
      if d.exp.None? || d.exp.value == 0 then true
      else d.exp.value * 1000 < nowMs
  }

  /** Once expired, a token stays expired. */
  lemma ExpiryIsFinal(decode: string -> Option<DecodedToken>, token: string, nowMs: int, laterMs: int)
    requires nowMs <= laterMs && IsTokenExpired(decode, token, nowMs)
    ensures IsTokenExpired(decode, token, laterMs)
  {
  }

  /** A token that is not expired decodes, so the second decode in
      `getDecodedToken` and `getUserRole` cannot fail and their `catch` is never
      taken. */
  lemma UnexpiredTokenDecodes(decode: string -> Option<DecodedToken>, token: string, nowMs: int)
    requires !IsTokenExpired(decode, token, nowMs)
    ensures decode(token).Some? && decode(token).value.exp.Some?
    ensures decode(token).value.exp.value * 1000 >= nowMs
  {
  }

  /** The stored token is usable: present, non-empty and not expired. */
  predicate Usable(items: map<string, string>, decode: string -> Option<DecodedToken>, nowMs: int) {
    "token" in items && items["token"] != "" && !IsTokenExpired(decode, items["token"], nowMs)
  }

  /** `getToken`. */
  function GetToken(store: LocalStorage): (t: Option<string>)
    reads store
    ensures t.None? <==> "token" !in store.items
    ensures t.Some? ==> t.value == store.items["token"]
  {
    store.GetItem("token")
  }

  /** `getDecodedToken`: the decoded token when it is usable; otherwise `None`,
      and the "token" key is removed. */
  method GetDecodedToken(store: LocalStorage, decode: string -> Option<DecodedToken>, nowMs: int)
    returns (d: Option<DecodedToken>)
    modifies store
    ensures Usable(old(store.items), decode, nowMs) ==> d == decode(old(store.items)["token"]) && d.Some?
                                                         && store.items == old(store.items)
    ensures !Usable(old(store.items), decode, nowMs) ==> d.None? && store.items == old(store.items) - {"token"}
  {
    var token := GetToken(store);
    if token.None? || token.value == "" || IsTokenExpired(decode, token.value, nowMs) {
      store.RemoveItem("token");
      return None;
    }
    d := decode(token.value);
  }

  /** `getUserRole`: the `role` claim of a usable token; otherwise `None`, and the
      "token" key is removed. */
  method GetUserRole(store: LocalStorage, decode: string -> Option<DecodedToken>, nowMs: int)
    returns (role: Option<string>)
    modifies store
    ensures Usable(old(store.items), decode, nowMs) ==> role == decode(old(store.items)["token"]).value.role
                                                         && store.items == old(store.items)
    ensures !Usable(old(store.items), decode, nowMs) ==> role.None? && store.items == old(store.items) - {"token"}
  {
    var token := GetToken(store);
    if token.None? || token.value == "" || IsTokenExpired(decode, token.value, nowMs) {
      store.RemoveItem("token");
      return None;
    }
    role := decode(token.value).value.role;
  }

  /** `getUser`, with `parse` standing for `JSON.parse` (`None` when it throws):
      nothing stored gives `None`; a value that does not parse is removed. */
  method GetUser<U>(store: LocalStorage, parse: string -> Option<U>) returns (user: Option<U>)
    modifies store
    ensures var stored := old(store.items);
            if "user" !in stored || stored["user"] == "" then user.None? && store.items == stored
            else if parse(stored["user"]).None? then user.None? && store.items == stored - {"user"}
            else user == parse(stored["user"]) && store.items == stored
  {
    var local := store.GetItem("user");
    if local.None? || local.value == "" {
      return None;
    }
    user := parse(local.value);
    if user.None? {
      store.RemoveItem("user");
    }
  }

  /** `logout`: both keys go, the rest of the store stays. */
  method Logout(store: LocalStorage)
    modifies store
    ensures store.items == old(store.items) - {"token", "user"}
  {
    store.RemoveItem("token");
    store.RemoveItem("user");
  }

  /** `updateToken`. */
  method UpdateToken(store: LocalStorage, newToken: string)
    modifies store
    ensures store.items == old(store.items)["token" := newToken]
  {
    store.SetItem("token", newToken);
  }

  /** After a logout no helper finds a session: the token reads as absent. */
  lemma LoggedOutHasNoSession(items: map<string, string>, decode: string -> Option<DecodedToken>, nowMs: int)
    ensures !Usable(items - {"token", "user"}, decode, nowMs)
  {
  }
}
