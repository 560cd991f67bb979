/**
 * The client's session holder, client/src/lib/auth.ts: the signed-in user
 * kept in memory, and the two `localStorage` keys that remember it across
 * page loads. `localStorage` is a map from key to text; `JSON.stringify` and
 * `JSON.parse` of a user are the functions `encode` and `decode` the session
 * is built with.
 */
module ClientAuth {
  import opened Wrappers
  import opened Schema

  const CurrentUserKey := "currentUser"
  const RememberMeKey := "rememberMe"

  /** What `JSON.parse` makes of the saved text: it throws, it yields `null`, or it yields a user. */
  datatype Parsed = ParseError | Null | Parsed(user: User)

  /** The in-memory user and the contents of `localStorage`. */
  datatype SessionState = SessionState(user: Option<User>, store: map<string, string>)

  /** `localStorage.getItem('rememberMe') === 'true'` */
  predicate Remembered(store: map<string, string>) {
    RememberMeKey in store && store[RememberMeKey] == "true"
  }

  /** Both keys removed, every other key kept. */
  function Forget(store: map<string, string>): (r: map<string, string>)
    ensures CurrentUserKey !in r && RememberMeKey !in r
    ensures forall k :: k != CurrentUserKey && k != RememberMeKey ==> (k in r <==> k in store) && (k in r ==> r[k] == store[k])
  {
    store - {CurrentUserKey, RememberMeKey}
  }

  /** Only these two keys are written; every other key is unchanged. */
  ghost predicate OtherKeysKept(before: map<string, string>, after: map<string, string>) {
    forall k :: k != CurrentUserKey && k != RememberMeKey ==>
      (k in after <==> k in before) && (k in after ==> after[k] == before[k])
  }

  /**
   * `initializeAuth` on a page load: the user is restored only when the
   * flag is `'true'` and a non-empty saved text parses; a parse error removes
   * both keys and leaves no user.
   */
  function Initialized(store: map<string, string>, decode: string -> Parsed): SessionState {
    if Remembered(store) && CurrentUserKey in store && store[CurrentUserKey] != "" then
      match decode(store[CurrentUserKey])
      case ParseError => SessionState(None, Forget(store))
      case Null => SessionState(None, store)
      case Parsed(u) => SessionState(Some(u), store)
    else SessionState(None, store)
  }

  /**
   * `auth.setCurrentUser(user, rememberMe)`: the user is set in memory; with
   * `rememberMe` and a user both keys are written; with a user while the flag
   * is already `'true'` the saved user is rewritten; otherwise, without
   * `rememberMe`, both keys are removed; `(null, true)` leaves the store.
   */
  function SetUser(s: SessionState, user: Option<User>, rememberMe: bool, encode: User -> string): SessionState {
    var store :=
      if rememberMe && user.Some? then s.store[CurrentUserKey := encode(user.value)][RememberMeKey := "true"]
      else if user.Some? && Remembered(s.store) then s.store[CurrentUserKey := encode(user.value)]
      else if !rememberMe then Forget(s.store)
      else s.store;
    SessionState(user, store)
  }

  /** `auth.logout()` */
  function LoggedOut(s: SessionState): SessionState {
    SessionState(None, Forget(s.store))
  }

  // ---------------------------------------------------------------- properties

  /** `setCurrentUser(u, true)` keeps `u` in memory and saves it with the flag. */
  lemma RememberSavesBoth(s: SessionState, u: User, encode: User -> string)
    ensures var t := SetUser(s, Some(u), true, encode);
      && t.user == Some(u)
      && CurrentUserKey in t.store && t.store[CurrentUserKey] == encode(u)
      && Remembered(t.store)
      && OtherKeysKept(s.store, t.store)
  {
  }

  /** `setCurrentUser(u)` while the flag is `'true'` rewrites the saved user and keeps the flag. */
  lemma RewriteKeepsFlag(s: SessionState, u: User, encode: User -> string)
    requires Remembered(s.store)
    ensures var t := SetUser(s, Some(u), false, encode);
      && t.user == Some(u)
      && CurrentUserKey in t.store && t.store[CurrentUserKey] == encode(u)
      && Remembered(t.store)
      && OtherKeysKept(s.store, t.store)
  {
  }

  /** `setCurrentUser(x, false)` without the flag removes both keys. */
  lemma NotRememberedForgets(s: SessionState, user: Option<User>, encode: User -> string)
    requires !Remembered(s.store)
    ensures SetUser(s, user, false, encode).store == Forget(s.store)
  {
  }

  /** `setCurrentUser(null, false)` removes both keys even when the flag is set. */
  lemma NullForgets(s: SessionState, encode: User -> string)
    ensures SetUser(s, None, false, encode) == SessionState(None, Forget(s.store))
  {
  }

  /** `setCurrentUser(null, true)` touches neither key. */
  lemma NullRememberKeepsStore(s: SessionState, encode: User -> string)
    ensures SetUser(s, None, true, encode).store == s.store
  {
  }

  /** Whatever the branch, the store changes only at the two keys, and the user is the one set. */
  lemma SetUserFrame(s: SessionState, user: Option<User>, rememberMe: bool, encode: User -> string)
    ensures OtherKeysKept(s.store, SetUser(s, user, rememberMe, encode).store)
    ensures SetUser(s, user, rememberMe, encode).user == user
  {
  }

  /** After `logout` there is no user and neither key, and a second `logout` changes nothing. */
  lemma LogoutClears(s: SessionState)
    ensures LoggedOut(s).user.None?
    ensures CurrentUserKey !in LoggedOut(s).store && RememberMeKey !in LoggedOut(s).store
    ensures OtherKeysKept(s.store, LoggedOut(s).store)
    ensures LoggedOut(LoggedOut(s)) == LoggedOut(s)
  {
  }

  /** `initializeAuth` restores a user only from a remembered, non-empty saved text that parses to that user. */
  lemma InitializeRestoresOnlyRemembered(store: map<string, string>, decode: string -> Parsed)
    ensures Initialized(store, decode).user.Some? <==>
      && Remembered(store) && CurrentUserKey in store && store[CurrentUserKey] != ""
      && decode(store[CurrentUserKey]).Parsed?
    ensures Initialized(store, decode).user.Some? ==>
      Initialized(store, decode).user.value == decode(store[CurrentUserKey]).user
  {
  }

  /** A saved text that does not parse is removed with the flag. */
  lemma InitializeDropsUnparsable(store: map<string, string>, decode: string -> Parsed)
    requires Remembered(store) && CurrentUserKey in store && store[CurrentUserKey] != ""
    requires decode(store[CurrentUserKey]) == ParseError
    ensures Initialized(store, decode) == SessionState(None, Forget(store))
  {
  }

  /** Without a parse error the store is left as it is. */
  lemma InitializeKeepsStore(store: map<string, string>, decode: string -> Parsed)
    requires !Remembered(store) || CurrentUserKey !in store || store[CurrentUserKey] == "" || decode(store[CurrentUserKey]) != ParseError
    ensures Initialized(store, decode).store == store
  {
  }

  /**
   * A user saved with `rememberMe` comes back on the next page load, given
   * that parsing undoes stringifying.
   */
  lemma RememberedUserSurvivesReload(s: SessionState, u: User, encode: User -> string, decode: string -> Parsed)
    requires decode(encode(u)) == Parsed(u) && encode(u) != ""
    ensures Initialized(SetUser(s, Some(u), true, encode).store, decode) == SetUser(s, Some(u), true, encode)
  {
  }

  /** After `logout` the next page load restores no one. */
  lemma LoggedOutStaysOut(s: SessionState, decode: string -> Parsed)
    ensures Initialized(LoggedOut(s).store, decode) == LoggedOut(s)
  {
  }

  // ---------------------------------------------------------------- the module state

  /** The module variable `currentUser` and `localStorage`, as one object. */
  class Session {
    var currentUser: Option<User>
    var store: map<string, string>
    const encode: User -> string
    const decode: string -> Parsed

    ghost function State(): SessionState
      reads this
    {
      SessionState(currentUser, store)
    }

    /** Loading the module: `currentUser` starts as `null`, then `initializeAuth` runs. */
    constructor (saved: map<string, string>, encode: User -> string, decode: string -> Parsed)
      ensures this.encode == encode && this.decode == decode
      ensures State() == Initialized(saved, decode)
    {
      this.encode := encode;
      this.decode := decode;
      currentUser := None;
      store := saved;
      var rememberMe := RememberMeKey in saved && saved[RememberMeKey] == "true";
      var savedUser := if CurrentUserKey in saved then Some(saved[CurrentUserKey]) else None;
      if rememberMe && savedUser.Some? && savedUser.value != "" {
        match decode(savedUser.value)
        case ParseError =>
          store := store - {CurrentUserKey};
          store := store - {RememberMeKey};
        case Null =>
          currentUser := None;
        case Parsed(u) =>
          currentUser := Some(u);
      }
    }

    /** `auth.getCurrentUser()`: the user last set. */
    function GetCurrentUser(): (u: Option<User>)
      reads this
      ensures u == State().user
    {
      currentUser
    }

    /** `auth.isAuthenticated()`: a user is set. */
    function IsAuthenticated(): (b: bool)
      reads this
      ensures b <==> GetCurrentUser().Some?
    {
      currentUser != None
    }

    method SetCurrentUser(user: Option<User>, rememberMe: bool)
      modifies this
      ensures State() == SetUser(old(State()), user, rememberMe, encode)
      ensures GetCurrentUser() == user && (IsAuthenticated() <==> user.Some?)
    {
      currentUser := user;
      if rememberMe && user.Some? {
        store := store[CurrentUserKey := encode(user.value)];
        store := store[RememberMeKey := "true"];
      } else if user.Some? && RememberMeKey in store && store[RememberMeKey] == "true" {
        store := store[CurrentUserKey := encode(user.value)];
      } else if !rememberMe {
        store := store - {CurrentUserKey};
        store := store - {RememberMeKey};
      }
    }

    method Logout()
      modifies this
      ensures State() == LoggedOut(old(State()))
      ensures !IsAuthenticated()
    {
      currentUser := None;
      store := store - {CurrentUserKey};
      store := store - {RememberMeKey};
    }
  }
}
