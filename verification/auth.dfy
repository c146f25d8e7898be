/**
 * The session state the interface shares: who is signed in, whether a
 * sign-in is in flight, and the last error. Each action takes the state and
 * the store and returns both; the intermediate "loading" state an action
 * shows while it runs is not kept, only the state it settles in.
 */
module Auth {
  import opened Common
  import opened Time
  import opened Types
  import Utils
  import Storage

  datatype AuthState = AuthState(user: Option<User>, isLoading: bool, error: Option<string>)

  /** The state before any action. */
  const InitialState: AuthState := AuthState(None, false, None)

  /** What an action reports, the state it leaves and the store it leaves. */
  datatype AuthStep = AuthStep(ok: bool, state: AuthState, store: Storage.Store)

  /** The one message for an unknown email and for a wrong password alike. */
  const InvalidCredentials: string := "Invalid email or password"

  /**
   * `login`: the first user whose email matches ignoring case is signed in
   * when the password checks against its stored form; then the session
   * pointer names it. Otherwise the same message reports either failure and
   * the signed-in user and the store stay as they were.
   */
  function Login(state: AuthState, store: Storage.Store, email: string, password: string): (r: AuthStep)
    ensures !r.state.isLoading
    ensures r.ok ==>
              && r.state.user.Some? && r.state.error.None?
              && r.state.user.value in store.users
              && Storage.SameEmail(r.state.user.value.email, email)
              && Utils.VerifyPassword(password, r.state.user.value.password)
              && r.store == Storage.SetCurrentUserId(store, Some(r.state.user.value.id))
    ensures !r.ok ==> r.state == AuthState(state.user, false, Some(InvalidCredentials)) && r.store == store
    ensures (forall j :: 0 <= j < |store.users| ==> !Storage.SameEmail(store.users[j].email, email)) ==> !r.ok
    ensures r.ok ==> exists i :: 0 <= i < |store.users| && store.users[i] == r.state.user.value &&
                                 forall j :: 0 <= j < i ==> !Storage.SameEmail(store.users[j].email, email)
    ensures (exists i :: 0 <= i < |store.users| && Storage.SameEmail(store.users[i].email, email) &&
                         Utils.VerifyPassword(password, store.users[i].password) &&
                         forall j :: 0 <= j < i ==> !Storage.SameEmail(store.users[j].email, email)) ==> r.ok
  {
    match Storage.GetUserByEmail(store, email)
    case None => AuthStep(false, AuthState(state.user, false, Some(InvalidCredentials)), store)
    case Some(u) =>
      if !Utils.VerifyPassword(password, u.password) then
        AuthStep(false, AuthState(state.user, false, Some(InvalidCredentials)), store)
      else AuthStep(true, AuthState(Some(u), false, None), Storage.SetCurrentUserId(store, Some(u.id)))
  }

  /**
   * With emails unique (as registration keeps them), a sign-in succeeds
   * exactly when some user has the email and the password checks against
   * that user's stored form.
   */
  lemma LoginSucceedsIff(state: AuthState, store: Storage.Store, email: string, password: string)
    requires Storage.EmailsUnique(store.users)
    ensures Login(state, store, email, password).ok <==>
              exists j :: 0 <= j < |store.users| && Storage.SameEmail(store.users[j].email, email) &&
                          Utils.VerifyPassword(password, store.users[j].password)
  {
    var r := Login(state, store, email, password);
    var found := Storage.GetUserByEmail(store, email);
    if found.Some? {
      var i :| 0 <= i < |store.users| && store.users[i] == found.value;
      forall j | 0 <= j < |store.users| && Storage.SameEmail(store.users[j].email, email)
        ensures j == i
      {
        assert Storage.SameEmail(store.users[i].email, store.users[j].email);
      }
    }
  }

  /**
   * `register`: creates the user; on success the new user is signed in and
   * the session pointer names it, on failure the thrown message is recorded
   * and the signed-in user and the store stay as they were.
   */
  function Register(state: AuthState, store: Storage.Store, draft: Storage.UserDraft, freshId: string, now: Timestamp): (r: AuthStep)
    ensures !r.state.isLoading
    ensures r.ok <==> Storage.CreateUser(store, draft, freshId, now).Done?
    ensures r.ok ==>
              var created := Storage.CreateUser(store, draft, freshId, now);
              && r.state == AuthState(Some(created.value), false, None)
              && r.store == Storage.SetCurrentUserId(created.store, Some(freshId))
    ensures !r.ok ==>
              && r.state == AuthState(state.user, false, Some(Storage.CreateUser(store, draft, freshId, now).message))
              && r.store == store
  {
    match Storage.CreateUser(store, draft, freshId, now)
    case Thrown(message) => AuthStep(false, AuthState(state.user, false, Some(message)), store)
    case Done(u, s) => AuthStep(true, AuthState(Some(u), false, None), Storage.SetCurrentUserId(s, Some(u.id)))
  }

  /** Registering an email already present fails with "Email already registered" and changes nothing stored. */
  lemma RegisterDuplicateFails(state: AuthState, store: Storage.Store, draft: Storage.UserDraft, freshId: string, now: Timestamp, j: nat)
    requires j < |store.users| && Storage.SameEmail(store.users[j].email, draft.email)
    ensures var r := Register(state, store, draft, freshId, now);
            && !r.ok && r.store == store && r.state.user == state.user
            && r.state.error == Some("Email already registered")
  {
  }

  /**
   * Registration and sign-in fit together: right after registering, signing
   * in with the same email and password succeeds and signs in the user just
   * created.
   */
  lemma RegisterThenLogin(state: AuthState, store: Storage.Store, draft: Storage.UserDraft, freshId: string, now: Timestamp)
    ensures var r := Register(state, store, draft, freshId, now);
            r.ok ==>
              var l := Login(r.state, r.store, draft.email, draft.password);
              l.ok && l.state.user == r.state.user
  {
    var r := Register(state, store, draft, freshId, now);
    if r.ok {
      var created := Storage.CreateUser(store, draft, freshId, now);
      var u := created.value;
      var users := r.store.users;
      assert users == store.users + [u];
      assert forall j :: 0 <= j < |store.users| ==> !Storage.SameEmail(store.users[j].email, draft.email);
      var found := Storage.GetUserByEmail(r.store, draft.email);
      assert Storage.SameEmail(users[|users| - 1].email, draft.email);
      assert found.Some?;
      var i :| 0 <= i < |users| && users[i] == found.value;
      assert i == |users| - 1;
      assert Utils.VerifyPassword(draft.password, u.password);
    }
  }

  /** `logout`: clears the session pointer, the user and the error. */
  function Logout(state: AuthState, store: Storage.Store): (r: AuthStep)
    ensures r.ok && r.state.user.None? && r.state.error.None? && r.state.isLoading == state.isLoading
    ensures r.store.currentUserId.None? && r.store.users == store.users && r.store.requests == store.requests
    ensures Storage.GetCurrentUser(r.store).None?
  {
    AuthStep(true, state.(user := None, error := None), Storage.Logout(store))
  }

  /** `refreshUser`: reloads the user the session pointer names, or none. */
  function RefreshUser(state: AuthState, store: Storage.Store): (r: AuthState)
    ensures r.isLoading == state.isLoading && r.error == state.error
    ensures r.user.Some? ==> r.user.value in store.users && Storage.Truthy(store.currentUserId)
                             && r.user.value.id == store.currentUserId.value
    ensures !Storage.Truthy(store.currentUserId) ==> r.user.None?
    ensures (Storage.Truthy(store.currentUserId) &&
             exists j :: 0 <= j < |store.users| && store.users[j].id == store.currentUserId.value) ==> r.user.Some?
    ensures r.user.Some? ==> exists i :: 0 <= i < |store.users| && store.users[i] == r.user.value &&
                                         forall j :: 0 <= j < i ==> store.users[j].id != store.currentUserId.value
  {
    state.(user := Storage.GetCurrentUser(store))
  }

  /**
   * After a sign-in, reloading finds the same user again when ids are
   * distinct: the session pointer names exactly that user.
   */
  lemma RefreshAfterLogin(state: AuthState, store: Storage.Store, email: string, password: string)
    requires forall i, j :: 0 <= i < j < |store.users| ==> store.users[i].id != store.users[j].id
    requires forall i :: 0 <= i < |store.users| ==> store.users[i].id != ""
    ensures var l := Login(state, store, email, password);
            l.ok ==> RefreshUser(l.state, l.store).user == l.state.user
  {
    var l := Login(state, store, email, password);
    if l.ok {
      var u := l.state.user.value;
      var k :| 0 <= k < |store.users| && store.users[k] == u;
      var again := RefreshUser(l.state, l.store).user;
      assert Storage.Truthy(l.store.currentUserId);
      var v := again.value;
      var m :| 0 <= m < |store.users| && store.users[m] == v;
      assert m == k;
    }
  }

  /** `clearError`. */
  function ClearError(state: AuthState): (r: AuthState)
    ensures r.error.None? && r.user == state.user && r.isLoading == state.isLoading
  {
    state.(error := None)
  }

  // ---------------------------------------------------------------------------
  // Selectors
  // ---------------------------------------------------------------------------

  /** `useUser`. */
  function UseUser(state: AuthState): Option<User>
  {
    state.user
  }

  /** `useIsAuthenticated`: someone is signed in. */
  predicate UseIsAuthenticated(state: AuthState)
  {
    state.user.Some?
  }

  /** `useIsHero`. */
  predicate UseIsHero(state: AuthState)
  {
    state.user.Some? && state.user.value.Kind() == HeroType
  }

  /** `useIsRequester`. */
  predicate UseIsRequester(state: AuthState)
  {
    state.user.Some? && state.user.value.Kind() == RequesterType
  }

  /** `useHero`: the signed-in user when it is a hero, otherwise none. */
  function UseHero(state: AuthState): (r: Option<User>)
    ensures r.Some? <==> UseIsHero(state)
    ensures r.Some? ==> r == state.user && r.value.Hero?
  {
    match state.user
    case Some(u) => if u.Kind() == HeroType then Some(u) else None
    case None => None
  }

  /** `useRequesterUser`: the signed-in user when it is a requester, otherwise none. */
  function UseRequesterUser(state: AuthState): (r: Option<User>)
    ensures r.Some? <==> UseIsRequester(state)
    ensures r.Some? ==> r == state.user && r.value.Requester?
  {
    match state.user
    case Some(u) => if u.Kind() == RequesterType then Some(u) else None
    case None => None
  }

  /** A signed-in user is seen by exactly one of the two typed selectors; with nobody signed in, by neither. */
  lemma SelectorsPartition(state: AuthState)
    ensures UseIsAuthenticated(state) <==> UseHero(state).Some? || UseRequesterUser(state).Some?
    ensures !(UseHero(state).Some? && UseRequesterUser(state).Some?)
    ensures UseIsAuthenticated(state) <==> UseUser(state).Some?
  {
  }
}
