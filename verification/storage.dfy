/**
 * The persistence layer: the user and request collections and the session
 * pointer, held as one immutable `Store`. Every operation takes the store it
 * reads and returns the store it leaves. An operation that throws returns
 * `Thrown` and, having written nothing, no store. Generated ids and the clock
 * are parameters (`freshId`, `now`).
 */
module Storage {
  import opened Common
  import opened Time
  import opened Types
  import Constants
  import Utils

  /** What the three storage keys hold. */
  datatype Store = Store(users: seq<User>, requests: seq<FoodRequest>, currentUserId: Option<string>)

  /** A result together with the store left behind. */
  datatype Step<T> = Step(value: T, store: Store)

  /** A result and the store left behind, or the message of a thrown error. */
  datatype Outcome<T> = Done(value: T, store: Store) | Thrown(message: string)

  /** The empty collections and no session. */
  const EmptyStore: Store := Store([], [], None)

  /** JavaScript truthiness of a nullable id: present and not the empty text. */
  predicate Truthy(id: Option<string>)
  {
    id.Some? && id.value != ""
  }

  // ---------------------------------------------------------------------------
  // Users
  // ---------------------------------------------------------------------------

  /** The position of the first user with this id. */
  function UserIndex(users: seq<User>, id: string): (r: Option<nat>)
    ensures r.Some? ==> r.value < |users| && users[r.value].id == id
    ensures r.Some? ==> forall j :: 0 <= j < r.value ==> users[j].id != id
    ensures r.None? ==> forall j :: 0 <= j < |users| ==> users[j].id != id
  {
    FindIndex(users, (u: User) => u.id == id)
  }

  /** `getUserById`. */
  function GetUserById(store: Store, id: string): (r: Option<User>)
    ensures r.Some? ==> r.value in store.users && r.value.id == id
    ensures r.Some? ==> exists i :: 0 <= i < |store.users| && store.users[i] == r.value &&
                                    forall j :: 0 <= j < i ==> store.users[j].id != id
    ensures r.None? ==> forall j :: 0 <= j < |store.users| ==> store.users[j].id != id
  {
    match UserIndex(store.users, id)
    case None => None
    case Some(i) => Some(store.users[i])
  }

  /** Emails are compared ignoring case. */
  predicate SameEmail(a: string, b: string)
  {
    ToLower(a) == ToLower(b)
  }

  /** `getUserByEmail`: the first user whose email matches ignoring case. */
  function GetUserByEmail(store: Store, email: string): (r: Option<User>)
    ensures r.Some? ==> r.value in store.users && SameEmail(r.value.email, email)
    ensures r.Some? ==> exists i :: 0 <= i < |store.users| && store.users[i] == r.value &&
                                    forall j :: 0 <= j < i ==> !SameEmail(store.users[j].email, email)
    ensures r.None? ==> forall j :: 0 <= j < |store.users| ==> !SameEmail(store.users[j].email, email)
  {
    match FindIndex(store.users, (u: User) => SameEmail(u.email, email))
    case None => None
    case Some(i) => Some(store.users[i])
  }

  /** No two users share an email, ignoring case. */
  predicate EmailsUnique(users: seq<User>)
  {
    forall i, j :: 0 <= i < j < |users| ==> !SameEmail(users[i].email, users[j].email)
  }

  /**
   * The registration data (`Omit<User, 'id' | 'createdAt'>`): the type tag,
   * the base fields with the plain-text password, and the transport method a
   * hero may give.
   */
  datatype UserDraft = UserDraft(
    kind: UserType,
    email: string,
    password: string,
    name: string,
    phone: string,
    neighborhood: string,
    transportMethod: Option<TransportMethod>)

  /** The record `createUser` builds: encoded password, and zeroed hero statistics or an empty history. */
  function NewUser(draft: UserDraft, id: string, now: Timestamp): User
  {
    var pw := Utils.HashPassword(draft.password);
    match draft.kind
    case HeroType =>
      Hero(id, draft.email, pw, draft.name, draft.phone, draft.neighborhood, now,
           draft.transportMethod, 0, 0, [], [], 0.0, 0)
    case RequesterType =>
      Requester(id, draft.email, pw, draft.name, draft.phone, draft.neighborhood, now, [])
  }

  /**
   * `createUser`: refuses an email already registered (ignoring case),
   * otherwise appends one new user whose stored password accepts exactly the
   * given password.
   */
  function CreateUser(store: Store, draft: UserDraft, freshId: string, now: Timestamp): (r: Outcome<User>)
    ensures r.Thrown? <==> exists j :: 0 <= j < |store.users| && SameEmail(store.users[j].email, draft.email)
    ensures r.Thrown? ==> r.message == "Email already registered"
    ensures r.Done? ==> r.store == store.(users := store.users + [r.value])
    ensures r.Done? ==>
              && r.value.id == freshId && r.value.createdAt == now && r.value.Kind() == draft.kind
              && r.value.email == draft.email && r.value.name == draft.name
              && r.value.phone == draft.phone && r.value.neighborhood == draft.neighborhood
              && (forall pw :: Utils.VerifyPassword(pw, r.value.password) <==> pw == draft.password)
    ensures r.Done? && r.value.Hero? ==>
              && r.value.transportMethod == draft.transportMethod
              && r.value.points == 0 && r.value.level == 0
              && r.value.badges == [] && r.value.claimedCoupons == []
              && r.value.averageRating == 0.0 && r.value.totalDeliveries == 0
    ensures r.Done? && r.value.Requester? ==> r.value.deliveryHistory == []
  {
    if GetUserByEmail(store, draft.email).Some? then Thrown("Email already registered")
    else
      var u := NewUser(draft, freshId, now);
      PasswordAcceptsOnlyItself(draft.password);
      Done(u, store.(users := store.users + [u]))
  }

  lemma PasswordAcceptsOnlyItself(password: string)
    ensures forall pw :: Utils.VerifyPassword(pw, Utils.HashPassword(password)) <==> pw == password
  {
    forall pw ensures Utils.VerifyPassword(pw, Utils.HashPassword(password)) <==> pw == password {
      Utils.VerifyPasswordExact(pw, password);
    }
  }

  /** Registration keeps emails unique: the one guarantee `createUser` exists to give. */
  lemma CreateUserKeepsEmailsUnique(store: Store, draft: UserDraft, freshId: string, now: Timestamp)
    requires EmailsUnique(store.users)
    ensures var r := CreateUser(store, draft, freshId, now);
            r.Done? ==> EmailsUnique(r.store.users)
  {
    var r := CreateUser(store, draft, freshId, now);
    if r.Done? {
      var us := r.store.users;
      forall i, j | 0 <= i < j < |us| ensures !SameEmail(us[i].email, us[j].email) {
        if j == |us| - 1 {
          assert us[i] == store.users[i];
          assert us[j] == r.value;
        } else {
          assert us[i] == store.users[i] && us[j] == store.users[j];
        }
      }
    }
  }

  /**
   * `Partial<User>`: the fields an update may set. `None` leaves a field as
   * it is; hero fields only affect heroes and `deliveryHistory` only
   * requesters.
   */
  datatype UserPatch = UserPatch(
    email: Option<string>,
    password: Option<string>,
    name: Option<string>,
    phone: Option<string>,
    neighborhood: Option<string>,
    createdAt: Option<Timestamp>,
    transportMethod: Option<Option<TransportMethod>>,
    points: Option<int>,
    level: Option<int>,
    badges: Option<seq<string>>,
    claimedCoupons: Option<seq<string>>,
    averageRating: Option<real>,
    totalDeliveries: Option<int>,
    deliveryHistory: Option<seq<string>>)

  /** `{}`: changes nothing. */
  const NoUserChange: UserPatch :=
    UserPatch(None, None, None, None, None, None, None, None, None, None, None, None, None, None)

  /** `{ ...user, ...patch }`, with the id and the type tag kept. */
  function ApplyUserPatch(u: User, p: UserPatch): (r: User)
    ensures r.id == u.id && r.Kind() == u.Kind()
  {
    var base := u.(email := p.email.GetOr(u.email), password := p.password.GetOr(u.password),
                   name := p.name.GetOr(u.name), phone := p.phone.GetOr(u.phone),
                   neighborhood := p.neighborhood.GetOr(u.neighborhood),
                   createdAt := p.createdAt.GetOr(u.createdAt));
    match base
    case Hero(_, _, _, _, _, _, _, _, _, _, _, _, _, _) =>
      base.(transportMethod := p.transportMethod.GetOr(base.transportMethod),
            points := p.points.GetOr(base.points), level := p.level.GetOr(base.level),
            badges := p.badges.GetOr(base.badges), claimedCoupons := p.claimedCoupons.GetOr(base.claimedCoupons),
            averageRating := p.averageRating.GetOr(base.averageRating),
            totalDeliveries := p.totalDeliveries.GetOr(base.totalDeliveries))
    case Requester(_, _, _, _, _, _, _, _) =>
      base.(deliveryHistory := p.deliveryHistory.GetOr(base.deliveryHistory))
  }

  /** The patch that spreads a whole hero record: every field takes the hero's value. */
  function WholeHero(h: User): UserPatch
    requires h.Hero?
  {
    UserPatch(Some(h.email), Some(h.password), Some(h.name), Some(h.phone), Some(h.neighborhood),
              Some(h.createdAt), Some(h.transportMethod), Some(h.points), Some(h.level), Some(h.badges),
              Some(h.claimedCoupons), Some(h.averageRating), Some(h.totalDeliveries), None)
  }

  /** The empty patch changes nothing, applying a patch twice is applying it once, and a whole-hero patch replaces a hero with the same id. */
  lemma ApplyUserPatchLaws(u: User, p: UserPatch, h: User)
    ensures ApplyUserPatch(u, NoUserChange) == u
    ensures ApplyUserPatch(ApplyUserPatch(u, p), p) == ApplyUserPatch(u, p)
    ensures u.Hero? && h.Hero? && h.id == u.id ==> ApplyUserPatch(u, WholeHero(h)) == h
  {
  }

  /**
   * `updateUser`: patches the first user with this id and returns it, or
   * returns `None` and writes nothing when there is none. No other user, and
   * nothing else in the store, changes.
   */
  function UpdateUser(store: Store, id: string, patch: UserPatch): (r: Step<Option<User>>)
    ensures r.value.Some? <==> UserIndex(store.users, id).Some?
    ensures r.value.None? ==> r.store == store
    ensures r.value.Some? ==>
              var i := UserIndex(store.users, id).value;
              && r.value.value == ApplyUserPatch(store.users[i], patch)
              && r.store == store.(users := store.users[i := r.value.value])
  {
    match UserIndex(store.users, id)
    case None => Step(None, store)
    case Some(i) =>
      var u := ApplyUserPatch(store.users[i], patch);
      Step(Some(u), store.(users := store.users[i := u]))
  }

  /**
   * `deleteUser`: removes every user with this id and reports whether there
   * was one; with none, nothing is written. The session pointer is left alone.
   */
  function DeleteUser(store: Store, id: string): (r: Step<bool>)
    ensures r.value <==> exists j :: 0 <= j < |store.users| && store.users[j].id == id
    ensures !r.value ==> r.store == store
    ensures forall u :: u in r.store.users <==> u in store.users && u.id != id
    ensures IsSubsequence(r.store.users, store.users)
    ensures forall u :: multiset(r.store.users)[u] == if u.id != id then multiset(store.users)[u] else 0
    ensures r.store.requests == store.requests && r.store.currentUserId == store.currentUserId
  {
    var keep := (u: User) => u.id != id;
    var filtered := Filter(store.users, keep);
    FilterKeepsAllIff(store.users, keep);
    if |filtered| == |store.users| then
      FilterAll(store.users, keep);
      FilterSpec(store.users, keep);
      Step(false, store)
    else
      FilterSpec(store.users, keep);
      FilterMultiplicity(store.users, keep);
      Step(true, store.(users := filtered))
  }

  // ---------------------------------------------------------------------------
  // Session
  // ---------------------------------------------------------------------------

  /** `setCurrentUserId`. */
  function SetCurrentUserId(store: Store, id: Option<string>): (r: Store)
    ensures r.currentUserId == id && r.users == store.users && r.requests == store.requests
  {
    store.(currentUserId := id)
  }

  /** `getCurrentUser`: the user the session points at, when the pointer is set and names a user. */
  function GetCurrentUser(store: Store): (r: Option<User>)
    ensures r.Some? ==> Truthy(store.currentUserId) && r.value in store.users && r.value.id == store.currentUserId.value
    ensures !Truthy(store.currentUserId) ==> r.None?
    ensures Truthy(store.currentUserId) && r.None? ==>
              forall j :: 0 <= j < |store.users| ==> store.users[j].id != store.currentUserId.value
    ensures r.Some? ==> exists i :: 0 <= i < |store.users| && store.users[i] == r.value &&
                                    forall j :: 0 <= j < i ==> store.users[j].id != store.currentUserId.value
  {
    if Truthy(store.currentUserId) then GetUserById(store, store.currentUserId.value) else None
  }

  /** `logout`: clears the session pointer only. */
  function Logout(store: Store): (r: Store)
    ensures r.currentUserId.None? && r.users == store.users && r.requests == store.requests
    ensures GetCurrentUser(r).None?
  {
    SetCurrentUserId(store, None)
  }

  // ---------------------------------------------------------------------------
  // Request queries
  // ---------------------------------------------------------------------------

  /** The position of the first request with this id. */
  function RequestIndex(requests: seq<FoodRequest>, id: string): (r: Option<nat>)
    ensures r.Some? ==> r.value < |requests| && requests[r.value].id == id
    ensures r.Some? ==> forall j :: 0 <= j < r.value ==> requests[j].id != id
    ensures r.None? ==> forall j :: 0 <= j < |requests| ==> requests[j].id != id
  {
    FindIndex(requests, (q: FoodRequest) => q.id == id)
  }

  /** `getRequestById`. */
  function GetRequestById(store: Store, id: string): (r: Option<FoodRequest>)
    ensures r.Some? ==> r.value in store.requests && r.value.id == id
    ensures r.Some? ==> exists i :: 0 <= i < |store.requests| && store.requests[i] == r.value &&
                                    forall j :: 0 <= j < i ==> store.requests[j].id != id
    ensures r.None? ==> forall j :: 0 <= j < |store.requests| ==> store.requests[j].id != id
  {
    match RequestIndex(store.requests, id)
    case None => None
    case Some(i) => Some(store.requests[i])
  }

  function HasStatus(status: RequestStatus): FoodRequest -> bool
  {
    (q: FoodRequest) => q.status == status
  }

  /** `getRequestsByStatus`: the requests in this status, in stored order. */
  function GetRequestsByStatus(store: Store, status: RequestStatus): (r: seq<FoodRequest>)
    ensures forall q :: q in r <==> q in store.requests && q.status == status
    ensures IsSubsequence(r, store.requests)
    ensures forall q :: multiset(r)[q] == if q.status == status then multiset(store.requests)[q] else 0
  {
    FilterSpec(store.requests, HasStatus(status));
    FilterMultiplicity(store.requests, HasStatus(status));
    Filter(store.requests, HasStatus(status))
  }

  /** `getPendingRequests`. */
  function GetPendingRequests(store: Store): (r: seq<FoodRequest>)
    ensures forall q :: q in r <==> q in store.requests && q.status == Pending
    ensures IsSubsequence(r, store.requests)
    ensures forall q :: multiset(r)[q] == if q.status == Pending then multiset(store.requests)[q] else 0
  {
    GetRequestsByStatus(store, Pending)
  }

  /** `getRequestsByUser`: the user's requests as requester, or the ones assigned to them as hero. */
  function GetRequestsByUser(store: Store, userId: string, asRequester: bool): (r: seq<FoodRequest>)
    ensures asRequester ==> forall q :: q in r <==> q in store.requests && q.requesterId == userId
    ensures !asRequester ==> forall q :: q in r <==> q in store.requests && q.heroId == Some(userId)
    ensures IsSubsequence(r, store.requests)
    ensures asRequester ==>
              forall q :: multiset(r)[q] == if q.requesterId == userId then multiset(store.requests)[q] else 0
    ensures !asRequester ==>
              forall q :: multiset(r)[q] == if q.heroId == Some(userId) then multiset(store.requests)[q] else 0
  {
    var p := if asRequester then (q: FoodRequest) => q.requesterId == userId
             else (q: FoodRequest) => q.heroId == Some(userId);
    FilterSpec(store.requests, p);
    FilterMultiplicity(store.requests, p);
    Filter(store.requests, p)
  }

  /** Assigned to this hero and accepted or under way. */
  function IsActiveFor(heroId: string): FoodRequest -> bool
  {
    (q: FoodRequest) => q.heroId == Some(heroId) && (q.status == Accepted || q.status == InProgress)
  }

  /** `getActiveRequestsForHero`. */
  function GetActiveRequestsForHero(store: Store, heroId: string): (r: seq<FoodRequest>)
    ensures forall q :: q in r <==> q in store.requests && q.heroId == Some(heroId) &&
                                     (q.status == Accepted || q.status == InProgress)
    ensures IsSubsequence(r, store.requests)
    ensures forall q :: multiset(r)[q] == if IsActiveFor(heroId)(q) then multiset(store.requests)[q] else 0
  {
    FilterSpec(store.requests, IsActiveFor(heroId));
    FilterMultiplicity(store.requests, IsActiveFor(heroId));
    Filter(store.requests, IsActiveFor(heroId))
  }

  /** How many requests a hero holds open. */
  function ActiveCount(store: Store, heroId: string): nat
  {
    Count(store.requests, IsActiveFor(heroId))
  }

  // ---------------------------------------------------------------------------
  // Request writes
  // ---------------------------------------------------------------------------

  /** What a requester fills in; everything else a new request gets is fixed. */
  datatype RequestDraft = RequestDraft(
    requesterId: string,
    foodType: FoodType,
    quantity: Quantity,
    deliveryAddress: string,
    deliveryLat: real,
    deliveryLng: real,
    preferredTimeStart: Option<Timestamp>,
    preferredTimeEnd: Option<Timestamp>,
    specialNotes: string,
    contactMethod: string)

  /**
   * `createRequest`: appends a pending, unassigned, unrated request with no
   * lifecycle dates, carrying the draft's fields.
   */
  function CreateRequest(store: Store, draft: RequestDraft, freshId: string, now: Timestamp): (r: Step<FoodRequest>)
    ensures r.store == store.(requests := store.requests + [r.value])
    ensures var q := r.value;
            && q.id == freshId && q.createdAt == now
            && q.status == Pending && q.heroId.None? && q.rating.None?
            && q.acceptedAt.None? && q.inProgressAt.None? && q.completedAt.None? && q.cancelledAt.None?
            && q.cancelReason.None?
            && q.requesterId == draft.requesterId && q.foodType == draft.foodType && q.quantity == draft.quantity
            && q.deliveryAddress == draft.deliveryAddress && q.deliveryLat == draft.deliveryLat
            && q.deliveryLng == draft.deliveryLng && q.preferredTimeStart == draft.preferredTimeStart
            && q.preferredTimeEnd == draft.preferredTimeEnd && q.specialNotes == draft.specialNotes
            && q.contactMethod == draft.contactMethod
  {
    var q := FoodRequest(freshId, draft.requesterId, None, Pending, draft.foodType, draft.quantity,
                         draft.deliveryAddress, draft.deliveryLat, draft.deliveryLng,
                         draft.preferredTimeStart, draft.preferredTimeEnd, draft.specialNotes,
                         draft.contactMethod, None, now, None, None, None, None, None);
    Step(q, store.(requests := store.requests + [q]))
  }

  /** A new request is pending and unassigned, so no hero's active count moves. */
  lemma CreateRequestKeepsActiveCounts(store: Store, draft: RequestDraft, freshId: string, now: Timestamp, heroId: string)
    ensures ActiveCount(CreateRequest(store, draft, freshId, now).store, heroId) == ActiveCount(store, heroId)
  {
    var r := CreateRequest(store, draft, freshId, now);
    FilterConcat(store.requests, [r.value], IsActiveFor(heroId));
    assert Filter([r.value], IsActiveFor(heroId)) == [];
  }

  /** `Partial<FoodRequest>` over the lifecycle fields; `Some(None)` writes `null`. */
  datatype RequestPatch = RequestPatch(
    heroId: Option<Option<string>>,
    status: Option<RequestStatus>,
    rating: Option<Option<Rating>>,
    acceptedAt: Option<Option<Timestamp>>,
    inProgressAt: Option<Option<Timestamp>>,
    completedAt: Option<Option<Timestamp>>,
    cancelledAt: Option<Option<Timestamp>>,
    cancelReason: Option<Option<string>>)

  const NoRequestChange: RequestPatch := RequestPatch(None, None, None, None, None, None, None, None)

  /** `{ ...request, ...patch }`. */
  function ApplyRequestPatch(q: FoodRequest, p: RequestPatch): (r: FoodRequest)
    ensures r.id == q.id && r.requesterId == q.requesterId && r.createdAt == q.createdAt
    ensures r.deliveryAddress == q.deliveryAddress && r.quantity == q.quantity && r.foodType == q.foodType
  {
    q.(heroId := p.heroId.GetOr(q.heroId), status := p.status.GetOr(q.status),
       rating := p.rating.GetOr(q.rating), acceptedAt := p.acceptedAt.GetOr(q.acceptedAt),
       inProgressAt := p.inProgressAt.GetOr(q.inProgressAt), completedAt := p.completedAt.GetOr(q.completedAt),
       cancelledAt := p.cancelledAt.GetOr(q.cancelledAt), cancelReason := p.cancelReason.GetOr(q.cancelReason))
  }

  /** The empty patch changes nothing and applying a patch twice is applying it once. */
  lemma ApplyRequestPatchLaws(q: FoodRequest, p: RequestPatch)
    ensures ApplyRequestPatch(q, NoRequestChange) == q
    ensures ApplyRequestPatch(ApplyRequestPatch(q, p), p) == ApplyRequestPatch(q, p)
  {
  }

  /**
   * The shape every request update has: found by id or nothing written, and
   * only the first request with that id replaced by the returned record.
   */
  predicate ReplacedFirst(store: Store, id: string, r: Step<Option<FoodRequest>>)
  {
    && (r.value.Some? <==> RequestIndex(store.requests, id).Some?)
    && (r.value.None? ==> r.store == store)
    && (r.value.Some? ==>
          var i := RequestIndex(store.requests, id).value;
          r.store == store.(requests := store.requests[i := r.value.value]))
  }

  /** `updateRequest`: the patched request, or `None` when the id is unknown. */
  function UpdateRequest(store: Store, id: string, patch: RequestPatch): (r: Step<Option<FoodRequest>>)
    ensures ReplacedFirst(store, id, r)
    ensures r.value.Some? ==> r.value.value == ApplyRequestPatch(store.requests[RequestIndex(store.requests, id).value], patch)
  {
    match RequestIndex(store.requests, id)
    case None => Step(None, store)
    case Some(i) =>
      var q := ApplyRequestPatch(store.requests[i], patch);
      Step(Some(q), store.(requests := store.requests[i := q]))
  }

  /**
   * `acceptRequest`: refuses a hero who already holds three open requests,
   * writing nothing; otherwise assigns the request to the hero, marks it
   * accepted and stamps it. The current status of the request is not checked.
   */
  function AcceptRequest(store: Store, requestId: string, heroId: string, now: Timestamp): (r: Outcome<Option<FoodRequest>>)
    ensures r.Thrown? <==> ActiveCount(store, heroId) >= Constants.MaxActiveRequests
    ensures r.Thrown? ==> r.message == "Maximum 3 active requests allowed"
    ensures r.Done? ==> ReplacedFirst(store, requestId, Step(r.value, r.store))
    ensures r.Done? && r.value.Some? ==>
              var old_q := store.requests[RequestIndex(store.requests, requestId).value];
              r.value.value == old_q.(heroId := Some(heroId), status := Accepted, acceptedAt := Some(now))
  {
    if |GetActiveRequestsForHero(store, heroId)| >= 3 then Thrown("Maximum 3 active requests allowed")
    else
      var s := UpdateRequest(store, requestId,
                             NoRequestChange.(heroId := Some(Some(heroId)), status := Some(Accepted),
                                              acceptedAt := Some(Some(now))));
      Done(s.value, s.store)
  }

  /**
   * After a successful accept the hero holds at most three open requests, and
   * no other hero holds more than before.
   */
  lemma {:induction false} AcceptRespectsCap(store: Store, requestId: string, heroId: string, now: Timestamp)
    ensures var r := AcceptRequest(store, requestId, heroId, now);
            r.Done? ==>
              && ActiveCount(r.store, heroId) <= Constants.MaxActiveRequests
              && forall h :: h != heroId ==> ActiveCount(r.store, h) <= ActiveCount(store, h)
  {
    var r := AcceptRequest(store, requestId, heroId, now);
    if r.Done? && r.value.Some? {
      var i := RequestIndex(store.requests, requestId).value;
      var q := r.value.value;
      CountUpdate(store.requests, i, q, IsActiveFor(heroId));
      forall h | h != heroId ensures ActiveCount(r.store, h) <= ActiveCount(store, h) {
        CountUpdate(store.requests, i, q, IsActiveFor(h));
      }
    }
  }

  /** `markRequestInProgress`: marks and stamps, whatever the current status. */
  function MarkRequestInProgress(store: Store, requestId: string, now: Timestamp): (r: Step<Option<FoodRequest>>)
    ensures ReplacedFirst(store, requestId, r)
    ensures r.value.Some? ==>
              var old_q := store.requests[RequestIndex(store.requests, requestId).value];
              r.value.value == old_q.(status := InProgress, inProgressAt := Some(now))
  {
    UpdateRequest(store, requestId, NoRequestChange.(status := Some(InProgress), inProgressAt := Some(Some(now))))
  }

  /**
   * `completeRequest`: marks completed and stamps; the rating becomes the
   * given one, and an earlier rating is erased when none is given.
   */
  function CompleteRequest(store: Store, requestId: string, rating: Option<Rating>, now: Timestamp): (r: Step<Option<FoodRequest>>)
    ensures ReplacedFirst(store, requestId, r)
    ensures r.value.Some? ==>
              var old_q := store.requests[RequestIndex(store.requests, requestId).value];
              r.value.value == old_q.(status := Completed, completedAt := Some(now), rating := rating)
  {
    UpdateRequest(store, requestId,
                  NoRequestChange.(status := Some(Completed), completedAt := Some(Some(now)), rating := Some(rating)))
  }

  /** `cancelRequest`: marks cancelled, stamps and records the reason. */
  function CancelRequest(store: Store, requestId: string, reason: string, now: Timestamp): (r: Step<Option<FoodRequest>>)
    ensures ReplacedFirst(store, requestId, r)
    ensures r.value.Some? ==>
              var old_q := store.requests[RequestIndex(store.requests, requestId).value];
              r.value.value == old_q.(status := Cancelled, cancelledAt := Some(now), cancelReason := Some(reason))
  {
    UpdateRequest(store, requestId,
                  NoRequestChange.(status := Some(Cancelled), cancelledAt := Some(Some(now)),
                                   cancelReason := Some(Some(reason))))
  }

  /**
   * The store does not enforce the request lifecycle: a cancelled request
   * can still be completed, and then carries both dates.
   */
  lemma CancelledCanBeCompleted(store: Store, requestId: string, reason: string, t1: Timestamp, t2: Timestamp)
    requires RequestIndex(store.requests, requestId).Some?
    ensures var s1 := CancelRequest(store, requestId, reason, t1);
            var s2 := CompleteRequest(s1.store, requestId, None, t2);
            && s1.value.Some? && s1.value.value.status == Cancelled
            && s2.value.Some? && s2.value.value.status == Completed
            && s2.value.value.cancelledAt == Some(t1) && s2.value.value.completedAt == Some(t2)
  {
    var i := RequestIndex(store.requests, requestId).value;
    var s1 := CancelRequest(store, requestId, reason, t1);
    SameIndexAfterReplace(store.requests, requestId, i, s1.value.value);
  }

  /**
   * Nor does it keep the three-request cap: marking a finished request of a
   * hero in progress adds one to that hero's open requests.
   */
  lemma InProgressCanExceedCap(store: Store, requestId: string, heroId: string, now: Timestamp)
    requires RequestIndex(store.requests, requestId).Some?
    requires var q := store.requests[RequestIndex(store.requests, requestId).value];
             q.heroId == Some(heroId) && q.status == Completed
    ensures ActiveCount(MarkRequestInProgress(store, requestId, now).store, heroId) == ActiveCount(store, heroId) + 1
  {
    var i := RequestIndex(store.requests, requestId).value;
    var r := MarkRequestInProgress(store, requestId, now);
    CountUpdate(store.requests, i, r.value.value, IsActiveFor(heroId));
  }

  /** Replacing a request by one with the same id does not move the first match. */
  lemma SameIndexAfterReplace(requests: seq<FoodRequest>, id: string, i: nat, q: FoodRequest)
    requires RequestIndex(requests, id) == Some(i) && q.id == id
    ensures RequestIndex(requests[i := q], id) == Some(i)
  {
    assert requests[i := q][i].id == id;
  }

  /** `deleteRequest`: removes every request with this id and reports whether there was one. */
  function DeleteRequest(store: Store, id: string): (r: Step<bool>)
    ensures r.value <==> exists j :: 0 <= j < |store.requests| && store.requests[j].id == id
    ensures !r.value ==> r.store == store
    ensures forall q :: q in r.store.requests <==> q in store.requests && q.id != id
    ensures IsSubsequence(r.store.requests, store.requests)
    ensures forall q :: multiset(r.store.requests)[q] == if q.id != id then multiset(store.requests)[q] else 0
    ensures r.store.users == store.users && r.store.currentUserId == store.currentUserId
  {
    var keep := (q: FoodRequest) => q.id != id;
    var filtered := Filter(store.requests, keep);
    FilterKeepsAllIff(store.requests, keep);
    if |filtered| == |store.requests| then
      FilterAll(store.requests, keep);
      FilterSpec(store.requests, keep);
      Step(false, store)
    else
      FilterSpec(store.requests, keep);
      FilterMultiplicity(store.requests, keep);
      Step(true, store.(requests := filtered))
  }

  // ---------------------------------------------------------------------------
  // Bulk operations
  // ---------------------------------------------------------------------------

  /**
   * `clearAllData`: all three keys removed, so everything reads back empty
   * and no session remains. The seed stamp is not one of them; the key-level
   * view of the same removal is `Seed.ClearAllKeys`.
   */
  function ClearAllData(store: Store): (r: Store)
    ensures |r.users| == 0 && |r.requests| == 0 && GetCurrentUser(r).None?
    ensures r.currentUserId.None?
  {
    EmptyStore
  }

  /** `AppData`: the exported snapshot. */
  datatype AppData = AppData(users: seq<User>, requests: seq<FoodRequest>, currentUserId: Option<string>)

  /** `exportData`. */
  function ExportData(store: Store): (d: AppData)
    ensures d.users == store.users && d.requests == store.requests && d.currentUserId == store.currentUserId
  {
    AppData(store.users, store.requests, store.currentUserId)
  }

  /**
   * `importData`: both collections are replaced; the session pointer only
   * when the snapshot carries a (non-empty) one.
   */
  function ImportData(store: Store, data: AppData): (r: Store)
    ensures r.users == data.users && r.requests == data.requests
    ensures r.currentUserId == if Truthy(data.currentUserId) then data.currentUserId else store.currentUserId
  {
    Store(data.users, data.requests,
          if Truthy(data.currentUserId) then data.currentUserId else store.currentUserId)
  }

  /**
   * Importing an export restores the exported store, onto any store exactly
   * when the export carries a session or the target's session already agrees.
   */
  lemma ImportExportRoundTrip(source: Store, target: Store)
    ensures ImportData(source, ExportData(source)) == source
    ensures ImportData(target, ExportData(source)) == source <==>
              Truthy(source.currentUserId) || target.currentUserId == source.currentUserId
  {
  }
}
