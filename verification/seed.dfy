/**
 * First-load seeding of browser storage. Storage is a map from keys to the
 * stored text; the seed users and requests are given as their stored (JSON)
 * text, since serialisation is not modelled. Reading a key that is absent or
 * holds the empty text counts as "nothing stored", as in the source's
 * truthiness test.
 */
module Seed {

  type KeyValueStore = map<string, string>

  const UsersKey: string := "cfc_users"
  const RequestsKey: string := "cfc_requests"
  const CurrentUserKey: string := "cfc_current_user"
  const SeedVersionKey: string := "cfc_seed_version"

  /** The version stamp written once the seed data is in place. */
  const SeedVersion: string := "1.0.0"

  /** `getItem(key)` followed by a truthiness test. */
  predicate Stored(m: KeyValueStore, key: string)
  {
    key in m && m[key] != ""
  }

  predicate Stamped(m: KeyValueStore)
  {
    SeedVersionKey in m && m[SeedVersionKey] == SeedVersion
  }

  /**
   * `initializeSeedData`: nothing happens when the current version is already
   * stamped; otherwise the users and the requests are each seeded only when
   * nothing is stored for them, and the version is stamped.
   */
  function InitializeSeedData(m: KeyValueStore, seedUsers: string, seedRequests: string): (r: KeyValueStore)
    ensures Stamped(m) ==> r == m
    ensures Stamped(r)
    ensures !Stamped(m) ==>
              && UsersKey in r && r[UsersKey] == (if Stored(m, UsersKey) then m[UsersKey] else seedUsers)
              && RequestsKey in r && r[RequestsKey] == (if Stored(m, RequestsKey) then m[RequestsKey] else seedRequests)
    ensures forall k :: k != UsersKey && k != RequestsKey && k != SeedVersionKey ==>
              (k in r <==> k in m) && (k in m ==> r[k] == m[k])
  {
    if Stamped(m) then m
    else
      var withUsers := if Stored(m, UsersKey) then m else m[UsersKey := seedUsers];
      var withRequests := if Stored(m, RequestsKey) then withUsers else withUsers[RequestsKey := seedRequests];
      withRequests[SeedVersionKey := SeedVersion]
  }

  /** Stored collections are never overwritten, whatever the seed. */
  lemma SeedNeverOverwrites(m: KeyValueStore, seedUsers: string, seedRequests: string)
    ensures var r := InitializeSeedData(m, seedUsers, seedRequests);
            && (Stored(m, UsersKey) ==> r[UsersKey] == m[UsersKey])
            && (Stored(m, RequestsKey) ==> r[RequestsKey] == m[RequestsKey])
  {
  }

  /** A second run changes nothing. */
  lemma InitializeSeedDataIdempotent(m: KeyValueStore, seedUsers: string, seedRequests: string)
    ensures var r := InitializeSeedData(m, seedUsers, seedRequests);
            InitializeSeedData(r, seedUsers, seedRequests) == r
  {
  }

  /**
   * `resetAndReseed`: the three data keys and the stamp are removed, then the
   * store is seeded afresh.
   */
  function ResetAndReseed(m: KeyValueStore, seedUsers: string, seedRequests: string): (r: KeyValueStore)
    ensures UsersKey in r && r[UsersKey] == seedUsers
    ensures RequestsKey in r && r[RequestsKey] == seedRequests
    ensures CurrentUserKey !in r
    ensures Stamped(r)
    ensures forall k :: k !in {UsersKey, RequestsKey, CurrentUserKey, SeedVersionKey} ==>
              (k in r <==> k in m) && (k in m ==> r[k] == m[k])
  {
    var cleared := m - {UsersKey, RequestsKey, CurrentUserKey, SeedVersionKey};
    InitializeSeedData(cleared, seedUsers, seedRequests)
  }

  /**
   * `clearAllData` on the stored keys: the users, the requests and the
   * session pointer are removed; the seed stamp and every other key stay.
   */
  function ClearAllKeys(m: KeyValueStore): (r: KeyValueStore)
    ensures UsersKey !in r && RequestsKey !in r && CurrentUserKey !in r
    ensures forall k :: k != UsersKey && k != RequestsKey && k != CurrentUserKey ==>
              (k in r <==> k in m) && (k in m ==> r[k] == m[k])
  {
    m - {UsersKey, RequestsKey, CurrentUserKey}
  }

  /**
   * Removing the data keys but not the stamp (as `clearAllData` does) leaves
   * nothing to re-seed: a stamped store stays empty of users.
   */
  lemma ClearedStampedStoreStaysEmpty(m: KeyValueStore, seedUsers: string, seedRequests: string)
    requires Stamped(m)
    ensures !Stored(InitializeSeedData(ClearAllKeys(m), seedUsers, seedRequests), UsersKey)
  {
    assert Stamped(ClearAllKeys(m));
  }
}
