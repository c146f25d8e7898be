/**
 * The gamification engine: delivery points and their bonuses, levels and
 * level progress, badges, coupons, the leaderboard and the average rating.
 * The request history the source reads from storage is a parameter, the clock
 * is `now`, and every write goes through `Storage.UpdateUser` and comes back
 * as the store it leaves.
 */
module Gamification {
  import opened Common
  import opened Time
  import opened Types
  import opened Constants
  import Utils
  import Storage

  // ---------------------------------------------------------------------------
  // Points
  // ---------------------------------------------------------------------------

  /** `calculatePoints`: the base points plus each bonus that applies. */
  function CalculatePoints(b: PointBonus): (p: int)
    ensures DeliveryBase <= p <= DeliveryBase + FirstOfDayBonus + OnTimeBonus + FiveStarBonus + WeeklyStreakBonus
    ensures p == DeliveryBase <==> !b.firstOfDay && !b.onTime && !b.fiveStarRating && !b.weeklyStreak
  {
    var p := DeliveryBase;
    var p := if b.firstOfDay then p + FirstOfDayBonus else p;
    var p := if b.onTime then p + OnTimeBonus else p;
    var p := if b.fiveStarRating then p + FiveStarBonus else p;
    if b.weeklyStreak then p + WeeklyStreakBonus else p
  }

  /** Each bonus adds its own amount whatever the others are, so more bonuses never earn less. */
  lemma CalculatePointsAdditive(b: PointBonus, c: PointBonus)
    ensures CalculatePoints(b.(firstOfDay := true)) == CalculatePoints(b.(firstOfDay := false)) + FirstOfDayBonus
    ensures CalculatePoints(b.(onTime := true)) == CalculatePoints(b.(onTime := false)) + OnTimeBonus
    ensures CalculatePoints(b.(fiveStarRating := true)) == CalculatePoints(b.(fiveStarRating := false)) + FiveStarBonus
    ensures CalculatePoints(b.(weeklyStreak := true)) == CalculatePoints(b.(weeklyStreak := false)) + WeeklyStreakBonus
    ensures ((b.firstOfDay ==> c.firstOfDay) && (b.onTime ==> c.onTime) && (b.fiveStarRating ==> c.fiveStarRating)
             && (b.weeklyStreak ==> c.weeklyStreak)) ==> CalculatePoints(b) <= CalculatePoints(c)
  {
  }

  // ---------------------------------------------------------------------------
  // Bonuses
  // ---------------------------------------------------------------------------

  /** A completion by this hero, dated on this calendar day. */
  predicate CompletedByOn(q: FoodRequest, heroId: string, day: int)
  {
    q.heroId == Some(heroId) && q.status == Completed && q.completedAt.Some? && DayOf(q.completedAt.value) == day
  }

  /** A completion by this hero that carries a date. */
  function DatedCompletionBy(heroId: string): FoodRequest -> bool
  {
    (q: FoodRequest) => q.heroId == Some(heroId) && q.status == Completed && q.completedAt.Some?
  }

  function CompletedOnDay(heroId: string, day: int): FoodRequest -> bool
  {
    (q: FoodRequest) => CompletedByOn(q, heroId, day)
  }

  /** `requests.some(r => day of r.completedAt === day)`. */
  function AnyCompletedOn(done: seq<FoodRequest>, day: int): (r: bool)
    ensures r <==> exists j :: 0 <= j < |done| && done[j].completedAt.Some? && DayOf(done[j].completedAt.value) == day
  {
    if |done| == 0 then false
    else
      var here := match done[0].completedAt
                  case Some(t) => DayOf(t) == day
                  case None => false;
      var rest := AnyCompletedOn(done[1..], day);
      assert rest <==> exists j :: 1 <= j < |done| && done[j].completedAt.Some? && DayOf(done[j].completedAt.value) == day by {
        forall j | 1 <= j < |done| ensures done[j] == done[1..][j - 1] { }
      }
      here || rest
  }

  /** The hero has a completion `i` days before the day of `now`. */
  predicate CompletedDaysAgo(history: seq<FoodRequest>, heroId: string, now: Timestamp, i: int)
  {
    exists q :: q in history && CompletedByOn(q, heroId, DayOf(now) - i)
  }

  predicate CoveredDaysAgo(done: seq<FoodRequest>, now: Timestamp, i: int)
  {
    AnyCompletedOn(done, DayOf(now) - i)
  }

  /** `last7Days.every(...)` over the first `n` days counting back from the day of `now`. */
  function LastDaysCovered(done: seq<FoodRequest>, now: Timestamp, n: nat): (r: bool)
    ensures r <==> forall i :: 0 <= i < n ==> CoveredDaysAgo(done, now, i)
  {
    if n == 0 then true else LastDaysCovered(done, now, n - 1) && CoveredDaysAgo(done, now, n - 1)
  }

  /**
   * `checkWeeklyStreak`: on each of the seven days ending today the hero
   * has a dated completion.
   */
  function CheckWeeklyStreak(heroId: string, history: seq<FoodRequest>, now: Timestamp): (r: bool)
    ensures r <==> forall i :: 0 <= i < 7 ==> CompletedDaysAgo(history, heroId, now, i)
  {
    var done := Filter(history, DatedCompletionBy(heroId));
    StreakDays(heroId, history, now);
    LastDaysCovered(done, now, 7)
  }

  lemma StreakDays(heroId: string, history: seq<FoodRequest>, now: Timestamp)
    ensures forall i :: CoveredDaysAgo(Filter(history, DatedCompletionBy(heroId)), now, i) <==> CompletedDaysAgo(history, heroId, now, i)
  {
    forall i ensures CoveredDaysAgo(Filter(history, DatedCompletionBy(heroId)), now, i) <==> CompletedDaysAgo(history, heroId, now, i) {
      StreakDay(heroId, history, now, i);
    }
  }

  /** A day is covered by the hero's dated completions exactly when the hero completed something that day. */
  lemma StreakDay(heroId: string, history: seq<FoodRequest>, now: Timestamp, i: int)
    ensures CoveredDaysAgo(Filter(history, DatedCompletionBy(heroId)), now, i) <==> CompletedDaysAgo(history, heroId, now, i)
  {
    var done := Filter(history, DatedCompletionBy(heroId));
    var day := DayOf(now) - i;
    FilterSpec(history, DatedCompletionBy(heroId));
    if CoveredDaysAgo(done, now, i) {
      var j :| 0 <= j < |done| && done[j].completedAt.Some? && DayOf(done[j].completedAt.value) == day;
      assert done[j] in done;
      assert CompletedByOn(done[j], heroId, day);
    }
    if CompletedDaysAgo(history, heroId, now, i) {
      var q :| q in history && CompletedByOn(q, heroId, day);
      assert q in done;
      var j :| 0 <= j < |done| && done[j] == q;
    }
  }

  /**
   * `determineBonuses` for `hero` and a completed `request`: first of the day
   * when the history holds no completion by the hero dated today; on time when
   * completed no later than the end of the preferred window; five stars when
   * so rated; and the weekly streak.
   */
  function DetermineBonuses(hero: User, request: FoodRequest, history: seq<FoodRequest>, now: Timestamp): (b: PointBonus)
    ensures b.firstOfDay <==> forall q :: q in history ==> !CompletedByOn(q, hero.id, DayOf(now))
    ensures b.onTime <==> request.completedAt.Some? && request.preferredTimeEnd.Some?
                          && request.completedAt.value <= request.preferredTimeEnd.value
    ensures b.fiveStarRating <==> request.rating.Some? && request.rating.value.stars == 5
    ensures b.weeklyStreak <==> forall i :: 0 <= i < 7 ==> CompletedDaysAgo(history, hero.id, now, i)
  {
    var completedToday := Filter(history, CompletedOnDay(hero.id, DayOf(now)));
    FilterSpec(history, CompletedOnDay(hero.id, DayOf(now)));
    CountZeroIff(history, CompletedOnDay(hero.id, DayOf(now)));
    PointBonus(
      |completedToday| == 0,
      request.completedAt.Some? && request.preferredTimeEnd.Some? && request.completedAt.value <= request.preferredTimeEnd.value,
      request.rating.Some? && request.rating.value.stars == 5,
      CheckWeeklyStreak(hero.id, history, now))
  }

  /**
   * In the completion flow the request is stored as completed before its
   * bonuses are determined, so the history always holds it: the first-of-day
   * bonus can never be earned there.
   */
  lemma FirstOfDayNeverAfterCompletion(store: Storage.Store, hero: User, requestId: string, now: Timestamp)
    ensures var s := Storage.CompleteRequest(store, requestId, None, now);
            s.value.Some? && s.value.value.heroId == Some(hero.id) ==>
              !DetermineBonuses(hero, s.value.value, s.store.requests, now).firstOfDay
  {
    var s := Storage.CompleteRequest(store, requestId, None, now);
    if s.value.Some? && s.value.value.heroId == Some(hero.id) {
      var i := Storage.RequestIndex(store.requests, requestId).value;
      assert s.store.requests[i] == s.value.value;
      assert s.value.value in s.store.requests;
      assert CompletedByOn(s.value.value, hero.id, DayOf(now));
    }
  }

  /** A completion by the hero today other than the request being scored. */
  function OtherCompletedOnDay(heroId: string, day: int, requestId: string): FoodRequest -> bool
  {
    (q: FoodRequest) => q.id != requestId && CompletedByOn(q, heroId, day)
  }

  /**
   * `determineBonuses` with the first-of-day test leaving out the request
   * being scored, as the bonus evidently intends; the other bonuses are the
   * same.
   */
  function DetermineBonusesCorrected(hero: User, request: FoodRequest, history: seq<FoodRequest>, now: Timestamp): (b: PointBonus)
    ensures b.firstOfDay <==> forall q :: q in history && q.id != request.id ==> !CompletedByOn(q, hero.id, DayOf(now))
    ensures b.(firstOfDay := false) == DetermineBonuses(hero, request, history, now).(firstOfDay := false)
  {
    var others := Filter(history, OtherCompletedOnDay(hero.id, DayOf(now), request.id));
    FilterSpec(history, OtherCompletedOnDay(hero.id, DayOf(now), request.id));
    CountZeroIff(history, OtherCompletedOnDay(hero.id, DayOf(now), request.id));
    DetermineBonuses(hero, request, history, now).(firstOfDay := |others| == 0)
  }

  /**
   * With the correction, the first delivery a hero completes on a day earns
   * the bonus: it is earned exactly when no other request was already
   * completed by the hero that day.
   */
  lemma FirstOfDayCorrectedAfterCompletion(store: Storage.Store, hero: User, requestId: string, now: Timestamp)
    ensures var s := Storage.CompleteRequest(store, requestId, None, now);
            s.value.Some? ==>
              (DetermineBonusesCorrected(hero, s.value.value, s.store.requests, now).firstOfDay <==>
               forall q :: q in store.requests && q.id != requestId ==> !CompletedByOn(q, hero.id, DayOf(now)))
  {
    var s := Storage.CompleteRequest(store, requestId, None, now);
    if s.value.Some? {
      var i := Storage.RequestIndex(store.requests, requestId).value;
      assert s.value.value.id == requestId;
      forall q: FoodRequest | q.id != requestId ensures q in s.store.requests <==> q in store.requests {
        if q in store.requests {
          var j :| 0 <= j < |store.requests| && store.requests[j] == q;
          assert s.store.requests[j] == q;
        }
        if q in s.store.requests {
          var j :| 0 <= j < |s.store.requests| && s.store.requests[j] == q;
          assert store.requests[j] == q;
        }
      }
    }
  }

  // ---------------------------------------------------------------------------
  // Levels
  // ---------------------------------------------------------------------------

  /** The scan of `calculateLevel` from position `k` of the level order on. */
  function LevelScan(points: int, k: nat): (r: Option<LevelName>)
    requires k <= |LevelOrder|
    ensures r.Some? ==> InLevel(points, LevelOf(r.value)) && k <= LevelIndex(r.value)
    ensures r.Some? ==> forall j :: k <= j < LevelIndex(r.value) ==> !InLevel(points, LevelOf(LevelOrder[j]))
    ensures r.None? ==> forall j :: k <= j < |LevelOrder| ==> !InLevel(points, LevelOf(LevelOrder[j]))
    decreases |LevelOrder| - k
  {
    if k == |LevelOrder| then None
    else if InLevel(points, LevelOf(LevelOrder[k])) then
      assert LevelIndex(LevelOrder[k]) == k by { LevelOrderIncreasing(); }
      Some(LevelOrder[k])
    else LevelScan(points, k + 1)
  }

  /**
   * `calculateLevel`: the first level in order whose range holds the points;
   * `Beginner` when none does (negative totals).
   */
  function CalculateLevel(points: int): (name: LevelName)
    ensures points >= 0 ==> InLevel(points, LevelOf(name))
    ensures points < 0 ==> name == Beginner
  {
    match LevelScan(points, 0)
    case Some(name) => name
    case None =>
      LevelAt(points);
      Beginner
  }

  lemma LevelAt(points: int)
    ensures points < 0 <==> forall j :: 0 <= j < |LevelOrder| ==> !InLevel(points, LevelOf(LevelOrder[j]))
  {
    if points >= 0 {
      LevelsPartitionNaturals(points);
    }
  }

  /** The level found is the only one holding the points, and more points never mean a lower level. */
  lemma CalculateLevelUniqueAndMonotone(points: int, other: int)
    ensures points >= 0 ==> forall n: LevelName :: InLevel(points, LevelOf(n)) <==> n == CalculateLevel(points)
    ensures points <= other ==> LevelIndex(CalculateLevel(points)) <= LevelIndex(CalculateLevel(other))
  {
    if points >= 0 {
      forall n: LevelName ensures InLevel(points, LevelOf(n)) <==> n == CalculateLevel(points) {
        LevelsPartitionNaturals(points);
        var a, b := LevelIndex(n), LevelIndex(CalculateLevel(points));
        assert LevelOrder[a] == n && LevelOrder[b] == CalculateLevel(points);
      }
    }
    if points <= other && points >= 0 {
      LevelOrderIncreasing();
      LevelTableContiguous();
      var a, b := LevelIndex(CalculateLevel(points)), LevelIndex(CalculateLevel(other));
      assert b + 1 < |LevelOrder| ==> other < LevelOf(LevelOrder[b + 1]).minPoints;
    }
  }

  /**
   * `awardPoints`: adds the points, sets the level to the index of the level
   * the new total lies in, leaves every other field of the hero as it was,
   * and stores that record over the hero's.
   */
  function AwardPoints(store: Storage.Store, hero: User, points: int): (r: Storage.Step<User>)
    requires hero.Hero?
    ensures r.value.Hero? && r.value.points == hero.points + points
    ensures r.value == hero.(points := r.value.points, level := r.value.level)
    ensures 0 <= r.value.level < |LevelOrder|
    ensures r.value.points >= 0 ==> InLevel(r.value.points, LevelOf(LevelOrder[r.value.level]))
    ensures r.value.points < 0 ==> r.value.level == 0
    ensures r.store.requests == store.requests && r.store.currentUserId == store.currentUserId
    ensures Storage.UserIndex(store.users, hero.id).None? ==> r.store == store
    ensures Storage.UserIndex(store.users, hero.id).Some? && store.users[Storage.UserIndex(store.users, hero.id).value].Hero? ==>
              r.store.users == store.users[Storage.UserIndex(store.users, hero.id).value := r.value]
  {
    var newPoints := hero.points + points;
    var updated := hero.(points := newPoints, level := LevelIndex(CalculateLevel(newPoints)));
    var s := Storage.UpdateUser(store, hero.id, Storage.WholeHero(updated));
    Storage.Step(updated, s.store)
  }

  /** What `getLevelInfo` returns; a progress that is not a finite number (a zero-width span) is `None`. */
  datatype LevelInfo = LevelInfo(current: Level, next: Option<Level>, pointsToNext: int, progress: Option<int>)

  /**
   * `getLevelInfo`: the level the stored index names (`Beginner` when the
   * index is out of range), the next level if the index has one, the points
   * still missing to it, and the progress through the current span in
   * percent, rounded; 100 at the top.
   */
  function GetLevelInfo(hero: User): (info: LevelInfo)
    requires hero.Hero?
    ensures 0 <= hero.level < |LevelOrder| ==> info.current == LevelOf(LevelOrder[hero.level])
    ensures !(0 <= hero.level < |LevelOrder|) ==> info.current == LevelOf(Beginner)
    ensures 0 <= hero.level + 1 < |LevelOrder| <==> info.next.Some?
    ensures info.next.Some? ==>
              info.next.value == LevelOf(LevelOrder[hero.level + 1])
              && info.pointsToNext == info.next.value.minPoints - hero.points
    ensures info.next.None? ==> info.pointsToNext == 0 && info.progress == Some(100)
    ensures info.next.Some? && info.next.value.minPoints > info.current.minPoints ==>
              var span := info.next.value.minPoints - info.current.minPoints;
              info.progress.Some? &&
              2 * info.progress.value * span - span <= 200 * (hero.points - info.current.minPoints)
                                                    < 2 * info.progress.value * span + span
  {
    var name := if 0 <= hero.level < |LevelOrder| then LevelOrder[hero.level] else Beginner;
    var current := LevelOf(name);
    var nextIndex := hero.level + 1;
    var next := if 0 <= nextIndex < |LevelOrder| then Some(LevelOf(LevelOrder[nextIndex])) else None;
    match next
    case None => LevelInfo(current, None, 0, Some(100))
    case Some(nl) =>
      var span := nl.minPoints - current.minPoints;
      // The level minimums increase, so `span` is never negative: a next level
      // exists only for a stored index up to the last but one, and index -1
      // gives Beginner on both sides. The negative case keeps the source's
      // formula all the same.
      var progress := if span > 0 then Some(RoundRatio(100 * (hero.points - current.minPoints), span))
                      else if span < 0 then Some(RoundRatio(-100 * (hero.points - current.minPoints), -span))
                      else None;
      LevelInfo(current, next, nl.minPoints - hero.points, progress)
  }

  /**
   * A hero whose stored level is the one its points lie in, below the top,
   * sees a progress from 0 to 100 and at least one point still to earn.
   */
  lemma LevelInfoInRange(hero: User)
    requires hero.Hero? && 0 <= hero.level < |LevelOrder| - 1
    requires InLevel(hero.points, LevelOf(LevelOrder[hero.level]))
    ensures var info := GetLevelInfo(hero);
            && info.pointsToNext >= 1
            && info.progress.Some? && 0 <= info.progress.value <= 100
  {
    LevelTableContiguous();
    LevelOrderIncreasing();
    var info := GetLevelInfo(hero);
    var span := info.next.value.minPoints - info.current.minPoints;
    var v := hero.points - info.current.minPoints;
    Utils.PercentWithinRange(info.progress.value, v, span);
  }

  /** A hero at 750 points on the Helper level is halfway, with 250 points to go. */
  lemma LevelInfoExample()
    ensures var hero := Hero("h", "h@x", "", "H", "", "", 0, None, 750, 1, [], [], 0.0, 0);
            GetLevelInfo(hero).pointsToNext == 250 && GetLevelInfo(hero).progress == Some(50)
  {
  }

  // ---------------------------------------------------------------------------
  // Badges
  // ---------------------------------------------------------------------------

  /** The hero's completed requests, dated or not. */
  function CompletedBy(heroId: string): FoodRequest -> bool
  {
    (q: FoodRequest) => q.heroId == Some(heroId) && q.status == Completed
  }

  function IsMorningCompletion(q: FoodRequest): bool
  {
    q.completedAt.Some? && Utils.IsMorning(q.completedAt.value)
  }

  function IsWeekendCompletion(q: FoodRequest): bool
  {
    q.completedAt.Some? && Utils.IsWeekend(q.completedAt.value)
  }

  function IsFamilySize(q: FoodRequest): bool
  {
    q.quantity == Family5Plus || q.quantity == Family2To4
  }

  /** The delivery address mentions the hero's neighbourhood, ignoring case. */
  function InNeighborhood(neighborhood: string): FoodRequest -> bool
  {
    (q: FoodRequest) => Contains(ToLower(q.deliveryAddress), ToLower(neighborhood))
  }

  /** `[id]` when the badge is earned and not yet held, otherwise nothing. */
  function Award(earned: bool, id: string, held: seq<string>): seq<string>
  {
    if earned && id !in held then [id] else []
  }

  /**
   * The new badges exactly as `checkAndAwardBadges` lists them, with its own
   * thresholds, for the hero's completed requests `done`.
   */
  function NewBadges(hero: User, done: seq<FoodRequest>): seq<string>
    requires hero.Hero?
  {
    var total := |done|;
    var morning := Count(done, IsMorningCompletion);
    var weekend := Count(done, IsWeekendCompletion);
    var family := Count(done, IsFamilySize);
    var local := Count(done, InNeighborhood(hero.neighborhood));
    Award(total >= 1, FirstDelivery, hero.badges)
    + (Award(total >= 5, Reliable, hero.badges)
    + (Award(total >= 10, Dedicated, hero.badges)
    + (Award(total >= 25, ChampionBadge, hero.badges)
    + (Award(morning >= 3, EarlyBird, hero.badges)
    + (Award(weekend >= 5, WeekendWarrior, hero.badges)
    + (Award(family >= 5, FullCart, hero.badges)
    + Award(local >= 10, NeighborhoodHero, hero.badges)))))))
  }

  /** The catalog's metric of the hero's completed requests, selected by its `criteria` name. */
  function Metric(criteria: string, neighborhood: string, done: seq<FoodRequest>): int
  {
    if criteria == "deliveries" then |done|
    else if criteria == "morning_deliveries" then Count(done, IsMorningCompletion)
    else if criteria == "weekend_deliveries" then Count(done, IsWeekendCompletion)
    else if criteria == "family_deliveries" then Count(done, IsFamilySize)
    else if criteria == "neighborhood_deliveries" then Count(done, InNeighborhood(neighborhood))
    else 0
  }

  /** The badge is in the catalog, not among `held`, and its metric meets the catalog's requirement. */
  function Qualifies(held: seq<string>, neighborhood: string, done: seq<FoodRequest>): string -> bool
  {
    (id: string) => id in Badges && id !in held && Metric(Badges[id].criteria, neighborhood, done) >= Badges[id].requirement
  }

  /** Each catalog row's criteria and requirement, one badge at a time. */
  lemma QualifiesRow(held: seq<string>, neighborhood: string, done: seq<FoodRequest>, i: nat)
    requires i < |BadgeOrder|
    ensures Qualifies(held, neighborhood, done)(BadgeOrder[i]) <==>
              BadgeOrder[i] !in held &&
              (if i < 4 then |done| >= [1, 5, 10, 25][i]
               else if i == 4 then Count(done, IsMorningCompletion) >= 3
               else if i == 5 then Count(done, IsWeekendCompletion) >= 5
               else if i == 6 then Count(done, IsFamilySize) >= 5
               else Count(done, InNeighborhood(neighborhood)) >= 10)
  {
    CatalogRow(i);
    var c := Badges[BadgeOrder[i]].criteria;
    if i < 4 {
      assert c == "deliveries";
    } else if i == 4 {
      assert c == "morning_deliveries";
    } else if i == 5 {
      assert c == "weekend_deliveries";
    } else if i == 6 {
      assert c == "family_deliveries";
    } else {
      assert c == "neighborhood_deliveries";
    }
  }

  /** The criteria and requirement stored for the `i`-th badge of the catalog. */
  lemma CatalogRow(i: nat)
    requires i < |BadgeOrder|
    ensures BadgeOrder[i] in Badges
    ensures Badges[BadgeOrder[i]].criteria ==
            ["deliveries", "deliveries", "deliveries", "deliveries", "morning_deliveries",
             "weekend_deliveries", "family_deliveries", "neighborhood_deliveries"][i]
    ensures Badges[BadgeOrder[i]].requirement == [1, 5, 10, 25, 3, 5, 5, 10][i]
  {
    if i == 0 {
      assert BadgeOrder[i] == FirstDelivery;
    } else if i == 1 {
      assert BadgeOrder[i] == Reliable;
    } else if i == 2 {
      assert BadgeOrder[i] == Dedicated;
    } else if i == 3 {
      assert BadgeOrder[i] == ChampionBadge;
    } else if i == 4 {
      assert BadgeOrder[i] == EarlyBird;
    } else if i == 5 {
      assert BadgeOrder[i] == WeekendWarrior;
    } else if i == 6 {
      assert BadgeOrder[i] == FullCart;
    } else {
      assert BadgeOrder[i] == NeighborhoodHero;
    }
  }

  /**
   * The hard-coded checks agree with the catalog: each threshold is the
   * badge's requirement and each metric the one its criteria names, so the
   * new badges are the catalog's qualifying badges in catalog order.
   */
  lemma NewBadgesFollowCatalog(hero: User, done: seq<FoodRequest>)
    requires hero.Hero?
    ensures NewBadges(hero, done) == Filter(BadgeOrder, Qualifies(hero.badges, hero.neighborhood, done))
  {
    var q := Qualifies(hero.badges, hero.neighborhood, done);
    var b := BadgeOrder;
    var held := hero.badges;
    var nb := hero.neighborhood;
    FilterEight(b, q);
    DeliveryRows(held, nb, done);
    CategoryRows(held, nb, done);
  }

  /** The four delivery-count rows of the catalog, kept exactly as awarded. */
  lemma DeliveryRows(held: seq<string>, neighborhood: string, done: seq<FoodRequest>)
    ensures var q := Qualifies(held, neighborhood, done);
            && Keep(q, BadgeOrder[0]) == Award(|done| >= 1, FirstDelivery, held)
            && Keep(q, BadgeOrder[1]) == Award(|done| >= 5, Reliable, held)
            && Keep(q, BadgeOrder[2]) == Award(|done| >= 10, Dedicated, held)
            && Keep(q, BadgeOrder[3]) == Award(|done| >= 25, ChampionBadge, held)
  {
    RowAward(held, neighborhood, done, 0, |done| >= 1);
    RowAward(held, neighborhood, done, 1, |done| >= 5);
    RowAward(held, neighborhood, done, 2, |done| >= 10);
    RowAward(held, neighborhood, done, 3, |done| >= 25);
  }

  /** The four category rows of the catalog, kept exactly as awarded. */
  lemma CategoryRows(held: seq<string>, neighborhood: string, done: seq<FoodRequest>)
    ensures var q := Qualifies(held, neighborhood, done);
            && Keep(q, BadgeOrder[4]) == Award(Count(done, IsMorningCompletion) >= 3, EarlyBird, held)
            && Keep(q, BadgeOrder[5]) == Award(Count(done, IsWeekendCompletion) >= 5, WeekendWarrior, held)
            && Keep(q, BadgeOrder[6]) == Award(Count(done, IsFamilySize) >= 5, FullCart, held)
            && Keep(q, BadgeOrder[7]) == Award(Count(done, InNeighborhood(neighborhood)) >= 10, NeighborhoodHero, held)
  {
    RowAward(held, neighborhood, done, 4, Count(done, IsMorningCompletion) >= 3);
    RowAward(held, neighborhood, done, 5, Count(done, IsWeekendCompletion) >= 5);
    RowAward(held, neighborhood, done, 6, Count(done, IsFamilySize) >= 5);
    RowAward(held, neighborhood, done, 7, Count(done, InNeighborhood(neighborhood)) >= 10);
  }

  /** One catalog row: keeping the badge when it qualifies is awarding it on the row's own condition. */
  lemma RowAward(held: seq<string>, neighborhood: string, done: seq<FoodRequest>, i: nat, earned: bool)
    requires i < |BadgeOrder|
    requires earned == (if i < 4 then |done| >= [1, 5, 10, 25][i]
                        else if i == 4 then Count(done, IsMorningCompletion) >= 3
                        else if i == 5 then Count(done, IsWeekendCompletion) >= 5
                        else if i == 6 then Count(done, IsFamilySize) >= 5
                        else Count(done, InNeighborhood(neighborhood)) >= 10)
    ensures Keep(Qualifies(held, neighborhood, done), BadgeOrder[i]) == Award(earned, BadgeOrder[i], held)
  {
    QualifiesRow(held, neighborhood, done, i);
  }

  /** `[x]` when `q` keeps it, otherwise nothing. */
  function Keep<T>(q: T -> bool, x: T): seq<T>
  {
    if q(x) then [x] else []
  }

  /** A filter over eight elements, spelt out. */
  lemma FilterEight<T(!new)>(b: seq<T>, q: T -> bool)
    requires |b| == 8
    ensures Filter(b, q) ==
              Keep(q, b[0]) + (Keep(q, b[1]) + (Keep(q, b[2]) + (Keep(q, b[3]) +
              (Keep(q, b[4]) + (Keep(q, b[5]) + (Keep(q, b[6]) + Keep(q, b[7])))))))
  {
    var f7 := Filter(b[7..], q);
    assert f7 == Keep(q, b[7]) by {
      assert b[7..] == [b[7]] + [];
      FilterCons(b[7], [], q);
    }
    FilterStep(b, 6, q);
    FilterStep(b, 5, q);
    FilterStep(b, 4, q);
    FilterStep(b, 3, q);
    FilterStep(b, 2, q);
    FilterStep(b, 1, q);
    FilterStep(b, 0, q);
    assert b[0..] == b;
  }

  lemma FilterStep<T(!new)>(b: seq<T>, i: nat, q: T -> bool)
    requires i < |b|
    ensures Filter(b[i..], q) == Keep(q, b[i]) + Filter(b[i + 1..], q)
  {
    assert b[i..] == [b[i]] + b[i + 1..];
    FilterCons(b[i], b[i + 1..], q);
  }

  /**
   * `checkAndAwardBadges`: the badges newly earned, in catalog order, none
   * already held and none twice; when there are any, the hero's badge list
   * followed by them is written to the store, otherwise nothing is.
   */
  function CheckAndAwardBadges(store: Storage.Store, hero: User, history: seq<FoodRequest>): (r: Storage.Step<seq<string>>)
    requires hero.Hero?
    ensures r.value == Filter(BadgeOrder, Qualifies(hero.badges, hero.neighborhood, Filter(history, CompletedBy(hero.id))))
    ensures forall id :: id in r.value <==> Qualifies(hero.badges, hero.neighborhood, Filter(history, CompletedBy(hero.id)))(id)
    ensures Distinct(r.value)
    ensures IsSubsequence(r.value, BadgeOrder)
    ensures |r.value| == 0 ==> r.store == store
    ensures |r.value| > 0 ==>
              r.store == Storage.UpdateUser(store, hero.id, Storage.NoUserChange.(badges := Some(hero.badges + r.value))).store
  {
    var done := Filter(history, CompletedBy(hero.id));
    var earned := NewBadges(hero, done);
    NewBadgesFollowCatalog(hero, done);
    FilterSpec(BadgeOrder, Qualifies(hero.badges, hero.neighborhood, done));
    BadgeCatalogKeyedById();
    SubsequenceOfDistinct(earned, BadgeOrder);
    if |earned| > 0 then
      Storage.Step(earned, Storage.UpdateUser(store, hero.id, Storage.NoUserChange.(badges := Some(hero.badges + earned))).store)
    else Storage.Step(earned, store)
  }

  /** A subsequence of a sequence without repeats has none either. */
  lemma {:induction false} SubsequenceOfDistinct<T(!new)>(sub: seq<T>, xs: seq<T>)
    requires IsSubsequence(sub, xs) && Distinct(xs)
    ensures Distinct(sub)
  {
    if |sub| > 0 && |xs| > 0 {
      assert Distinct(xs[1..]) by {
        forall i, j | 0 <= i < j < |xs[1..]| ensures xs[1..][i] != xs[1..][j] {
          assert xs[1..][i] == xs[i + 1] && xs[1..][j] == xs[j + 1];
        }
      }
      if sub[0] == xs[0] {
        SubsequenceOfDistinct(sub[1..], xs[1..]);
        SubsequenceMembers(sub[1..], xs[1..]);
        forall j | 0 < j < |sub| ensures sub[0] != sub[j] {
          assert sub[1..][j - 1] == sub[j];
          assert sub[j] in xs[1..];
          var k :| 0 <= k < |xs[1..]| && xs[1..][k] == sub[j];
          assert xs[k + 1] == sub[j];
        }
      } else {
        SubsequenceOfDistinct(sub, xs[1..]);
      }
    }
  }

  /** Every element of a subsequence occurs in the sequence. */
  lemma {:induction false} SubsequenceMembers<T(!new)>(sub: seq<T>, xs: seq<T>)
    requires IsSubsequence(sub, xs)
    ensures forall x :: x in sub ==> x in xs
  {
    if |sub| > 0 && |xs| > 0 {
      if sub[0] == xs[0] {
        SubsequenceMembers(sub[1..], xs[1..]);
        forall x | x in sub ensures x in xs {
          if x != sub[0] {
            var k :| 0 <= k < |sub| && sub[k] == x;
            assert sub[1..][k - 1] == x;
            assert x in xs[1..];
          }
        }
      } else {
        SubsequenceMembers(sub, xs[1..]);
      }
    }
  }

  /**
   * Awarding is idempotent: called again for the hero with the new badges
   * added and the same history, it finds nothing new.
   */
  lemma CheckAndAwardBadgesIdempotent(store: Storage.Store, hero: User, history: seq<FoodRequest>)
    requires hero.Hero?
    ensures var r := CheckAndAwardBadges(store, hero, history);
            var again := hero.(badges := hero.badges + r.value);
            CheckAndAwardBadges(r.store, again, history).value == []
  {
    var r := CheckAndAwardBadges(store, hero, history);
    var again := hero.(badges := hero.badges + r.value);
    var r2 := CheckAndAwardBadges(r.store, again, history);
    var done := Filter(history, CompletedBy(hero.id));
    NothingLeftToQualify(hero.badges, r.value, hero.neighborhood, done);
    assert Filter(history, CompletedBy(again.id)) == done;
    CountZeroIff(BadgeOrder, Qualifies(again.badges, hero.neighborhood, done));
  }

  /** Once the qualifying badges are held too, none qualifies any more. */
  lemma NothingLeftToQualify(held: seq<string>, earned: seq<string>, neighborhood: string, done: seq<FoodRequest>)
    requires forall id :: id in earned <==> Qualifies(held, neighborhood, done)(id)
    ensures forall id :: !Qualifies(held + earned, neighborhood, done)(id)
  {
    forall id ensures !Qualifies(held + earned, neighborhood, done)(id) {
      if Qualifies(held, neighborhood, done)(id) {
        assert id in held + earned;
      }
    }
  }

  // ---------------------------------------------------------------------------
  // Coupons
  // ---------------------------------------------------------------------------

  function Affordable(points: int): Coupon -> bool
  {
    (c: Coupon) => points >= c.pointsRequired
  }

  /**
   * `getAvailableCoupons`: the tiers the hero's points cover; since the tiers
   * are sorted by cost these are always the cheapest ones, a prefix of the
   * catalog.
   */
  function GetAvailableCoupons(hero: User): (r: seq<Coupon>)
    requires hero.Hero?
    ensures forall c :: c in r <==> c in CouponTiers && hero.points >= c.pointsRequired
    ensures r <= CouponTiers
  {
    FilterSpec(CouponTiers, Affordable(hero.points));
    AffordablePrefix(hero.points);
    Filter(CouponTiers, Affordable(hero.points))
  }

  lemma AffordablePrefix(points: int)
    ensures Filter(CouponTiers, Affordable(points)) <= CouponTiers
  {
    CouponTiersOrdered();
    AffordablePrefixOf(CouponTiers, points);
  }

  /**
   * In any list ordered by cost, the affordable entries are its cheapest
   * ones: once one is too dear, so is every later one.
   */
  lemma {:induction false} AffordablePrefixOf(t: seq<Coupon>, points: int)
    requires forall i, j :: 0 <= i < j < |t| ==> t[i].pointsRequired <= t[j].pointsRequired
    ensures Filter(t, Affordable(points)) <= t
  {
    if |t| > 0 {
      var p := Affordable(points);
      var tail := t[1..];
      assert t == [t[0]] + tail;
      FilterCons(t[0], tail, p);
      if p(t[0]) {
        AffordablePrefixOf(tail, points);
      } else {
        forall i | 0 <= i < |tail| ensures !p(tail[i]) {
          assert tail[i] == t[i + 1];
        }
        CountZeroIff(tail, p);
      }
    }
  }

  /** Days a claimed coupon stays valid. */
  const CouponValidityDays: int := 90

  /** The text a coupon's code encodes: "CFC-", the coupon id in capitals, "-", the first eight characters of the hero id. */
  function QrPayload(couponId: string, heroId: string): string
  {
    "CFC-" + ToUpper(couponId) + "-" + Take(heroId, 8)
  }

  /** The claimed form of a tier: its code, the claim date and an expiry 90 days later. */
  function Claimed(tier: Coupon, heroId: string, now: Timestamp): Coupon
  {
    tier.(qrCode := Some(Utils.GenerateQrCode(QrPayload(tier.id, heroId))),
          claimedAt := Some(now),
          expiresAt := Some(now + CouponValidityDays * MsPerDay))
  }

  /** The points and claimed-coupon list a claim of `tier` writes. */
  function ClaimPatch(hero: User, tier: Coupon): Storage.UserPatch
    requires hero.Hero?
  {
    Storage.NoUserChange.(points := Some(hero.points - tier.pointsRequired),
                          claimedCoupons := Some(hero.claimedCoupons + [tier.id]))
  }

  /**
   * `claimCoupon`: fails with "Coupon not found", then "Insufficient points",
   * then "Coupon already claimed", in that order and writing nothing; on
   * success the coupon carries its code, the claim date and an expiry 90 days
   * later, and the hero's stored points drop by its cost and its id is added
   * to the claimed list. The level is not recomputed.
   */
  function ClaimCoupon(store: Storage.Store, hero: User, couponId: string, now: Timestamp): (r: Storage.Outcome<Coupon>)
    requires hero.Hero?
    ensures (forall i :: 0 <= i < |CouponTiers| ==> CouponTiers[i].id != couponId) ==>
              r == Storage.Thrown("Coupon not found")
    ensures forall i :: 0 <= i < |CouponTiers| && CouponTiers[i].id == couponId ==>
              var tier := CouponTiers[i];
              && (hero.points < tier.pointsRequired ==> r == Storage.Thrown("Insufficient points"))
              && (hero.points >= tier.pointsRequired && couponId in hero.claimedCoupons ==>
                    r == Storage.Thrown("Coupon already claimed"))
              && (hero.points >= tier.pointsRequired && couponId !in hero.claimedCoupons ==>
                    r == Storage.Done(Claimed(tier, hero.id, now), Storage.UpdateUser(store, hero.id, ClaimPatch(hero, tier)).store))
  {
    CouponTiersOrdered();
    match FindIndex(CouponTiers, (c: Coupon) => c.id == couponId)
    case None => Storage.Thrown("Coupon not found")
    case Some(i) =>
      var tier := CouponTiers[i];
      if hero.points < tier.pointsRequired then Storage.Thrown("Insufficient points")
      else if couponId in hero.claimedCoupons then Storage.Thrown("Coupon already claimed")
      else Storage.Done(Claimed(tier, hero.id, now), Storage.UpdateUser(store, hero.id, ClaimPatch(hero, tier)).store)
  }

  /**
   * A successful claim never takes a stored hero's points below zero, and
   * leaves its level as it was, even when the points have fallen below the
   * level's minimum.
   */
  lemma ClaimCouponKeepsPointsNonNegative(store: Storage.Store, hero: User, couponId: string, now: Timestamp)
    requires hero.Hero?
    requires Storage.UserIndex(store.users, hero.id).Some?
    requires store.users[Storage.UserIndex(store.users, hero.id).value] == hero
    ensures var r := ClaimCoupon(store, hero, couponId, now);
            var i := Storage.UserIndex(store.users, hero.id).value;
            r.Done? ==>
              && r.store.users[i].Hero?
              && r.store.users[i].points == hero.points - r.value.pointsRequired >= 0
              && r.store.users[i].level == hero.level
              && r.store.users[i].claimedCoupons == hero.claimedCoupons + [couponId]
  {
  }

  /**
   * Because the level is kept, a claim can leave the progress shown to the
   * hero negative: 1000 points on the Hero level, spent on the 1000-point
   * coupon, show -67 percent.
   */
  lemma ClaimCanLeaveProgressNegative()
    ensures var hero := Hero("h", "h@x", "", "H", "", "", 0, None, 1000, 2, [], [], 0.0, 0);
            var store := Storage.Store([hero], [], None);
            var r := ClaimCoupon(store, hero, "grocery_10", 0);
            r.Done? && GetLevelInfo(r.store.users[0]).progress == Some(-67)
  {
    var hero := Hero("h", "h@x", "", "H", "", "", 0, None, 1000, 2, [], [], 0.0, 0);
    var store := Storage.Store([hero], [], None);
    var tier := CouponTiers[1];
    assert tier.id == "grocery_10" && tier.pointsRequired == 1000;
    var r := ClaimCoupon(store, hero, "grocery_10", 0);
    var patch := ClaimPatch(hero, tier);
    assert r == Storage.Done(Claimed(tier, hero.id, 0), Storage.UpdateUser(store, hero.id, patch).store);
    assert Storage.UserIndex(store.users, hero.id) == Some(0);
    var spent := Storage.ApplyUserPatch(hero, patch);
    assert r.store.users[0] == spent;
    assert spent.points == 0 && spent.level == 2;
    EmptiedHeroProgress(spent);
  }

  /** A hero on the Hero level with no points left is shown -67 percent. */
  lemma EmptiedHeroProgress(h: User)
    requires h.Hero? && h.level == 2 && h.points == 0
    ensures GetLevelInfo(h).progress == Some(-67)
  {
    var info := GetLevelInfo(h);
    assert info.current == LevelOf(HeroRank) && info.next == Some(LevelOf(SuperHero));
    var pr := info.progress.value;
    assert 2 * pr * 1500 - 1500 <= 200 * (0 - 1000) < 2 * pr * 1500 + 1500;
  }

  // ---------------------------------------------------------------------------
  // Leaderboard
  // ---------------------------------------------------------------------------

  datatype SortKey = ByPoints | ByDeliveries | ByRating

  /** The value a leaderboard orders by; a requester has none and counts as 0. */
  function Key(u: User, key: SortKey): real
  {
    if !u.Hero? then 0.0
    else match key
         case ByPoints => u.points as real
         case ByDeliveries => u.totalDeliveries as real
         case ByRating => u.averageRating
  }

  function KeyIs(key: SortKey, k: real): User -> bool
  {
    (u: User) => Key(u, key) == k
  }

  predicate SortedDescending(xs: seq<User>, key: SortKey)
  {
    forall i, j :: 0 <= i < j < |xs| ==> Key(xs[i], key) >= Key(xs[j], key)
  }

  /** Places `x` after every element whose key is at least its own. */
  function Insert(x: User, s: seq<User>, key: SortKey): (r: seq<User>)
    requires SortedDescending(s, key)
    ensures SortedDescending(r, key)
    ensures multiset(r) == multiset(s) + multiset{x}
    ensures |r| == |s| + 1
  {
    if |s| == 0 then [x]
    else if Key(s[0], key) >= Key(x, key) then
      var rest := Insert(x, s[1..], key);
      assert s == [s[0]] + s[1..];
      HeadDominates(s[0], s[1..], x, rest, key);
      [s[0]] + rest
    else [x] + s
  }

  /** A head at least as large as the rest and the inserted element stays ahead of all of them. */
  lemma HeadDominates(h: User, tail: seq<User>, x: User, rest: seq<User>, key: SortKey)
    requires forall j :: 0 <= j < |tail| ==> Key(h, key) >= Key(tail[j], key)
    requires Key(h, key) >= Key(x, key)
    requires multiset(rest) == multiset(tail) + multiset{x}
    ensures forall j :: 0 <= j < |rest| ==> Key(h, key) >= Key(rest[j], key)
  {
    forall j | 0 <= j < |rest| ensures Key(h, key) >= Key(rest[j], key) {
      assert rest[j] in multiset(rest);
      if rest[j] != x {
        assert rest[j] in multiset(tail);
        var k :| 0 <= k < |tail| && tail[k] == rest[j];
      }
    }
  }

  /** `[...heroes].sort(...)`: a stable sort by decreasing key (insertion sort, element by element). */
  function SortByKey(xs: seq<User>, key: SortKey): (r: seq<User>)
    ensures SortedDescending(r, key)
    ensures multiset(r) == multiset(xs)
    ensures |r| == |xs|
  {
    if |xs| == 0 then []
    else
      assert xs == xs[..|xs| - 1] + [xs[|xs| - 1]];
      Insert(xs[|xs| - 1], SortByKey(xs[..|xs| - 1], key), key)
  }

  /** Inserting keeps, among the elements of any one key, the inserted element last. */
  lemma {:induction false} InsertStable(x: User, s: seq<User>, key: SortKey, k: real)
    requires SortedDescending(s, key)
    ensures Filter(Insert(x, s, key), KeyIs(key, k)) == Filter(s, KeyIs(key, k)) + Filter([x], KeyIs(key, k))
    decreases |s|, 1
  {
    var p := KeyIs(key, k);
    FilterCons(x, [], p);
    if |s| == 0 {
      assert Insert(x, s, key) == [x];
      assert Filter(s, p) == [];
    } else if Key(s[0], key) >= Key(x, key) {
      InsertStableBehind(x, s, key, k);
    } else {
      InsertStableAhead(x, s, key, k);
    }
  }

  /** Inserting behind the head: the head's contribution comes first on both sides. */
  lemma {:induction false} InsertStableBehind(x: User, s: seq<User>, key: SortKey, k: real)
    requires SortedDescending(s, key)
    requires |s| > 0 && Key(s[0], key) >= Key(x, key)
    ensures Filter(Insert(x, s, key), KeyIs(key, k)) == Filter(s, KeyIs(key, k)) + Filter([x], KeyIs(key, k))
    decreases |s|, 0
  {
    var p := KeyIs(key, k);
    var tail := s[1..];
    assert SortedDescending(tail, key) by {
      forall i, j | 0 <= i < j < |tail| ensures Key(tail[i], key) >= Key(tail[j], key) {
        assert tail[i] == s[i + 1] && tail[j] == s[j + 1];
      }
    }
    var rest := Insert(x, tail, key);
    assert Insert(x, s, key) == [s[0]] + rest;
    InsertStable(x, tail, key, k);
    FilterFrontShift(s[0], rest, tail, Filter([x], p), p);
    assert s == [s[0]] + tail;
  }

  /** Inserting in front: every element behind has a smaller key, so none shares the inserted one's. */
  lemma InsertStableAhead(x: User, s: seq<User>, key: SortKey, k: real)
    requires SortedDescending(s, key)
    requires |s| > 0 && Key(s[0], key) < Key(x, key)
    ensures Filter(Insert(x, s, key), KeyIs(key, k)) == Filter(s, KeyIs(key, k)) + Filter([x], KeyIs(key, k))
  {
    var p := KeyIs(key, k);
    FilterCons(x, [], p);
    assert Insert(x, s, key) == [x] + s;
    FilterCons(x, s, p);
    if Key(x, key) == k {
      assert forall i :: 0 <= i < |s| ==> !p(s[i]) by {
        forall i | 0 <= i < |s| ensures !p(s[i]) {
          assert Key(s[0], key) >= Key(s[i], key);
        }
      }
      CountZeroIff(s, p);
      assert Filter(s, p) == [];
      assert Filter([x] + s, p) == [x] + [];
    } else {
      assert Filter([x] + s, p) == [] + Filter(s, p);
    }
  }

  /** The sort is stable: the heroes of any one key keep their input order. */
  lemma {:induction false} SortByKeyStable(xs: seq<User>, key: SortKey, k: real)
    ensures Filter(SortByKey(xs, key), KeyIs(key, k)) == Filter(xs, KeyIs(key, k))
  {
    if |xs| > 0 {
      var init, last := xs[..|xs| - 1], xs[|xs| - 1];
      var p := KeyIs(key, k);
      var sortedInit := SortByKey(init, key);
      calc {
        Filter(SortByKey(xs, key), p);
        Filter(Insert(last, sortedInit, key), p);
        { InsertStable(last, sortedInit, key, k); }
        Filter(sortedInit, p) + Filter([last], p);
        { SortByKeyStable(init, key, k); }
        Filter(init, p) + Filter([last], p);
        { FilterConcat(init, [last], p); assert xs == init + [last]; }
        Filter(xs, p);
      }
    }
  }

  datatype LeaderboardEntry = LeaderboardEntry(
    userId: string,
    name: string,
    points: int,
    totalDeliveries: int,
    averageRating: real,
    rank: int)

  function IsHero(u: User): bool
  {
    u.Hero?
  }

  function Entries(sorted: seq<User>, offset: nat): (r: seq<LeaderboardEntry>)
    requires forall i :: 0 <= i < |sorted| ==> sorted[i].Hero?
    ensures |r| == |sorted|
    ensures forall i :: 0 <= i < |r| ==>
              && r[i].rank == offset + i + 1 && r[i].userId == sorted[i].id && r[i].name == sorted[i].name
              && r[i].points == sorted[i].points && r[i].totalDeliveries == sorted[i].totalDeliveries
              && r[i].averageRating == sorted[i].averageRating
  {
    if |sorted| == 0 then []
    else
      var h := sorted[0];
      [LeaderboardEntry(h.id, h.name, h.points, h.totalDeliveries, h.averageRating, offset + 1)]
      + Entries(sorted[1..], offset + 1)
  }

  /** The heroes among `users`, best first: a permutation of them sorted by the key. */
  function Leaders(users: seq<User>, key: SortKey): (s: seq<User>)
    ensures SortedDescending(s, key)
    ensures multiset(s) == multiset(Filter(users, IsHero))
    ensures |s| == Count(users, IsHero)
    ensures forall i :: 0 <= i < |s| ==> s[i].Hero?
  {
    var heroes := Filter(users, IsHero);
    var sorted := SortByKey(heroes, key);
    OnlyHeroes(heroes, sorted);
    sorted
  }

  /** A rearrangement of heroes holds heroes only. */
  lemma OnlyHeroes(heroes: seq<User>, sorted: seq<User>)
    requires forall i :: 0 <= i < |heroes| ==> IsHero(heroes[i])
    requires multiset(sorted) == multiset(heroes)
    ensures forall i :: 0 <= i < |sorted| ==> sorted[i].Hero?
  {
    forall i | 0 <= i < |sorted| ensures sorted[i].Hero? {
      assert sorted[i] in multiset(heroes);
      var k :| 0 <= k < |heroes| && heroes[k] == sorted[i];
    }
  }

  /** The entry's value under the key, as the sort compared it. */
  function EntryKey(e: LeaderboardEntry, key: SortKey): real
  {
    match key
    case ByPoints => e.points as real
    case ByDeliveries => e.totalDeliveries as real
    case ByRating => e.averageRating
  }

  /**
   * `getLeaderboard`: the heroes among `users`, ordered by decreasing key with
   * ties in input order, ranked 1, 2, 3, ... by position.
   */
  function GetLeaderboard(users: seq<User>, key: SortKey): (r: seq<LeaderboardEntry>)
    ensures |r| == Count(users, IsHero)
    ensures forall i :: 0 <= i < |r| ==> r[i].rank == i + 1 && r[i].userId == Leaders(users, key)[i].id
    ensures forall i :: 0 <= i < |r| ==>
              && r[i].name == Leaders(users, key)[i].name && r[i].points == Leaders(users, key)[i].points
              && r[i].totalDeliveries == Leaders(users, key)[i].totalDeliveries
              && r[i].averageRating == Leaders(users, key)[i].averageRating
    ensures forall i, j :: 0 <= i < j < |r| ==> EntryKey(r[i], key) >= EntryKey(r[j], key)
  {
    var s := Leaders(users, key);
    var r := Entries(s, 0);
    assert forall i :: 0 <= i < |r| ==> EntryKey(r[i], key) == Key(s[i], key);
    r
  }

  // ---------------------------------------------------------------------------
  // Ratings
  // ---------------------------------------------------------------------------

  function RatedCompletionBy(heroId: string): FoodRequest -> bool
  {
    (q: FoodRequest) => q.heroId == Some(heroId) && q.status == Completed && q.rating.Some?
  }

  /** The sum of the stars of rated requests. */
  function SumStars(rated: seq<FoodRequest>): int
  {
    if |rated| == 0 then 0
    else (match rated[0].rating case Some(rt) => rt.stars case None => 0) + SumStars(rated[1..])
  }

  /** Every rating of the sequence gives 1 to 5 stars. */
  predicate StarsInRange(rated: seq<FoodRequest>)
  {
    forall i :: 0 <= i < |rated| ==> rated[i].rating.Some? && 1 <= rated[i].rating.value.stars <= 5
  }

  lemma {:induction false} SumStarsBounds(rated: seq<FoodRequest>)
    requires StarsInRange(rated)
    ensures |rated| <= SumStars(rated) <= 5 * |rated|
  {
    if |rated| > 0 {
      SumStarsBounds(rated[1..]);
    }
  }

  /** `Math.round(x * 10) / 10`: one decimal, halves up. */
  function RoundToTenth(x: real): (r: real)
    ensures -0.05 < r - x <= 0.05
  {
    var k := RoundReal(x * 10.0);
    assert (k as real) / 10.0 * 10.0 == k as real;
    (k as real) / 10.0
  }

  /** The mean of `n` values summing to `total`. */
  function Average(total: int, n: int): (a: real)
    requires n > 0
    ensures a * n as real == total as real
  {
    var a := total as real / n as real;
    DivideThenMultiply(total as real, n as real);
    a
  }

  lemma DivideThenMultiply(x: real, y: real)
    requires y != 0.0
    ensures x / y * y == x
  {
  }

  /** A mean of values between `lo` and `hi` lies between them too. */
  lemma AverageBetween(total: int, n: int, lo: int, hi: int)
    requires n > 0 && lo * n <= total <= hi * n
    ensures lo as real <= Average(total, n) <= hi as real
  {
    var a := Average(total, n);
    var m := n as real;
    IntProductAsReal(lo, n);
    IntProductAsReal(hi, n);
    CancelPositive(lo as real, a, m);
    CancelPositive(a, hi as real, m);
  }

  lemma IntProductAsReal(x: int, n: int)
    ensures (x * n) as real == x as real * n as real
  {
  }

  /** Multiplying by a positive number keeps the order, so it can be cancelled. */
  lemma CancelPositive(x: real, y: real, m: real)
    requires m > 0.0 && x * m <= y * m
    ensures x <= y
  {
    assert (y - x) * m >= 0.0;
  }

  /**
   * `updateHeroRating`: with no rated completion the hero is returned as it
   * is and nothing is written; otherwise the mean of the stars, rounded to
   * one decimal, and the number of rated completions are written, while the
   * returned hero carries the unrounded mean.
   */
  function UpdateHeroRating(store: Storage.Store, hero: User, history: seq<FoodRequest>): (r: Storage.Step<User>)
    requires hero.Hero?
    ensures Count(history, RatedCompletionBy(hero.id)) == 0 ==> r == Storage.Step(hero, store)
    ensures Count(history, RatedCompletionBy(hero.id)) > 0 ==>
              var n := Count(history, RatedCompletionBy(hero.id));
              var mean := Average(SumStars(Filter(history, RatedCompletionBy(hero.id))), n);
              && r.value == hero.(averageRating := mean, totalDeliveries := n)
              && r.store == Storage.UpdateUser(store, hero.id, RatingPatch(mean, n)).store
  {
    var rated := Filter(history, RatedCompletionBy(hero.id));
    if |rated| == 0 then Storage.Step(hero, store)
    else
      var mean := Average(SumStars(rated), |rated|);
      Storage.Step(hero.(averageRating := mean, totalDeliveries := |rated|),
                   Storage.UpdateUser(store, hero.id, RatingPatch(mean, |rated|)).store)
  }

  /** The stored fields: the mean rounded to one decimal, and the count. */
  function RatingPatch(mean: real, n: int): Storage.UserPatch
  {
    Storage.NoUserChange.(averageRating := Some(RoundToTenth(mean)), totalDeliveries := Some(n))
  }

  /** When every rating gives 1 to 5 stars, so does the mean, returned or stored. */
  lemma AverageRatingInRange(store: Storage.Store, hero: User, history: seq<FoodRequest>)
    requires hero.Hero?
    requires forall q :: q in history && q.rating.Some? ==> 1 <= q.rating.value.stars <= 5
    requires Count(history, RatedCompletionBy(hero.id)) > 0
    ensures var r := UpdateHeroRating(store, hero, history);
            && 1.0 <= r.value.averageRating <= 5.0
            && 1.0 <= RoundToTenth(r.value.averageRating) <= 5.0
  {
    var rated := Filter(history, RatedCompletionBy(hero.id));
    FilterSpec(history, RatedCompletionBy(hero.id));
    assert StarsInRange(rated) by {
      forall i | 0 <= i < |rated| ensures rated[i].rating.Some? && 1 <= rated[i].rating.value.stars <= 5 {
        assert rated[i] in rated;
      }
    }
    SumStarsBounds(rated);
    AverageBetween(SumStars(rated), |rated|, 1, 5);
    RoundedStaysInRange(Average(SumStars(rated), |rated|));
  }

  lemma RoundedStaysInRange(x: real)
    requires 1.0 <= x <= 5.0
    ensures 1.0 <= RoundToTenth(x) <= 5.0
  {
    var k := RoundReal(x * 10.0);
    assert 10 <= k <= 50;
  }
}
