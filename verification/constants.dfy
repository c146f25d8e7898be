/**
 * The configuration tables of the application: the active-request cap, the
 * point values, the level table and its order, the badge catalog and the
 * coupon tiers, together with the table properties the rest of the model
 * relies on (contiguous levels, increasing thresholds, consistent keys).
 */
module Constants {
  import opened Common
  import opened Types

  /** How many accepted or in-progress requests one hero may hold. */
  const MaxActiveRequests: int := 3

  const DeliveryBase: int := 100
  const FirstOfDayBonus: int := 25
  const OnTimeBonus: int := 50
  const FiveStarBonus: int := 25
  const WeeklyStreakBonus: int := 200

  /** `LEVELS[name]`. */
  function LevelOf(name: LevelName): Level
  {
    match name
    case Beginner => Level(Beginner, 0, AtMost(499))
    case Helper => Level(Helper, 500, AtMost(999))
    case HeroRank => Level(HeroRank, 1000, AtMost(2499))
    case SuperHero => Level(SuperHero, 2500, AtMost(4999))
    case Champion => Level(Champion, 5000, Unbounded)
  }

  /** `LEVEL_ORDER`: the levels from lowest to highest. */
  const LevelOrder: seq<LevelName> := [Beginner, Helper, HeroRank, SuperHero, Champion]

  /** `LEVEL_ORDER.indexOf(name)`. */
  function LevelIndex(name: LevelName): (i: nat)
    ensures i < |LevelOrder| && LevelOrder[i] == name
  {
    match name
    case Beginner => 0
    case Helper => 1
    case HeroRank => 2
    case SuperHero => 3
    case Champion => 4
  }

  /** The display name of a level. */
  function LevelTitle(name: LevelName): string
  {
    match name
    case Beginner => "Beginner"
    case Helper => "Helper"
    case HeroRank => "Hero"
    case SuperHero => "Super Hero"
    case Champion => "Champion"
  }

  /**
   * The level table is keyed consistently, starts at 0, has no gaps or
   * overlaps (each upper bound is one below the next level's lower bound) and
   * ends in the unbounded top level.
   */
  lemma LevelTableContiguous()
    ensures forall n: LevelName :: LevelOf(n).name == n
    ensures LevelOf(LevelOrder[0]).minPoints == 0
    ensures forall i :: 0 <= i < |LevelOrder| - 1 ==>
              LevelOf(LevelOrder[i]).maxPoints == AtMost(LevelOf(LevelOrder[i + 1]).minPoints - 1)
    ensures LevelOf(LevelOrder[|LevelOrder| - 1]).maxPoints == Unbounded
  {
  }

  /** `LEVEL_ORDER` lists every level once, by strictly increasing minimum. */
  lemma LevelOrderIncreasing()
    ensures forall n: LevelName :: n in LevelOrder
    ensures forall i, j :: 0 <= i < j < |LevelOrder| ==>
              LevelOf(LevelOrder[i]).minPoints < LevelOf(LevelOrder[j]).minPoints
    ensures Distinct(LevelOrder)
  {
    forall n: LevelName ensures n in LevelOrder {
      assert LevelOrder[LevelIndex(n)] == n;
    }
  }

  /** Every non-negative total lies in exactly one level of the table. */
  lemma {:induction false} LevelsPartitionNaturals(points: int)
    requires points >= 0
    ensures exists i :: 0 <= i < |LevelOrder| && InLevel(points, LevelOf(LevelOrder[i]))
    ensures forall i, j ::
              (0 <= i < |LevelOrder| && 0 <= j < |LevelOrder| &&
               InLevel(points, LevelOf(LevelOrder[i])) && InLevel(points, LevelOf(LevelOrder[j]))) ==> i == j
  {
    LevelTableContiguous();
    var i := if points < 500 then 0 else if points < 1000 then 1 else if points < 2500 then 2
             else if points < 5000 then 3 else 4;
    assert InLevel(points, LevelOf(LevelOrder[i]));
  }

  // ---------------------------------------------------------------------------
  // Badges
  // ---------------------------------------------------------------------------

  const FirstDelivery: string := "first_delivery"
  const Reliable: string := "reliable"
  const Dedicated: string := "dedicated"
  const ChampionBadge: string := "champion"
  const EarlyBird: string := "early_bird"
  const WeekendWarrior: string := "weekend_warrior"
  const FullCart: string := "full_cart"
  const NeighborhoodHero: string := "neighborhood_hero"

  /** The badge ids in catalog order, which is also the order they are checked in. */
  const BadgeOrder: seq<string> :=
    [FirstDelivery, Reliable, Dedicated, ChampionBadge, EarlyBird, WeekendWarrior, FullCart, NeighborhoodHero]

  /** `BADGES`: the catalog, keyed by badge id. */
  const Badges: map<string, Badge> := map[
    FirstDelivery := Badge(FirstDelivery, "First Delivery", "Complete your first delivery",
                           "\U{1F389}", "deliveries", 1),
    Reliable := Badge(Reliable, "Reliable", "Complete 5 deliveries",
                      "\U{2B50}", "deliveries", 5),
    Dedicated := Badge(Dedicated, "Dedicated", "Complete 10 deliveries",
                       "\U{1F4AA}", "deliveries", 10),
    ChampionBadge := Badge(ChampionBadge, "Community Champion", "Complete 25 deliveries",
                           "\U{1F3C6}", "deliveries", 25),
    EarlyBird := Badge(EarlyBird, "Early Bird", "Complete 3 morning deliveries (before 10am)",
                       "\U{1F305}", "morning_deliveries", 3),
    WeekendWarrior := Badge(WeekendWarrior, "Weekend Warrior", "Complete 5 weekend deliveries",
                            "\U{1F3AF}", "weekend_deliveries", 5),
    FullCart := Badge(FullCart, "Full Cart", "Deliver family-size orders 5 times",
                      "\U{1F6D2}", "family_deliveries", 5),
    NeighborhoodHero := Badge(NeighborhoodHero, "Neighborhood Hero", "Complete 10 deliveries in the same area",
                              "\U{1F3D8}\U{FE0F}", "neighborhood_deliveries", 10)
  ]

  /** The catalog holds exactly the listed ids, each stored under its own id, and the ids are distinct. */
  lemma BadgeCatalogKeyedById()
    ensures Badges.Keys == set b | b in BadgeOrder
    ensures forall k :: k in Badges ==> Badges[k].id == k
    ensures Distinct(BadgeOrder)
  {
  }

  // ---------------------------------------------------------------------------
  // Coupons
  // ---------------------------------------------------------------------------

  function Tier(id: string, value: int, business: string, description: string, pointsRequired: int): Coupon
  {
    Coupon(id, value, business, description, pointsRequired, None, None, None)
  }

  /** `COUPON_TIERS`: the catalog, cheapest first. */
  const CouponTiers: seq<Coupon> := [
    Tier("coffee_5", 5, "Local Coffee Shop", "$5 off your next purchase", 500),
    Tier("grocery_10", 10, "Community Grocery", "$10 off groceries", 1000),
    Tier("restaurant_20", 20, "Halifax Restaurant", "$20 dining credit", 2500),
    Tier("giftcard_50", 50, "Local Business Alliance", "$50 gift card", 5000)
  ]

  /**
   * Coupon ids are distinct, the costs strictly increase, every cost is the
   * minimum of some level above the first, and tiers carry no claim data.
   */
  lemma CouponTiersOrdered()
    ensures forall i, j :: 0 <= i < j < |CouponTiers| ==> CouponTiers[i].id != CouponTiers[j].id
    ensures forall i, j :: 0 <= i < j < |CouponTiers| ==>
              CouponTiers[i].pointsRequired < CouponTiers[j].pointsRequired
    ensures forall i :: 0 <= i < |CouponTiers| ==>
              CouponTiers[i].pointsRequired == LevelOf(LevelOrder[i + 1]).minPoints
    ensures forall i :: 0 <= i < |CouponTiers| ==>
              CouponTiers[i].qrCode.None? && CouponTiers[i].claimedAt.None? && CouponTiers[i].expiresAt.None?
  {
  }
}
