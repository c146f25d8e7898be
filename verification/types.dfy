/**
 * The records the application stores and exchanges: users (heroes and
 * requesters), food requests with their ratings, coupons, levels and point
 * bonuses. Optional and nullable fields are `Option`s; ISO date strings are
 * `Timestamp`s, with `None` standing for a missing or empty date string.
 */
module Types {
  import opened Common
  import opened Time

  datatype UserType = HeroType | RequesterType

  datatype TransportMethod = Car | Bike | Walking | Transit

  datatype RequestStatus = Pending | Accepted | InProgress | Completed | Cancelled

  datatype FoodType = Produce | CannedGoods | Bread | Dairy | Mixed

  datatype Quantity = Single | Family2To4 | Family5Plus

  datatype DeliveryTimeliness = OnTime | SlightlyLate | Late

  datatype FoodQuality = Good | Acceptable | Poor

  /**
   * A user is either a hero (volunteer courier) or a requester. Both carry the
   * base fields; the stored password is the encoded form, never the plain text.
   * A hero registered without a transport method has none.
   */
  datatype User =
    | Hero(
        id: string, email: string, password: string, name: string, phone: string,
        neighborhood: string, createdAt: Timestamp,
        transportMethod: Option<TransportMethod>,
        points: int,
        level: int,
        badges: seq<string>,
        claimedCoupons: seq<string>,
        averageRating: real,
        totalDeliveries: int)
    | Requester(
        id: string, email: string, password: string, name: string, phone: string,
        neighborhood: string, createdAt: Timestamp,
        deliveryHistory: seq<string>)
  {
    /** The `type` tag. */
    function Kind(): UserType
    {
      if Hero? then HeroType else RequesterType
    }
  }

  /** A requester's feedback on a completed delivery; `stars` is meant to be 1 to 5. */
  datatype Rating = Rating(
    stars: int,
    feedback: string,
    timeliness: DeliveryTimeliness,
    foodQuality: FoodQuality,
    createdAt: Timestamp)

  datatype FoodRequest = FoodRequest(
    id: string,
    requesterId: string,
    heroId: Option<string>,
    status: RequestStatus,
    foodType: FoodType,
    quantity: Quantity,
    deliveryAddress: string,
    deliveryLat: real,
    deliveryLng: real,
    preferredTimeStart: Option<Timestamp>,
    preferredTimeEnd: Option<Timestamp>,
    specialNotes: string,
    contactMethod: string,
    rating: Option<Rating>,
    createdAt: Timestamp,
    acceptedAt: Option<Timestamp>,
    inProgressAt: Option<Timestamp>,
    completedAt: Option<Timestamp>,
    cancelledAt: Option<Timestamp>,
    cancelReason: Option<string>)

  /** A coupon tier of the catalog; a claimed coupon also carries its code and dates. */
  datatype Coupon = Coupon(
    id: string,
    value: int,
    business: string,
    description: string,
    pointsRequired: int,
    qrCode: Option<string>,
    claimedAt: Option<Timestamp>,
    expiresAt: Option<Timestamp>)

  datatype LevelName = Beginner | Helper | HeroRank | SuperHero | Champion

  /** The upper end of a level's point range; the top level has none (`Infinity`). */
  datatype Ceiling = AtMost(bound: int) | Unbounded

  datatype Level = Level(name: LevelName, minPoints: int, maxPoints: Ceiling)

  /** `points` lies in the closed range of `level`. */
  predicate InLevel(points: int, level: Level)
  {
    level.minPoints <= points && (level.maxPoints.AtMost? ==> points <= level.maxPoints.bound)
  }

  /** Which bonuses a delivery earns; an absent flag is `false`. */
  datatype PointBonus = PointBonus(
    firstOfDay: bool,
    onTime: bool,
    fiveStarRating: bool,
    weeklyStreak: bool)

  /** A badge of the static catalog: `criteria` names the metric, `requirement` its threshold. */
  datatype Badge = Badge(
    id: string,
    name: string,
    description: string,
    icon: string,
    criteria: string,
    requirement: int)
}
