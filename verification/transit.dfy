/**
 * The simplified transit planner: a fixed sequence of walking, waiting and
 * bus steps between a food bank and a delivery address, with their totals and
 * a one-line summary, and the duration formatter. The straight-line distance
 * is an input in whole metres (the planner computes it with floating-point
 * geometry, which is not modelled).
 */
module Transit {
  import opened Common

  datatype StepKind = Walk | Bus | Wait

  /** One instruction; absent measurements and labels are `None`. */
  datatype TransitStep = TransitStep(
    kind: StepKind,
    instruction: string,
    distance: Option<int>,
    duration: Option<int>,
    routeNumber: Option<string>,
    routeName: Option<string>,
    from: Option<string>,
    to: Option<string>,
    icon: Option<string>)

  datatype TransitDirections = TransitDirections(
    steps: seq<TransitStep>,
    totalDistance: int,
    totalDuration: int,
    summary: string)

  /** The routes a bus leg may suggest. */
  const PossibleRoutes: seq<string> := ["1", "7", "10", "52", "63", "80"]

  /** Above this many metres the plan takes a bus. */
  const BusThreshold: int := 500

  const WalkIcon: string := "\U{1F6B6}"
  const PackageIcon: string := "\U{1F4E6}"
  const BusIcon: string := "\U{1F68C}"

  /** The sum of the step distances, a missing one counting as 0. */
  function SumDistance(steps: seq<TransitStep>): int
  {
    if |steps| == 0 then 0 else steps[0].distance.GetOr(0) + SumDistance(steps[1..])
  }

  /** The sum of the step durations, a missing one counting as 0. */
  function SumDuration(steps: seq<TransitStep>): int
  {
    if |steps| == 0 then 0 else steps[0].duration.GetOr(0) + SumDuration(steps[1..])
  }

  function Kinds(steps: seq<TransitStep>): (r: seq<StepKind>)
    ensures |r| == |steps|
    ensures forall i :: 0 <= i < |steps| ==> r[i] == steps[i].kind
  {
    if |steps| == 0 then [] else [steps[0].kind] + Kinds(steps[1..])
  }

  /** `Math.round(km * 10) / 10` written the way JavaScript prints it: no ".0" for whole numbers. */
  function TenthsText(tenths: nat): string
  {
    if tenths % 10 == 0 then NatToString(tenths / 10)
    else NatToString(tenths / 10) + "." + [DigitChar(tenths % 10)]
  }

  /** The suggested route for the draw `roll`: `possibleRoutes[Math.floor(roll * 6)]`. */
  function SuggestedRoute(roll: real): (route: string)
    requires 0.0 <= roll < 1.0
    ensures route in PossibleRoutes
  {
    var n := |PossibleRoutes| as real;
    assert 0.0 <= roll * n < n by {
      assert (1.0 - roll) * n > 0.0;
    }
    PossibleRoutes[(roll * n).Floor]
  }

  /** Every suggested route is drawn by some roll. */
  lemma SuggestedRouteCoversAll(i: nat)
    requires i < |PossibleRoutes|
    ensures var roll := i as real / 6.0;
            0.0 <= roll < 1.0 && SuggestedRoute(roll) == PossibleRoutes[i]
  {
    var roll := i as real / 6.0;
    assert roll * 6.0 == i as real;
  }

  /** The five steps of a plan that takes the bus. */
  function BusSteps(foodBankName: string, distance: int, destination: string, route: string): seq<TransitStep>
  {
    var busDistance := distance - 200;
    [ TransitStep(Walk, "Walk to " + foodBankName, Some(50), Some(1), None, None,
                  Some("Your location"), Some(foodBankName), Some(WalkIcon)),
      TransitStep(Wait, "Collect food items at " + foodBankName, None, Some(5), None, None,
                  None, None, Some(PackageIcon)),
      TransitStep(Walk, "Walk to nearest bus stop", Some(100), Some(2), None, None,
                  Some(foodBankName), Some("Bus stop"), Some(WalkIcon)),
      TransitStep(Bus, "Take bus route " + route + " towards delivery location",
                  Some(busDistance), Some(CeilRatio(busDistance, 400)), Some(route), Some("Route " + route),
                  Some("Bus stop"), Some("Delivery area"), Some(BusIcon)),
      TransitStep(Walk, "Walk to " + destination, Some(100), Some(2), None, None,
                  Some("Bus stop"), Some(destination), Some(WalkIcon)) ]
  }

  /** The three steps of a plan on foot: half the distance to the bank, half from it. */
  function WalkSteps(foodBankName: string, distance: int, destination: string): seq<TransitStep>
  {
    var half := RoundRatio(distance, 2);
    var minutes := CeilRatio(distance, 160);
    [ TransitStep(Walk, "Walk to " + foodBankName, Some(half), Some(minutes), None, None,
                  Some("Your location"), Some(foodBankName), Some(WalkIcon)),
      TransitStep(Wait, "Collect food items at " + foodBankName, None, Some(5), None, None,
                  None, None, Some(PackageIcon)),
      TransitStep(Walk, "Walk to " + destination, Some(half), Some(minutes), None, None,
                  Some(foodBankName), Some(destination), Some(WalkIcon)) ]
  }

  /**
   * `calculateTransitDirections`: above 500 m, walk to the bank, collect,
   * walk to a stop, ride, walk to the door; otherwise walk half way, collect,
   * walk the other half. The totals add up the steps and the summary shows the
   * distance in kilometres rounded to one decimal (the metres over 100,
   * rounded) and the minutes.
   */
  function CalculateTransitDirections(foodBankName: string, distance: nat, deliveryAddress: string,
                                      roll: real): (r: TransitDirections)
    requires 0.0 <= roll < 1.0
    ensures r.totalDistance == SumDistance(r.steps) && r.totalDuration == SumDuration(r.steps)
    ensures distance > BusThreshold ==> Kinds(r.steps) == [Walk, Wait, Walk, Bus, Walk]
    ensures distance <= BusThreshold ==> Kinds(r.steps) == [Walk, Wait, Walk]
    ensures r.steps[|r.steps| - 1].to == Some(BeforeComma(deliveryAddress))
    ensures r.steps[0].to == Some(foodBankName)
    ensures forall i :: 0 <= i < |r.steps| && r.steps[i].kind == Bus ==>
              r.steps[i].routeNumber.Some? && r.steps[i].routeNumber.value in PossibleRoutes
    ensures exists tenths: nat ::
              && 200 * tenths - 100 <= 2 * r.totalDistance < 200 * tenths + 100
              && r.summary == TenthsText(tenths) + " km • " + IntToString(r.totalDuration) + " min"
  {
    var steps := Plan(foodBankName, distance, BeforeComma(deliveryAddress), roll);
    var totalDistance := SumDistance(steps);
    var totalDuration := SumDuration(steps);
    var tenths := RoundRatio(totalDistance, 100);
    assert 200 * tenths - 100 <= 2 * totalDistance < 200 * tenths + 100;
    TransitDirections(steps, totalDistance, totalDuration,
                      TenthsText(tenths) + " km • " + IntToString(totalDuration) + " min")
  }

  /** The steps of either plan, chosen by the distance. */
  function Plan(foodBankName: string, distance: nat, destination: string, roll: real): (steps: seq<TransitStep>)
    requires 0.0 <= roll < 1.0
    ensures |steps| >= 3 && SumDistance(steps) >= 0
    ensures distance > BusThreshold ==> Kinds(steps) == [Walk, Wait, Walk, Bus, Walk]
    ensures distance <= BusThreshold ==> Kinds(steps) == [Walk, Wait, Walk]
    ensures steps[|steps| - 1].to == Some(destination)
    ensures steps[0].to == Some(foodBankName)
    ensures forall i :: 0 <= i < |steps| && steps[i].kind == Bus ==>
              steps[i].routeNumber.Some? && steps[i].routeNumber.value in PossibleRoutes
  {
    TotalsNonNegative(foodBankName, distance, destination, roll);
    if distance > BusThreshold
    then BusSteps(foodBankName, distance, destination, SuggestedRoute(roll))
    else WalkSteps(foodBankName, distance, destination)
  }

  lemma TotalsNonNegative(foodBankName: string, distance: nat, destination: string, roll: real)
    requires 0.0 <= roll < 1.0
    ensures distance > BusThreshold ==>
              SumDistance(BusSteps(foodBankName, distance, destination, SuggestedRoute(roll))) >= 0
    ensures distance <= BusThreshold ==> SumDistance(WalkSteps(foodBankName, distance, destination)) >= 0
  {
    if distance > BusThreshold {
      BusTotals(foodBankName, distance, destination, SuggestedRoute(roll));
    } else {
      WalkTotals(foodBankName, distance, destination);
    }
  }

  /** The bus plan covers 50 m more than the straight line and takes ten minutes plus the ride. */
  lemma BusTotals(foodBankName: string, distance: int, destination: string, route: string)
    ensures var steps := BusSteps(foodBankName, distance, destination, route);
            && SumDistance(steps) == distance + 50
            && SumDuration(steps) == 10 + CeilRatio(distance - 200, 400)
            && steps[3].distance == Some(distance - 200)
  {
    var steps := BusSteps(foodBankName, distance, destination, route);
    var ride := CeilRatio(distance - 200, 400);
    assert steps[4..][1..] == [];
    assert SumDistance(steps[4..]) == 100 && SumDuration(steps[4..]) == 2;
    assert steps[3..][1..] == steps[4..];
    assert SumDistance(steps[3..]) == distance - 100 && SumDuration(steps[3..]) == ride + 2;
    assert steps[2..][1..] == steps[3..];
    assert SumDistance(steps[2..]) == distance && SumDuration(steps[2..]) == ride + 4;
    assert steps[1..][1..] == steps[2..];
    assert SumDistance(steps[1..]) == distance && SumDuration(steps[1..]) == ride + 9;
  }

  /**
   * The walking plan covers the distance, give or take the rounding of its
   * two halves, and takes five minutes plus two walks of `⌈distance / 160⌉`.
   */
  lemma WalkTotals(foodBankName: string, distance: int, destination: string)
    ensures var steps := WalkSteps(foodBankName, distance, destination);
            && SumDistance(steps) == 2 * RoundRatio(distance, 2)
            && distance <= SumDistance(steps) <= distance + 1
            && SumDuration(steps) == 5 + 2 * CeilRatio(distance, 160)
  {
    var steps := WalkSteps(foodBankName, distance, destination);
    var half, walk := RoundRatio(distance, 2), CeilRatio(distance, 160);
    assert steps[2..][1..] == [];
    assert SumDistance(steps[2..]) == half && SumDuration(steps[2..]) == walk;
    assert steps[1..][1..] == steps[2..];
    assert SumDistance(steps[1..]) == half && SumDuration(steps[1..]) == walk + 5;
  }

  /** The planner's totals, case by case, as promised by its comments. */
  lemma TransitTotals(foodBankName: string, distance: nat, deliveryAddress: string, roll: real)
    requires 0.0 <= roll < 1.0
    ensures var r := CalculateTransitDirections(foodBankName, distance, deliveryAddress, roll);
            if distance > BusThreshold then
              && r.totalDistance == distance + 50
              && r.totalDuration == 10 + CeilRatio(distance - 200, 400)
              && r.steps[3].distance == Some(distance - 200)
            else
              && distance <= r.totalDistance <= distance + 1
              && r.totalDuration == 5 + 2 * CeilRatio(distance, 160)
  {
    var destination := BeforeComma(deliveryAddress);
    if distance > BusThreshold {
      BusTotals(foodBankName, distance, destination, SuggestedRoute(roll));
    } else {
      WalkTotals(foodBankName, distance, destination);
    }
  }

  // ---------------------------------------------------------------------------
  // Durations
  // ---------------------------------------------------------------------------

  /** `formatDuration`: "m min" below an hour, otherwise "Hh" or "Hh Mm". */
  function FormatDuration(minutes: int): (r: string)
    ensures minutes >= 0 ==> ReadDuration(r) == Some(minutes)
  {
    FormatDurationReads(minutes);
    if minutes < 60 then IntToString(minutes) + " min"
    else
      var hours, mins := minutes / 60, minutes % 60;
      if mins > 0 then NatToString(hours) + "h " + NatToString(mins) + "m" else NatToString(hours) + "h"
  }

  /** Reads the three shapes back; `None` for any other text. */
  function ReadDuration(s: string): Option<nat>
  {
    var k := LeadingDigits(s);
    LeadingDigitsPrefix(s);
    if k == 0 then None else ReadUnits(ParseNat(s[..k]), s[k..])
  }

  /** What may follow the leading number `n`: " min", "h", or "h " and the minutes. */
  function ReadUnits(n: nat, rest: string): Option<nat>
  {
    if rest == " min" then Some(n)
    else if rest == "h" then Some(60 * n)
    else if |rest| >= 2 && rest[..2] == "h " then
      match ReadMinutesSuffix(rest[2..])
      case Some(m) => Some(60 * n + m)
      case None => None
    else None
  }

  /** Reads the "Mm" that ends the hours-and-minutes shape. */
  function ReadMinutesSuffix(tail: string): Option<nat>
  {
    var j := LeadingDigits(tail);
    LeadingDigitsPrefix(tail);
    if j >= 1 && tail[j..] == "m" then Some(ParseNat(tail[..j])) else None
  }

  /** A number's digits followed by text that starts with a non-digit split where the digits end. */
  lemma ReadNumberThen(n: nat, rest: string)
    requires |rest| >= 1 && !IsDigit(rest[0])
    ensures ReadDuration(NatToString(n) + rest) == ReadUnits(n, rest)
  {
    var a := NatToString(n);
    var s := a + rest;
    LeadingDigitsOfConcat(a, rest);
    assert s[..|a|] == a;
    assert s[|a|..] == rest;
    ParseNatToString(n);
  }

  lemma FormatDurationReads(minutes: int)
    ensures 0 <= minutes < 60 ==> ReadDuration(NatToString(minutes) + " min") == Some(minutes)
    ensures minutes >= 60 && minutes % 60 > 0 ==>
              ReadDuration(NatToString(minutes / 60) + "h " + NatToString(minutes % 60) + "m") == Some(minutes)
    ensures minutes >= 60 && minutes % 60 == 0 ==> ReadDuration(NatToString(minutes / 60) + "h") == Some(minutes)
  {
    if 0 <= minutes < 60 {
      ReadNumberThen(minutes, " min");
    } else if minutes >= 60 && minutes % 60 > 0 {
      HoursMinutesReads(minutes / 60, minutes % 60);
    } else if minutes >= 60 {
      ReadNumberThen(minutes / 60, "h");
    }
  }

  lemma HoursMinutesReads(h: nat, m: nat)
    ensures ReadDuration(NatToString(h) + "h " + NatToString(m) + "m") == Some(60 * h + m)
  {
    var a, b := NatToString(h), NatToString(m);
    var rest := "h " + b + "m";
    calc {
      ReadDuration(a + "h " + b + "m");
      { assert a + "h " + b + "m" == a + rest; }
      ReadDuration(a + rest);
      { ReadNumberThen(h, rest); }
      ReadUnits(h, rest);
      { UnitsOfHoursMinutes(h, b); MinutesSuffixReads(m); }
      Some(60 * h + m);
    }
  }

  lemma UnitsOfHoursMinutes(h: nat, b: string)
    ensures ReadUnits(h, "h " + b + "m") ==
            match ReadMinutesSuffix(b + "m") case Some(m) => Some(60 * h + m) case None => None
  {
    var rest := "h " + b + "m";
    assert rest[0] == 'h' && |rest| >= 3;
    assert rest[..2] == "h " && rest[2..] == b + "m";
  }

  lemma MinutesSuffixReads(m: nat)
    ensures ReadMinutesSuffix(NatToString(m) + "m") == Some(m)
  {
    var b := NatToString(m);
    LeadingDigitsOfConcat(b, "m");
    assert (b + "m")[..|b|] == b;
    assert (b + "m")[|b|..] == "m";
    ParseNatToString(m);
  }

  /** Different non-negative durations never display alike. */
  lemma FormatDurationInjective(m1: nat, m2: nat)
    requires FormatDuration(m1) == FormatDuration(m2)
    ensures m1 == m2
  {
  }
}
