/** The raid decision of a village: each configured trigger maps a signal about
    the village and its enemy to a probability, and the attack probability is
    the largest of them. Doubles are modelled as reals, without rounding. */
module VillageTriggers {
  import opened Wrappers

  /** A collective's danger level; never negative. */
  type DangerLevel = r: real | 0.0 <= r

  // ---------------------------------------------------------------------------
  // Power closeness

  /** The shape of powerClosenessFun on the ratio a = myPower / hisPower: zero
      below 0.4, cubic growth up to 1 at parity, slow cubic descent to 0.5 at
      twice the enemy's power, then 0.5 / (a - 1) towards zero. */
  function PowerCurve(a: real): real
  {
    if a < 0.4 then 0.0
    else if a < 1.0 then a * a * a
    else if a < 2.0 then 1.0 - (a - 1.0) * (a - 1.0) * (a - 1.0) * 0.5
    else 0.5 / (a - 1.0)
  }

  /** powerClosenessFun: zero when either side has no power, else the curve at
      the ratio of the two powers. */
  function PowerClosenessFun(myPower: real, hisPower: real): (r: real)
    ensures 0.0 <= r <= 1.0
    ensures myPower == 0.0 || hisPower == 0.0 ==> r == 0.0
  {
    if myPower == 0.0 || hisPower == 0.0 then 0.0
    else
      PowerCurveInUnit(myPower / hisPower);
      PowerCurve(myPower / hisPower)
  }

  lemma CubeMonotone(x: real, y: real)
    requires 0.0 <= x <= y
    ensures x * x * x <= y * y * y
  {
    assert x * x <= x * y <= y * y;
    assert x * x * x <= y * y * x <= y * y * y;
  }

  lemma CubeBelowOne(x: real)
    requires 0.0 <= x < 1.0
    ensures 0.0 <= x * x * x < 1.0
  {
    assert x * x <= x;
    assert x * x * x <= x * x;
  }

  /** The curve takes values between 0 and 1. */
  lemma PowerCurveInUnit(a: real)
    ensures 0.0 <= PowerCurve(a) <= 1.0
  {
    if 0.4 <= a < 1.0 {
      CubeBelowOne(a);
    } else if 1.0 <= a < 2.0 {
      var x := a - 1.0;
      CubeBelowOne(x);
      assert 0.0 <= x * x * x * 0.5 <= 0.5;
    } else if 2.0 <= a {
      HalfOverBounds(a - 1.0);
    }
  }

  /** The curve is 1 at parity and 0.5 at twice the enemy's power. */
  lemma PowerCurveLandmarks()
    ensures PowerCurve(1.0) == 1.0 && PowerCurve(2.0) == 0.5
    ensures forall a :: PowerCurve(a) <= PowerCurve(1.0)
  {
    forall a
      ensures PowerCurve(a) <= 1.0
    {
      PowerCurveInUnit(a);
    }
  }

  /** Up to parity the curve never falls as the ratio grows. */
  lemma PowerCurveRisesToParity(a: real, b: real)
    requires a <= b <= 1.0
    ensures PowerCurve(a) <= PowerCurve(b)
  {
    PowerCurveInUnit(b);
    if 0.4 <= a && b < 1.0 {
      CubeMonotone(a, b);
    } else if 0.4 <= a < 1.0 {
      CubeBelowOne(a);
    }
  }

  lemma ProductSign(x: real, y: real)
    requires 0.0 < y
    ensures 0.0 <= x ==> 0.0 <= x * y
    ensures 0.0 < x ==> 0.0 < x * y
    ensures 0.0 <= x * y ==> 0.0 <= x
    ensures 0.0 < x * y ==> 0.0 < x
  {
  }

  /** 0.5 / d lies in (0, 0.5] for d >= 1. */
  lemma HalfOverBounds(d: real)
    requires 1.0 <= d
    ensures 0.0 < 0.5 / d <= 0.5
  {
    var q := 0.5 / d;
    assert q * d == 0.5;
    ProductSign(q, d);
    if d > 1.0 {
      ProductSign(q, d - 1.0);
      assert 0.5 - q == q * (d - 1.0);
    }
  }

  /** 0.5 / d falls as d grows. */
  lemma HalfOverAntitone(d1: real, d2: real)
    requires 1.0 <= d1 <= d2
    ensures 0.5 / d2 <= 0.5 / d1
  {
    var q1 := 0.5 / d1;
    var q2 := 0.5 / d2;
    assert q1 * d1 == 0.5 && q2 * d2 == 0.5;
    HalfOverBounds(d2);
    if d1 < d2 {
      ProductSign(q2, d2 - d1);
      assert q2 * d2 - q2 * d1 == q2 * (d2 - d1);
    }
    assert (q1 - q2) * d1 == q1 * d1 - q2 * d1;
    ProductSign(q1 - q2, d1);
  }

  /** Past parity the curve never rises as the ratio grows. */
  lemma PowerCurveFallsPastParity(a: real, b: real)
    requires 1.0 <= a <= b
    ensures PowerCurve(b) <= PowerCurve(a)
  {
    if b < 2.0 {
      CubeMonotone(a - 1.0, b - 1.0);
    } else if a < 2.0 {
      CubeBelowOne(a - 1.0);
      HalfOverBounds(b - 1.0);
    } else {
      HalfOverAntitone(a - 1.0, b - 1.0);
    }
  }

  /** Far enough past parity the curve drops under any positive bound. */
  lemma PowerCurveVanishes(eps: real, a: real)
    requires 0.0 < eps && 2.0 <= a && 0.5 / eps < a - 1.0
    ensures PowerCurve(a) < eps
  {
    var q := 0.5 / eps;
    var d := a - 1.0;
    var v := 0.5 / d;
    assert eps * q == 0.5;
    assert v * d == 0.5;
    ProductSign(d - q, eps);
    assert eps * d - 0.5 == (d - q) * eps;
    assert (eps - v) * d == eps * d - v * d;
    ProductSign(eps - v, d);
  }

  // ---------------------------------------------------------------------------
  // Step functions

  /** victimsFun: stepped thresholds at 1, 3 and 5 victims (the second
      parameter is unused, as in the program). */
  function VictimsFun(victims: int, minPopulation: int): (r: real)
    ensures r in {0.0, 0.1, 0.3, 0.7, 1.0}
    ensures r == 0.0 <==> victims == 0
  {
    if victims == 0 then 0.0
    else if victims == 1 then 0.1
    else if victims <= 3 then 0.3
    else if victims <= 5 then 0.7
    else 1.0
  }

  lemma VictimsFunMonotone(v1: int, v2: int, minPopulation: int)
    requires 0 <= v1 <= v2
    ensures VictimsFun(v1, minPopulation) <= VictimsFun(v2, minPopulation)
  {
  }

  /** populationFun: stepped thresholds at 10%, 20% and 33% above the minimum.
      With a zero minimum the program divides by zero in floating point, which
      yields infinity (or NaN for 0 / 0) and falls through to the last branch
      unless the numerator is negative. */
  function PopulationFun(population: int, minPopulation: int): (r: real)
    ensures r in {0.0, 0.1, 0.3, 0.6, 1.0}
    ensures 0 < minPopulation ==> (r == 0.0 <==> population < minPopulation)
  {
    if minPopulation == 0 then (if population < 0 then 0.0 else 1.0)
    else
      var diff := (population - minPopulation) as real / minPopulation as real;
      ExcessSign(population, minPopulation);
      if diff < 0.0 then 0.0
      else if diff < 0.1 then 0.1
      else if diff < 0.2 then 0.3
      else if diff < 0.33 then 0.6
      else 1.0
  }

  /** With a positive minimum, the relative excess is negative exactly below the minimum. */
  lemma ExcessSign(value: int, minimum: int)
    requires minimum != 0
    ensures 0 < minimum ==> ((value - minimum) as real / minimum as real < 0.0 <==> value < minimum)
  {
    if 0 < minimum {
      var q := (value - minimum) as real / minimum as real;
      assert q * minimum as real == (value - minimum) as real;
    }
  }

  /** The relative excess over a positive minimum grows with the value. */
  lemma ExcessMonotone(v1: int, v2: int, minimum: int)
    requires 0 < minimum && v1 <= v2
    ensures (v1 - minimum) as real / minimum as real <= (v2 - minimum) as real / minimum as real
  {
    var m := minimum as real;
    var q1 := (v1 - minimum) as real / m;
    var q2 := (v2 - minimum) as real / m;
    assert q1 * m == (v1 - minimum) as real;
    assert q2 * m == (v2 - minimum) as real;
    assert (q2 - q1) * m >= 0.0;
  }

  lemma PopulationFunMonotone(p1: int, p2: int, minPopulation: int)
    requires 0 < minPopulation && p1 <= p2
    ensures PopulationFun(p1, minPopulation) <= PopulationFun(p2, minPopulation)
  {
    ExcessMonotone(p1, p2, minPopulation);
  }

  /** goldFun: stepped thresholds at 10%, 40% and 100% above the minimum; a
      zero minimum behaves as in PopulationFun. */
  function GoldFun(gold: int, minGold: int): (r: real)
    ensures r in {0.0, 0.1, 0.3, 0.6, 1.0}
    ensures 0 < minGold ==> (r == 0.0 <==> gold < minGold)
  {
    if minGold == 0 then (if gold < 0 then 0.0 else 1.0)
    else
      var diff := (gold - minGold) as real / minGold as real;
      ExcessSign(gold, minGold);
      if diff < 0.0 then 0.0
      else if diff < 0.1 then 0.1
      else if diff < 0.4 then 0.3
      else if diff < 1.0 then 0.6
      else 1.0
  }

  lemma GoldFunMonotone(g1: int, g2: int, minGold: int)
    requires 0 < minGold && g1 <= g2
    ensures GoldFun(g1, minGold) <= GoldFun(g2, minGold)
  {
    ExcessMonotone(g1, g2, minGold);
  }

  /** stolenItemsFun: any theft saturates. */
  function StolenItemsFun(numStolen: int): (r: real)
    ensures r in {0.0, 1.0}
    ensures r == 0.0 <==> numStolen == 0
  {
    if numStolen == 0 then 0.0 else 1.0
  }

  // ---------------------------------------------------------------------------
  // Room and finish-off triggers

  /** The kinds of square a ROOM_BUILT trigger can name. */
  datatype SquareId = Throne | ImpaledHead | OtherSquare(code: nat)

  /** getRoomProb: the weight of one built square; other square kinds are a fatal failure. */
  function GetRoomProb(id: SquareId): (r: Outcome<real>)
    ensures r.Ok? <==> !id.OtherSquare?
    ensures r.Ok? ==> 0.0 < r.value <= 0.001
  {
    match id
    case Throne => Ok(0.001)
    case ImpaledHead => Ok(0.000125)
    case OtherSquare(_) => Fatal("Unsupported ROOM_BUILT type")
  }

  /** getFinishOffProb: active only while the enemy's current power is under
      half of the largest power seen and that largest power is at least the
      village's own; then it falls linearly from 1 (enemy powerless) towards
      0.25 (enemy at half its peak). */
  function GetFinishOffProb(maxPower: DangerLevel, currentPower: DangerLevel, selfPower: DangerLevel): (r: real)
    ensures r != 0.0 <==> selfPower <= maxPower && currentPower * 2.0 < maxPower
    ensures r != 0.0 ==> 0.25 < r <= 1.0
  {
    if maxPower < selfPower || currentPower * 2.0 >= maxPower then 0.0
    else
      var minProb := 0.25;
      var ratio := currentPower / maxPower;
      assert ratio * maxPower == currentPower;
      1.0 - 2.0 * ratio * (1.0 - minProb)
  }

  /** The weaker the enemy becomes, the likelier the village finishes it off. */
  lemma FinishOffGrowsAsEnemyWeakens(maxPower: DangerLevel, c1: DangerLevel, c2: DangerLevel, selfPower: DangerLevel)
    requires c1 <= c2
    ensures GetFinishOffProb(maxPower, c2, selfPower) <= GetFinishOffProb(maxPower, c1, selfPower)
  {
    if selfPower <= maxPower && c2 * 2.0 < maxPower {
      var q1 := c1 / maxPower;
      var q2 := c2 / maxPower;
      assert q1 * maxPower == c1 && q2 * maxPower == c2;
      assert (q2 - q1) * maxPower >= 0.0;
    }
  }

  // ---------------------------------------------------------------------------
  // Trigger values and their combination

  /** The configured reasons a village may attack, with their parameters. */
  datatype Trigger =
    | Timer(turn: int)
    | RoomBuilt(square: SquareId)
    | Power
    | FinishOff
    | SelfVictims
    | EnemyPopulation(minPopulation: int)
    | Gold(minGold: int)
    | StolenItems
    | Entry
    | Proximity

  /** What the trigger functions read about the enemy collective. */
  datatype EnemySignals = EnemySignals(
    globalTime: real,
    squareCounts: map<SquareId, nat>,
    danger: DangerLevel,
    fighters: nat,
    gold: int,
    singleModel: bool,
    modelDistance: int)

  /** What the trigger functions read: the enemy (absent when there is none) and
      the village's own counters. */
  datatype VillageSignals = VillageSignals(
    enemy: Option<EnemySignals>,
    selfDanger: DangerLevel,
    maxEnemyPower: DangerLevel,
    victims: real,
    stolenItemCount: int,
    entries: bool)

  /** Conversion of a double to int: truncation towards zero. */
  function TruncateToInt(x: real): (r: int)
    ensures 0.0 <= x ==> 0 <= r && r as real <= x < r as real + 1.0
    ensures x < 0.0 ==> r <= 0 && r as real - 1.0 < x <= r as real
  {
    if 0.0 <= x then x.Floor else -((-x).Floor)
  }

  function SquareCount(e: EnemySignals, id: SquareId): nat
  {
    if id in e.squareCounts then e.squareCounts[id] else 0
  }

  /** getTriggerValue: each trigger's function scaled by its own maximum
      probability; zero when there is no enemy. Only ROOM_BUILT can fail
      (an unsupported square kind) or leave [0, 1] (many built squares). */
  function GetTriggerValue(t: Trigger, s: VillageSignals): (r: Outcome<real>)
    ensures !t.RoomBuilt? ==> r.Ok? && 0.0 <= r.value <= 0.05
    ensures s.enemy.None? ==> r == Ok(0.0)
  {
    if s.enemy.None? then Ok(0.0)
    else
      var e := s.enemy.value;
      match t
      case Timer(turn) => Ok(if e.globalTime >= turn as real then 0.05 else 0.0)
      case RoomBuilt(square) =>
        (match GetRoomProb(square)
         case Fatal(msg) => Fatal(msg)
         case Ok(p) => Ok(SquareCount(e, square) as real * p))
      case Power => Ok((1.0 / 10000.0) * PowerClosenessFun(s.selfDanger, e.danger))
      case FinishOff => Ok((1.0 / 1000.0) * GetFinishOffProb(s.maxEnemyPower, e.danger, s.selfDanger))
      case SelfVictims => Ok((1.0 / 500.0) * VictimsFun(TruncateToInt(s.victims), 0))
      case EnemyPopulation(minPopulation) => Ok((1.0 / 500.0) * PopulationFun(e.fighters, minPopulation))
      case Gold(minGold) => Ok((1.0 / 1000.0) * GoldFun(e.gold, minGold))
      case StolenItems => Ok((1.0 / 300.0) * StolenItemsFun(s.stolenItemCount))
      case Entry => Ok((1.0 / 20.0) * (if s.entries then 1.0 else 0.0))
      case Proximity => Ok(if !e.singleModel && e.modelDistance <= 1 then 1.0 / 5000.0 else 0.0)
  }

  /** A ROOM_BUILT value is fatal exactly for an unsupported square kind;
      otherwise it is the number of built squares times the square's weight,
      at most 0.001 per square, and it stays a probability exactly while that
      number is at most the inverse of the weight. */
  lemma RoomBuiltInRange(square: SquareId, s: VillageSignals)
    requires s.enemy.Some?
    ensures var r := GetTriggerValue(RoomBuilt(square), s);
            r.Fatal? <==> square.OtherSquare?
    ensures var r := GetTriggerValue(RoomBuilt(square), s);
            var n := SquareCount(s.enemy.value, square);
            r.Ok? ==> && r.value == n as real * GetRoomProb(square).value
                      && 0.0 <= r.value <= 0.001 * n as real
    ensures var r := GetTriggerValue(RoomBuilt(square), s);
            var limit := if square == Throne then 1000 else 8000;
            r.Ok? ==> (r.value <= 1.0 <==> SquareCount(s.enemy.value, square) <= limit)
  {
  }

  predicate IsProbability(x: real)
  {
    0.0 <= x <= 1.0
  }

  function Max(a: real, b: real): real
  {
    if a < b then b else a
  }

  /** The max-fold of trigger values, in order: the largest value, 0 for
      none; the first failure, or the first value outside [0, 1], is fatal. */
  function MaxFold(vals: seq<Outcome<real>>): Outcome<real>
  {
    if vals == [] then Ok(0.0)
    else
      match MaxFold(vals[..|vals| - 1])
      case Fatal(msg) => Fatal(msg)
      case Ok(m) =>
        match vals[|vals| - 1]
        case Fatal(msg) => Fatal(msg)
        case Ok(v) => if IsProbability(v) then Ok(Max(m, v)) else Fatal("trigger value out of [0, 1]")
  }

  /** A value the fold accepts: not a failure, and a probability. */
  predicate Combinable(o: Outcome<real>)
  {
    o.Ok? && IsProbability(o.value)
  }

  /** The fold fails exactly when some value is not combinable. */
  lemma {:induction false} MaxFoldFailsOnUncombinable(vals: seq<Outcome<real>>)
    ensures MaxFold(vals).Ok? <==> forall i :: 0 <= i < |vals| ==> Combinable(vals[i])
  {
    if vals != [] {
      var n := |vals| - 1;
      MaxFoldFailsOnUncombinable(vals[..n]);
      assert forall i :: 0 <= i < n ==> vals[..n][i] == vals[i];
    }
  }

  /** A fold that succeeds is a probability, at least every value, equal to one
      of them, and 0 without values. */
  lemma {:induction false} MaxFoldIsMaximum(vals: seq<Outcome<real>>)
    ensures MaxFold(vals).Ok? ==>
              var m := MaxFold(vals).value;
              && IsProbability(m)
              && (forall i :: 0 <= i < |vals| ==> (Combinable(vals[i]) && vals[i].value <= m))
              && (vals == [] ==> m == 0.0)
              && (vals != [] ==> exists i :: 0 <= i < |vals| && vals[i] == Ok(m))
  {
    if vals != [] && MaxFold(vals).Ok? {
      var n := |vals| - 1;
      var init := vals[..n];
      MaxFoldIsMaximum(init);
      MaxFoldFailsOnUncombinable(vals);
      assert forall i :: 0 <= i < n ==> init[i] == vals[i];
      var m := MaxFold(init).value;
      var v := vals[n].value;
      if n > 0 && v <= m {
        var j :| 0 <= j < n && init[j] == Ok(m);
        assert vals[j] == init[j];
      }
    }
  }

  /** Once a prefix of the values fails, the whole fold fails the same way. */
  lemma {:induction false} MaxFoldFatalPersists(vals: seq<Outcome<real>>, k: nat)
    requires k <= |vals| && MaxFold(vals[..k]).Fatal?
    ensures MaxFold(vals) == MaxFold(vals[..k])
    decreases |vals| - k
  {
    if k < |vals| {
      assert vals[..k + 1][..k] == vals[..k];
      MaxFoldFatalPersists(vals, k + 1);
    } else {
      assert vals[..k] == vals;
    }
  }

  /** The values of the triggers, in order. */
  function TriggerValues(triggers: seq<Trigger>, s: VillageSignals): (r: seq<Outcome<real>>)
    ensures |r| == |triggers| && forall i :: 0 <= i < |triggers| ==> r[i] == GetTriggerValue(triggers[i], s)
  {
    seq(|triggers|, i requires 0 <= i < |triggers| => GetTriggerValue(triggers[i], s))
  }

  /** The attack probability of a list of triggers: the max-fold of their values. */
  function CombinedProbability(triggers: seq<Trigger>, s: VillageSignals): Outcome<real>
  {
    MaxFold(TriggerValues(triggers, s))
  }

  /** A trigger whose value can be combined: it does not fail and is a probability. */
  predicate Admissible(t: Trigger, s: VillageSignals)
  {
    Combinable(GetTriggerValue(t, s))
  }

  /** The combination fails exactly when some trigger is not admissible; a
      combination that succeeds is a probability, at least every trigger
      value, equal to one of them, and 0 without triggers. */
  lemma CombinedIsMaximum(triggers: seq<Trigger>, s: VillageSignals)
    ensures CombinedProbability(triggers, s).Ok? <==> forall i :: 0 <= i < |triggers| ==> Admissible(triggers[i], s)
    ensures CombinedProbability(triggers, s).Ok? ==>
              var m := CombinedProbability(triggers, s).value;
              && IsProbability(m)
              && (forall i :: 0 <= i < |triggers| ==>
                    (Admissible(triggers[i], s) && GetTriggerValue(triggers[i], s).value <= m))
              && (triggers == [] ==> m == 0.0)
              && (triggers != [] ==> exists i :: 0 <= i < |triggers| && GetTriggerValue(triggers[i], s) == Ok(m))
  {
    var vals := TriggerValues(triggers, s);
    MaxFoldFailsOnUncombinable(vals);
    MaxFoldIsMaximum(vals);
  }

  /** The combination is the maximum, not the sum: a stolen-item trigger and an
      entry trigger give the entry trigger's 1/20. */
  lemma CombinationIsNotASum(s: VillageSignals)
    requires s.enemy.Some? && s.stolenItemCount != 0 && s.entries
    ensures CombinedProbability([StolenItems, Entry], s) == Ok(1.0 / 20.0)
  {
    var vals := TriggerValues([StolenItems, Entry], s);
    assert vals == [Ok(1.0 / 300.0), Ok(1.0 / 20.0)];
    assert vals[..1] == [Ok(1.0 / 300.0)];
    assert vals[..1][..0] == [];
    assert MaxFold(vals[..1]) == Ok(1.0 / 300.0);
  }

  /** getAttackProbability: the max-fold over the configured triggers, checking
      that every value is a probability. */
  method GetAttackProbability(triggers: seq<Trigger>, s: VillageSignals) returns (r: Outcome<real>)
    ensures r == CombinedProbability(triggers, s)
  {
    ghost var vals := TriggerValues(triggers, s);
    var ret := 0.0;
    var i := 0;
    while i < |triggers|
      invariant 0 <= i <= |triggers|
      invariant MaxFold(vals[..i]) == Ok(ret)
    {
      assert vals[..i + 1][..i] == vals[..i];
      var val := GetTriggerValue(triggers[i], s);
      if val.Fatal? {
        MaxFoldFatalPersists(vals, i + 1);
        return val;
      }
      if !IsProbability(val.value) {
        MaxFoldFatalPersists(vals, i + 1);
        return Fatal("trigger value out of [0, 1]");
      }
      ret := Max(ret, val.value);
      i := i + 1;
    }
    assert vals[..i] == vals;
    r := Ok(ret);
  }
}
