/**
 * The practice scheduler of `ro.undef.patois.Trainer`: the weighted word selector,
 * the per-word level transition and the interval table it schedules from.
 *
 * The store (`Database`) is abstract: `getWordWeights` is the `weights` argument of
 * `SelectWord`, `getPracticeInfo` is the `PracticeInfo` object handed to
 * `UpdatePracticeInfo`, and the store write it ends with is its result. The clock is
 * the `now` argument. The random generator is an oracle: `pickAt(k)` is what
 * `nextInt(numWeights)` returns on the k-th attempt and `drawAt(k)` what
 * `nextLong(maxWeight)` returns on it.
 */
module Trainer {
  import opened JavaInt
  import opened Wrappers
  import JavaRandom

  /** The version tag written with every practice outcome; 1 is reserved for manual score resets. */
  const TRAINER_VERSION: int := 0
  const MANUAL_SCORE_RESET_VERSION: int := 1

  /** The minimum time in seconds between two practices of the same word, by level. */
  const PRACTICE_INTERVALS: seq<int> := [
      6 * 60 * 60,        // level 0: 6 hours
      2 * 24 * 60 * 60,   // level 1: 2 days
      7 * 24 * 60 * 60,   // level 2: 7 days
     30 * 24 * 60 * 60,   // level 3: 30 days
    180 * 24 * 60 * 60    // level 4: 180 days
  ]

  const MAX_LEVEL: int := |PRACTICE_INTERVALS| - 1

  // ---------------------------------------------------------------------------
  // Levels and intervals

  /** Brings a stored level into the range of the interval table. */
  function Clamp(level: int): (r: int)
    ensures 0 <= r <= MAX_LEVEL
    ensures 0 <= level <= MAX_LEVEL ==> r == level
    ensures level < 0 ==> r == 0
    ensures level > MAX_LEVEL ==> r == MAX_LEVEL
  {
    var l := if level < 0 then 0 else level;
    if l > MAX_LEVEL then MAX_LEVEL else l
  }

  /** Clamping never reverses the order of two levels. */
  lemma ClampMonotone(a: int, b: int)
    requires a <= b
    ensures Clamp(a) <= Clamp(b)
  {
  }

  function GetInterval(level: int): (r: int)
    ensures r == PRACTICE_INTERVALS[Clamp(level)]
    ensures 0 < r <= PRACTICE_INTERVALS[MAX_LEVEL]
  {
    PRACTICE_INTERVALS[Clamp(level)]
  }

  /** The interval table is strictly increasing: a higher level always waits longer. */
  lemma IntervalsIncrease(i: int, j: int)
    requires 0 <= i < j <= MAX_LEVEL
    ensures PRACTICE_INTERVALS[i] < PRACTICE_INTERVALS[j]
  {
  }

  /** Through the clamp, the interval never decreases as the level grows. */
  lemma GetIntervalMonotone(a: int, b: int)
    requires a <= b
    ensures GetInterval(a) <= GetInterval(b)
  {
    ClampMonotone(a, b);
    if Clamp(a) < Clamp(b) {
      IntervalsIncrease(Clamp(a), Clamp(b));
    }
  }

  /** `now + getInterval(level)` in Java `long` arithmetic. */
  function ScheduleNextPractice(now: int, level: int): (r: int)
    ensures IsLong(r)
    ensures IsLong(now + GetInterval(level)) ==> r == now + GetInterval(level) && r > now
  {
    WrapLong(now + GetInterval(level))
  }

  /**
   * `(clamp(level) + 1) * maxStars / (MAX_LEVEL + 1)` in Java `int` arithmetic:
   * the product wraps to 32 bits and the division rounds toward zero.
   */
  function GetNumStars(level: int, maxStars: int): (r: int)
    ensures 0 <= maxStars <= MAX_INT / (MAX_LEVEL + 1) ==> 0 <= r <= maxStars
  {
    JDiv(WrapInt((Clamp(level) + 1) * maxStars), MAX_LEVEL + 1)
  }

  /** Without wrap-around the star count is an ordinary floor division. */
  lemma NumStarsExact(level: int, maxStars: int)
    requires 0 <= maxStars <= MAX_INT / (MAX_LEVEL + 1)
    ensures GetNumStars(level, maxStars) == (Clamp(level) + 1) * maxStars / (MAX_LEVEL + 1)
  {
    StarProductFits(Clamp(level), maxStars);
  }

  /** Arithmetic helper of `NumStarsExact`: the star product cannot overflow an `int`. */
  lemma StarProductFits(c: int, maxStars: int)
    requires 0 <= c <= MAX_LEVEL && 0 <= maxStars <= MAX_INT / (MAX_LEVEL + 1)
    ensures 0 <= (c + 1) * maxStars <= MAX_INT
  {
    assert (c + 1) * maxStars <= (MAX_LEVEL + 1) * maxStars;
  }

  /** More progress never shows fewer stars. */
  lemma NumStarsMonotone(a: int, b: int, maxStars: int)
    requires a <= b && 0 <= maxStars <= MAX_INT / (MAX_LEVEL + 1)
    ensures GetNumStars(a, maxStars) <= GetNumStars(b, maxStars)
  {
    NumStarsExact(a, maxStars);
    NumStarsExact(b, maxStars);
    ClampMonotone(a, b);
    var ca, cb := Clamp(a) + 1, Clamp(b) + 1;
    MulLeft(maxStars, ca, cb);
    assert 0 <= ca * maxStars <= cb * maxStars by {
      assert ca * maxStars == maxStars * ca && cb * maxStars == maxStars * cb;
      MulLeft(maxStars, 0, ca);
    }
    DivMonotone(ca * maxStars, cb * maxStars, MAX_LEVEL + 1);
  }

  /** Arithmetic helper of `NumStarsMonotone`: division by a positive divisor keeps order. */
  lemma DivMonotone(x: int, y: int, d: int)
    requires 0 <= x <= y && 0 < d
    ensures x / d <= y / d
  {
    var qx, qy := x / d, y / d;
    assert x == d * qx + x % d && y == d * qy + y % d;
    if qx > qy {
      MulLeft(d, qy + 1, qx);
      assert false;
    }
  }

  /** From the top level on, every star is shown. */
  lemma NumStarsFull(level: int, maxStars: int)
    requires level >= MAX_LEVEL && 0 <= maxStars <= MAX_INT / (MAX_LEVEL + 1)
    ensures GetNumStars(level, maxStars) == maxStars
  {
    NumStarsExact(level, maxStars);
  }

  /** With four stars, as the score renderer uses, the star count is the clamped level. */
  lemma FourStarsShowLevel(level: int)
    ensures GetNumStars(level, 4) == Clamp(level)
  {
    NumStarsExact(level, 4);
  }

  // ---------------------------------------------------------------------------
  // Practice directions

  datatype Direction = FromForeign | ToForeign {

    function Value(): int
    {
      match this
      case FromForeign => 0
      case ToForeign => 1
    }

    function Suffix(): string
    {
      match this
      case FromForeign => "_from"
      case ToForeign => "_to"
    }

    function Action(): string
    {
      match this
      case FromForeign => "ro.undef.patois.intent.action.TRANSLATE_FROM_FOREIGN"
      case ToForeign => "ro.undef.patois.intent.action.TRANSLATE_TO_FOREIGN"
    }
  }

  /** `Direction.values()`, in declaration order. */
  const DIRECTIONS: seq<Direction> := [FromForeign, ToForeign]

  /** The first direction of `ds` whose value is `value`; `None` stands for the RuntimeException. */
  function FindByValue(ds: seq<Direction>, value: int): (r: Option<Direction>)
    ensures r.Some? ==> r.value in ds && r.value.Value() == value
    ensures r.None? ==> forall i :: 0 <= i < |ds| ==> ds[i].Value() != value
  {
    if ds == [] then None
    else if ds[0].Value() == value then Some(ds[0])
    else FindByValue(ds[1..], value)
  }

  /** The first direction of `ds` whose action string is `action`; `None` stands for the RuntimeException. */
  function FindByAction(ds: seq<Direction>, action: string): (r: Option<Direction>)
    ensures r.Some? ==> r.value in ds && r.value.Action() == action
    ensures r.None? ==> forall i :: 0 <= i < |ds| ==> ds[i].Action() != action
  {
    if ds == [] then None
    else if ds[0].Action() == action then Some(ds[0])
    else FindByAction(ds[1..], action)
  }

  /** `Direction.fromValue`; `None` stands for the RuntimeException an unknown value throws. */
  function FromValue(value: int): (r: Option<Direction>)
    ensures r.None? <==> value != 0 && value != 1
    ensures r.Some? ==> r.value.Value() == value
  {
    FindByValue(DIRECTIONS, value)
  }

  /** `Direction.fromAction`; `None` stands for the RuntimeException an unknown action throws. */
  function FromAction(action: string): (r: Option<Direction>)
    ensures r.None? <==> action != FromForeign.Action() && action != ToForeign.Action()
    ensures r.Some? ==> r.value.Action() == action
  {
    assert DIRECTIONS[0] == FromForeign && DIRECTIONS[1] == ToForeign;
    FindByAction(DIRECTIONS, action)
  }

  /** Decoding a direction's value gives the direction back. */
  lemma FromValueRoundTrip(d: Direction)
    ensures FromValue(d.Value()) == Some(d)
  {
  }

  /** Only 0 and 1 decode; every other value throws. */
  lemma FromValueDomain(value: int)
    ensures FromValue(value).Some? <==> (value == 0 || value == 1)
    ensures FromValue(value).Some? ==> FromValue(value).value.Value() == value
  {
    assert DIRECTIONS[0].Value() == 0 && DIRECTIONS[1].Value() == 1;
  }

  /** Decoding a direction's action gives the direction back. */
  lemma FromActionRoundTrip(d: Direction)
    ensures FromAction(d.Action()) == Some(d)
  {
    assert FromForeign.Action() != ToForeign.Action() by {
      assert FromForeign.Action()[40] != ToForeign.Action()[40];
    }
  }

  // ---------------------------------------------------------------------------
  // Practice state and its transition

  /** A word's key with its weight, as the store's weight query lists them. */
  datatype Weight = Weight(wordId: int, weight: int)

  /** The part of a `PracticeInfo` that a practice outcome changes. */
  datatype PracticeState = PracticeState(level: int, nextPractice: int)

  /**
   * What `updatePracticeInfo` stores: on success the next practice is scheduled
   * from the OLD level and the level is then incremented (a Java `int`, without a
   * cap); on failure the level drops to 0 and the next practice time is kept.
   */
  function AfterPractice(s: PracticeState, successful: bool, now: int): (t: PracticeState)
    ensures successful && MIN_INT <= s.level < MAX_INT ==> t.level == s.level + 1
    ensures successful && IsLong(now + GetInterval(s.level)) ==> t.nextPractice == now + GetInterval(s.level)
    ensures !successful ==> t == PracticeState(0, s.nextPractice)
  {
    if successful then
      PracticeState(WrapInt(s.level + 1), ScheduleNextPractice(now, s.level))
    else
      PracticeState(0, s.nextPractice)
  }

  /** One practice outcome: whether it succeeded and the time in seconds at which it was recorded. */
  datatype Outcome = Outcome(successful: bool, now: int)

  /** The state after applying `outcomes` in order to `s`. */
  function Replay(s: PracticeState, outcomes: seq<Outcome>): PracticeState
  {
    if outcomes == [] then s
    else
      var last := outcomes[|outcomes| - 1];
      AfterPractice(Replay(s, outcomes[..|outcomes| - 1]), last.successful, last.now)
  }

  /** The number of successes after the last failure of `outcomes`. */
  function TrailingSuccesses(outcomes: seq<Outcome>): (r: nat)
    ensures r <= |outcomes|
  {
    if outcomes == [] then 0
    else if outcomes[|outcomes| - 1].successful then TrailingSuccesses(outcomes[..|outcomes| - 1]) + 1
    else 0
  }

  predicate AllSuccessful(outcomes: seq<Outcome>)
  {
    forall i :: 0 <= i < |outcomes| ==> outcomes[i].successful
  }

  /**
   * The level after a run of practices is the number of successes since the last
   * failure, plus the starting level when there was no failure at all.
   */
  lemma {:induction false} ReplayLevel(s: PracticeState, outcomes: seq<Outcome>)
    requires 0 <= s.level && s.level + |outcomes| <= MAX_INT
    ensures Replay(s, outcomes).level ==
      if AllSuccessful(outcomes) then s.level + |outcomes| else TrailingSuccesses(outcomes)
  {
    if outcomes != [] {
      var init := outcomes[..|outcomes| - 1];
      ReplayLevel(s, init);
      assert AllSuccessful(outcomes) <==> AllSuccessful(init) && outcomes[|outcomes| - 1].successful by {
        if AllSuccessful(init) && outcomes[|outcomes| - 1].successful {
          forall i | 0 <= i < |outcomes| ensures outcomes[i].successful {
            if i < |init| { assert outcomes[i] == init[i]; }
          }
        }
        if AllSuccessful(outcomes) {
          forall i | 0 <= i < |init| ensures init[i].successful {
            assert init[i] == outcomes[i];
          }
        }
      }
    }
  }

  /** A level that starts non-negative stays non-negative, so the clamp only ever caps it from above. */
  lemma ReplayLevelNonNegative(s: PracticeState, outcomes: seq<Outcome>)
    requires 0 <= s.level && s.level + |outcomes| <= MAX_INT
    ensures 0 <= Replay(s, outcomes).level <= s.level + |outcomes|
  {
    ReplayLevel(s, outcomes);
  }

  /**
   * After a success, the stored next practice is `now` plus the interval of the level
   * one below the stored level: the interval always lags one level behind.
   */
  lemma IntervalLagsLevel(s: PracticeState, now: int)
    requires 0 <= s.level < MAX_INT && IsLong(now + GetInterval(s.level))
    ensures AfterPractice(s, true, now).nextPractice ==
      now + GetInterval(AfterPractice(s, true, now).level - 1)
  {
  }

  /** A first success from level 0 waits the level-0 interval (6 hours), not the level-1 one. */
  lemma FirstSuccessWaitsSixHours(nextPractice: int, now: int)
    requires IsLong(now + PRACTICE_INTERVALS[0])
    ensures AfterPractice(PracticeState(0, nextPractice), true, now) == PracticeState(1, now + 6 * 60 * 60)
  {
  }

  /** The level has no cap: it wraps at Java's `Integer.MAX_VALUE`, and the clamp then reads it as 0. */
  lemma LevelWrapsAtIntMax(nextPractice: int, now: int)
    ensures AfterPractice(PracticeState(MAX_INT, nextPractice), true, now).level == MIN_INT
    ensures Clamp(AfterPractice(PracticeState(MAX_INT, nextPractice), true, now).level) == 0
  {
  }

  /** The record `mDb.getPracticeInfo` returns; `updatePracticeInfo` updates it in place. */
  class PracticeInfo {
    var direction: Direction
    var level: int
    var nextPractice: int

    constructor (direction: Direction, level: int, nextPractice: int)
      ensures this.direction == direction && this.level == level && this.nextPractice == nextPractice
    {
      this.direction := direction;
      this.level := level;
      this.nextPractice := nextPractice;
    }

    function State(): PracticeState
      reads this
    {
      PracticeState(level, nextPractice)
    }
  }

  /** The call `mDb.updatePracticeInfo(word, info, version, successful)`. */
  datatype PracticeWrite = PracticeWrite(wordId: int, direction: Direction, level: int, nextPractice: int,
                                         version: int, successful: bool)

  method UpdatePracticeInfo(wordId: int, info: PracticeInfo, successful: bool, now: int) returns (w: PracticeWrite)
    modifies info
    ensures info.State() == AfterPractice(old(info.State()), successful, now)
    ensures info.direction == old(info.direction)
    ensures w == PracticeWrite(wordId, info.direction, info.level, info.nextPractice, TRAINER_VERSION, successful)
  {
    if successful {
      info.nextPractice := ScheduleNextPractice(now, info.level);
      info.level := WrapInt(info.level + 1);
    } else {
      info.level := 0;
    }
    w := PracticeWrite(wordId, info.direction, info.level, info.nextPractice, TRAINER_VERSION, successful);
  }

  // ---------------------------------------------------------------------------
  // Weighted selection

  /** The sum of the weights, accumulated front to back. */
  function TotalWeight(ws: seq<Weight>): (r: int)
    ensures (forall i :: 0 <= i < |ws| ==> ws[i].weight >= 0) ==>
      0 <= r && (forall i :: 0 <= i < |ws| ==> ws[i].weight <= r) &&
      (r == 0 <==> forall i :: 0 <= i < |ws| ==> ws[i].weight == 0)
  {
    if ws == [] then 0 else TotalWeight(ws[..|ws| - 1]) + ws[|ws| - 1].weight
  }

  /** The largest weight, starting from -1 as the loop does. */
  function MaxWeight(ws: seq<Weight>): (r: int)
    ensures forall i :: 0 <= i < |ws| ==> ws[i].weight <= r
    ensures -1 <= r
    ensures r == -1 || exists i :: 0 <= i < |ws| && ws[i].weight == r
  {
    if ws == [] then -1
    else
      var m := MaxWeight(ws[..|ws| - 1]);
      assert forall i :: 0 <= i < |ws| - 1 ==> ws[..|ws| - 1][i] == ws[i];
      if ws[|ws| - 1].weight > m then ws[|ws| - 1].weight else m
  }

  predicate NonNegative(ws: seq<Weight>)
  {
    forall i :: 0 <= i < |ws| ==> ws[i].weight >= 0
  }

  /** `2 * maxWeight * numWeights / totalWeight + 1`: twice the expected number of attempts, plus one. */
  function NumAttempts(maxWeight: int, numWeights: nat, totalWeight: int): (r: int)
    requires 0 <= maxWeight <= totalWeight && 0 < totalWeight
    ensures 1 <= r <= 2 * numWeights + 1
  {
    BudgetBound(maxWeight, numWeights, totalWeight);
    2 * maxWeight * numWeights / totalWeight + 1
  }

  /** The attempt budget of a weight list with a positive total. */
  function AttemptBudget(ws: seq<Weight>): (r: int)
    requires NonNegative(ws) && TotalWeight(ws) > 0
    ensures 1 <= r <= 2 * |ws| + 1
  {
    MaxWeightPositive(ws);
    NumAttempts(MaxWeight(ws), |ws|, TotalWeight(ws))
  }

  /** Arithmetic helper of `NumAttempts`: `2 * m * n / t` lies in [0, 2n] when `0 <= m <= t`. */
  lemma BudgetBound(m: int, n: nat, t: int)
    requires 0 <= m <= t && 0 < t
    ensures 0 <= 2 * m * n / t <= 2 * n
  {
    var k: nat := 2 * n;
    assert 2 * m * n == k * m;
    MulLeft(k, m, t);
    MulLeft(k, 0, m);
    DivAtMost(k * m, t, k);
  }

  /** Arithmetic helper of `BudgetBound`, `DivAtMost`, `DivMonotone` and `NumStarsMonotone`: multiplying by a natural keeps order. */
  lemma MulLeft(k: nat, a: int, b: int)
    requires a <= b
    ensures k * a <= k * b
  {
  }

  /** Arithmetic helper of `BudgetBound`: a quotient of at most `k * t` by `t` is at most `k`. */
  lemma DivAtMost(a: int, t: int, k: int)
    requires 0 < t && 0 <= a <= k * t
    ensures 0 <= a / t <= k
  {
    var q := a / t;
    assert a == t * q + a % t;
    if q > k {
      MulLeft(t, k + 1, q);
      assert false;
    }
  }

  /** With non-negative weights and a positive total, the largest weight is positive, so `nextLong(maxWeight)` cannot throw. */
  lemma MaxWeightPositive(ws: seq<Weight>)
    requires NonNegative(ws) && TotalWeight(ws) > 0
    ensures 0 < MaxWeight(ws) <= TotalWeight(ws)
  {
  }

  /** The weight of the entry picked on attempt `k`. */
  function PickedWeight(ws: seq<Weight>, pickAt: nat -> int, k: nat): int
  {
    if 0 <= pickAt(k) < |ws| then ws[pickAt(k)].weight else 0
  }

  /** Attempt `k` is accepted: the random weight drawn is below the picked entry's weight. */
  predicate AttemptAccepted(ws: seq<Weight>, pickAt: nat -> int, drawAt: nat -> int, k: nat)
  {
    drawAt(k) < PickedWeight(ws, pickAt, k)
  }

  /**
   * Attempt `b` of the first `n` picked a highest weight among them, and every
   * earlier attempt picked a strictly lower one: the fallback's `best`.
   */
  predicate IsBestDrawn(ws: seq<Weight>, pickAt: nat -> int, n: nat, b: nat)
  {
    && b < n
    && (forall j: nat :: j < n ==> PickedWeight(ws, pickAt, j) <= PickedWeight(ws, pickAt, b))
    && (forall j: nat :: j < b ==> PickedWeight(ws, pickAt, j) < PickedWeight(ws, pickAt, b))
  }

  /** The first loop of `selectWord`: the total and the largest weight, in one pass. */
  method SumAndMax(weights: seq<Weight>) returns (totalWeight: int, maxWeight: int)
    ensures totalWeight == TotalWeight(weights) && maxWeight == MaxWeight(weights)
  {
    maxWeight := -1;
    totalWeight := 0;
    var i := 0;
    while i < |weights|
      invariant 0 <= i <= |weights|
      invariant totalWeight == TotalWeight(weights[..i])
      invariant maxWeight == MaxWeight(weights[..i])
    {
      assert weights[..i + 1][..i] == weights[..i];
      totalWeight := totalWeight + weights[i].weight;
      if weights[i].weight > maxWeight {
        maxWeight := weights[i].weight;
      }
      i := i + 1;
    }
    assert weights[..i] == weights;
  }

  datatype Selection = EmptyException | Selected(wordId: int)

  /**
   * `selectWord`: rejection sampling over `weights` with a bounded number of
   * attempts, falling back to the heaviest entry drawn. `attempts` is the number of
   * loop iterations performed.
   */
  method SelectWord(weights: seq<Weight>, pickAt: nat -> int, drawAt: nat -> int)
    returns (r: Selection, attempts: nat)
    requires NonNegative(weights)
    requires forall k: nat :: |weights| > 0 ==> 0 <= pickAt(k) < |weights|
    ensures r.EmptyException? <==> (|weights| == 0 || TotalWeight(weights) == 0)
    ensures r.Selected? ==> 1 <= attempts <= AttemptBudget(weights)
    ensures r.Selected? ==> forall k: nat :: k < attempts - 1 ==> !AttemptAccepted(weights, pickAt, drawAt, k)
    ensures r.Selected? && AttemptAccepted(weights, pickAt, drawAt, attempts - 1) ==>
      r.wordId == weights[pickAt(attempts - 1)].wordId
    ensures r.Selected? && !AttemptAccepted(weights, pickAt, drawAt, attempts - 1) ==>
      && attempts == AttemptBudget(weights)
      && exists b: nat :: IsBestDrawn(weights, pickAt, attempts, b) && r.wordId == weights[pickAt(b)].wordId
    ensures r.Selected? ==> exists i :: 0 <= i < |weights| && weights[i].wordId == r.wordId
  {
    var numWeights := |weights|;
    var totalWeight, maxWeight := SumAndMax(weights);

    if numWeights == 0 || totalWeight == 0 {
      return EmptyException, 0;
    }

    MaxWeightPositive(weights);
    var numAttempts := NumAttempts(maxWeight, numWeights, totalWeight);
    var best: Option<Weight> := None;
    ghost var bestAt: nat := 0;
    attempts := 0;
    while numAttempts > 0
      invariant 0 <= numAttempts && attempts + numAttempts == AttemptBudget(weights)
      invariant forall k: nat :: k < attempts ==> !AttemptAccepted(weights, pickAt, drawAt, k)
      invariant best.None? <==> attempts == 0
      invariant best.Some? ==> IsBestDrawn(weights, pickAt, attempts, bestAt) && best.value == weights[pickAt(bestAt)]
    {
      numAttempts := numAttempts - 1;
      var picked := weights[pickAt(attempts)];
      var randomWeight := drawAt(attempts);
      attempts := attempts + 1;

      if randomWeight < picked.weight {
        return Selected(picked.wordId), attempts;
      }

      if best.None? || best.value.weight < picked.weight {
        best := Some(picked);
        bestAt := attempts - 1;
      }
    }
    return Selected(best.value.wordId), attempts;
  }

  /**
   * A zero-weight word can be accepted: for any largest weight of at least 2 there is
   * a generator output for which `nextLong(maxWeight)` returns a negative value, and
   * a negative draw is below a weight of 0.
   */
  lemma ZeroWeightCanBeAccepted(maxWeight: int)
    requires 2 <= maxWeight && IsLong(maxWeight)
    ensures exists raw :: IsLong(raw) && JavaRandom.Accepts(JavaRandom.Bits(raw), maxWeight)
                          && JRem(JavaRandom.Bits(raw), maxWeight) < 0
  {
    JavaRandom.NegativeValueWitness(maxWeight);
    assert IsLong(-1);
  }
}
