/** The gas limit of the next block, in 64-bit arithmetic (section 4.3.4 of the Ethereum Yellow
    Paper bounds how far it may move). */
module GasLimit {
  import opened Basics

  const BOUND_DIVISOR := 1024
  const MIN_GAS_LIMIT := 5000

  function Contrib(used: nat): nat { Wrap(used + used / 2) / BOUND_DIVISOR }

  function Decay(limit: nat): nat { Wrap(limit / BOUND_DIVISOR - 1) }

  function CalcGasLimit(used: nat, parent: nat, floor: nat, ceil: nat): nat {
    var decay := Decay(parent);
    var raw := Wrap(parent - decay + Contrib(used));
    var limit := if raw < MIN_GAS_LIMIT then MIN_GAS_LIMIT else raw;
    if limit < floor then
      var up := Wrap(parent + decay);
      if up > floor then floor else up
    else if limit > ceil then
      var down := Wrap(parent - decay);
      if down < ceil then ceil else down
    else
      limit
  }

  /** Parent limits for which no intermediate sum leaves 64 bits. */
  predicate InRange(limit: nat) { MIN_GAS_LIMIT <= limit && limit + limit / 2 <= MAX_UINT64 }

  function Abs(x: int): nat { if x < 0 then -x else x }

  /** From this limit on a move is always below the consensus bound. */
  const SAFE_LIMIT := 5 * BOUND_DIVISOR

  predicate SmallMove(used: nat, parent: nat, floor: nat, ceil: nat) {
    Abs(CalcGasLimit(used, parent, floor, ceil) - parent) < parent / BOUND_DIVISOR
  }

  lemma MoveIsBounded(used: nat, parent: nat, floor: nat, ceil: nat)
    requires InRange(parent) && SAFE_LIMIT <= parent && used <= parent
    ensures SmallMove(used, parent, floor, ceil)
  {
    NoWrap(used, parent);
    FullBlocks(used, parent);
  }

  /** Below SAFE_LIMIT a full block moves the limit by the whole bound. */
  lemma FullBlockMovesTooFar(parent: nat)
    requires MIN_GAS_LIMIT <= parent < SAFE_LIMIT
    ensures !SmallMove(parent, parent, 0, MAX_UINT64)
  {
    NoWrap(parent, parent);
    assert parent / BOUND_DIVISOR == 4;
    assert 7500 <= parent + parent / 2 < 7680;
    assert Contrib(parent) == 7;
  }

  /** For limits at or above the minimum, the bound holds for every usage and every target exactly from SAFE_LIMIT on.
      */
  lemma BoundedExactlyFrom(parent: nat)
    requires InRange(parent)
    ensures SAFE_LIMIT <= parent <==>
            forall used: nat, floor: nat, ceil: nat :: used <= parent ==> SmallMove(used, parent, floor, ceil)
  {
    if SAFE_LIMIT <= parent {
      forall used: nat, floor: nat, ceil: nat | used <= parent
        ensures SmallMove(used, parent, floor, ceil)
      {
        MoveIsBounded(used, parent, floor, ceil);
      }
    } else {
      FullBlockMovesTooFar(parent);
    }
  }

  lemma NoWrap(used: nat, parent: nat)
    requires InRange(parent) && used <= parent
    ensures Decay(parent) == parent / BOUND_DIVISOR - 1 && Contrib(used) == (used + used / 2) / BOUND_DIVISOR
    ensures Wrap(parent + Decay(parent)) == parent + Decay(parent) &&
            Wrap(parent - Decay(parent)) == parent - Decay(parent)
    ensures Wrap(parent - Decay(parent) + Contrib(used)) == parent - Decay(parent) + Contrib(used)
  {
  }

  /** Even a full block contributes less than twice the decay. */
  lemma FullBlocks(used: nat, parent: nat)
    requires InRange(parent) && SAFE_LIMIT <= parent && used <= parent
    ensures Contrib(used) <= 2 * Decay(parent)
  {
    NoWrap(used, parent);
    var q := parent / BOUND_DIVISOR;
    assert used + used / 2 < 1536 * (q + 1);
    assert (used + used / 2) / BOUND_DIVISOR <= 2 * (q - 1);
  }

  // ---- how the limit follows the gas used ----

  /** What the parent's usage brings, and what is taken off whatever it was, in plain arithmetic. */
  function Gain(used: nat): nat { (used + used / 2) / BOUND_DIVISOR }

  function Loss(parent: nat): int { parent / BOUND_DIVISOR - 1 }

  /** The limit that usage alone asks for. */
  function Asked(used: nat, parent: nat): nat
    requires InRange(parent)
  {
    Greater(MIN_GAS_LIMIT, parent - Loss(parent) + Gain(used))
  }

  /** The outcome in the three cases: what usage asks for lies below the floor, above the ceiling, or between. */
  lemma ThreeCases(used: nat, parent: nat, floor: nat, ceil: nat)
    requires InRange(parent) && used <= parent
    ensures var asked, next := Asked(used, parent), CalcGasLimit(used, parent, floor, ceil);
            && (asked < floor ==> next == Lesser(floor, parent + Loss(parent)))
            && (floor <= asked && ceil < asked ==> next == Greater(ceil, parent - Loss(parent)))
            && (floor <= asked <= ceil ==> next == asked)
  {
    NoWrap(used, parent);
  }

  /** Between its targets the limit rises or falls by exactly the difference of gain and loss; after an empty block it
      falls by the whole loss. */
  lemma BetweenTargets(used: nat, parent: nat, floor: nat, ceil: nat)
    requires InRange(parent) && used <= parent
    requires var next := parent - Loss(parent) + Gain(used); MIN_GAS_LIMIT <= next && floor <= next <= ceil
    ensures CalcGasLimit(used, parent, floor, ceil) - parent == Gain(used) - Loss(parent)
    ensures used == 0 ==> parent - CalcGasLimit(used, parent, floor, ceil) == parent / BOUND_DIVISOR - 1
  {
    ThreeCases(used, parent, floor, ceil);
  }

  /** A parent between its targets: the limit rises exactly if the gain exceeds the loss, and falls exactly if it is
      below it, wherever the targets then stop it. */
  lemma FollowsUsage(used: nat, parent: nat, floor: nat, ceil: nat)
    requires InRange(parent) && used <= parent && MIN_GAS_LIMIT < parent && floor < parent < ceil
    ensures CalcGasLimit(used, parent, floor, ceil) > parent <==> Gain(used) > Loss(parent)
    ensures CalcGasLimit(used, parent, floor, ceil) < parent <==> Gain(used) < Loss(parent)
  {
    ThreeCases(used, parent, floor, ceil);
  }

  /** A parent used to two thirds raises the limit. */
  lemma TwoThirdsRaise(used: nat, parent: nat, floor: nat, ceil: nat)
    requires InRange(parent) && used <= parent && MIN_GAS_LIMIT < parent && floor < parent < ceil
    requires 3 * used >= 2 * parent
    ensures CalcGasLimit(used, parent, floor, ceil) > parent
  {
    assert used + used / 2 >= parent;
    FollowsUsage(used, parent, floor, ceil);
  }

  /** So does a parent used a little less. */
  lemma LessThanTwoThirdsRaises()
    ensures 3 * 6666240 < 2 * 10000000 && CalcGasLimit(6666240, 10000000, 8000000, 12000000) > 10000000
  {
    FollowsUsage(6666240, 10000000, 8000000, 12000000);
  }

  /** Out of reach of the floor or of the ceiling, the limit makes one whole step toward it, whatever was used. */
  lemma OutsideTargets(used: nat, parent: nat, floor: nat, ceil: nat)
    requires InRange(parent) && SAFE_LIMIT <= parent && used <= parent && floor <= ceil
    ensures parent + Loss(parent) <= floor ==> CalcGasLimit(used, parent, floor, ceil) == parent + Loss(parent)
    ensures ceil <= parent - Loss(parent) ==> CalcGasLimit(used, parent, floor, ceil) == parent - Loss(parent)
  {
    ThreeCases(used, parent, floor, ceil);
    NoWrap(used, parent);
    FullBlocks(used, parent);
  }

  /** More usage never gives a lower limit. */
  ghost predicate Monotone(floor: nat, ceil: nat) {
    forall less: nat, more: nat, parent: nat :: InRange(parent) && less <= more <= parent ==>
      CalcGasLimit(less, parent, floor, ceil) <= CalcGasLimit(more, parent, floor, ceil)
  }

  /** Exactly as long as the floor is not above the ceiling, or is no floor at all. */
  lemma MonotoneExactly(floor: nat, ceil: nat)
    requires InRange(floor) || floor < MIN_GAS_LIMIT
    ensures Monotone(floor, ceil) <==> floor <= ceil || floor <= MIN_GAS_LIMIT
  {
    if floor <= ceil || floor <= MIN_GAS_LIMIT {
      forall less: nat, more: nat, parent: nat | InRange(parent) && less <= more <= parent
        ensures CalcGasLimit(less, parent, floor, ceil) <= CalcGasLimit(more, parent, floor, ceil)
      {
        ThreeCases(less, parent, floor, ceil);
        ThreeCases(more, parent, floor, ceil);
      }
    } else {
      ThreeCases(0, floor, floor, ceil);
      ThreeCases(floor, floor, floor, ceil);
      assert CalcGasLimit(0, floor, floor, ceil) > CalcGasLimit(floor, floor, floor, ceil);
    }
  }

  // ---- how it approaches a target ----

  /** One step from `limit` toward `target`, by at most the decay. */
  function Toward(limit: nat, target: nat): nat {
    var decay := Decay(limit);
    if limit <= target then (if target <= limit + decay then target else limit + decay)
    else (if limit <= target + decay then target else limit - decay)
  }

  /** With floor and ceiling at one target the limit steps toward it, whatever the block used. */
  lemma StepsTowardTarget(used: nat, parent: nat, target: nat)
    requires InRange(parent) && SAFE_LIMIT <= parent && used <= parent && SAFE_LIMIT <= target
    ensures CalcGasLimit(used, parent, target, target) == Toward(parent, target)
  {
    NoWrap(used, parent);
    FullBlocks(used, parent);
  }

  /** Block limits that follow one another under a common target. */
  ghost predicate Chain(limits: seq<nat>, used: seq<nat>, target: nat) {
    && |used| + 1 == |limits|
    && forall i ::
         0 <= i < |used| ==> used[i] <= limits[i] && limits[i + 1] == CalcGasLimit(used[i], limits[i], target, target)
  }

  /** After n blocks the distance to the target has shrunk by n times the smallest decay on the way,
      and no block overshot: the limit stays between where it started and the target. */
  lemma {:induction false} Approaches(limits: seq<nat>, used: seq<nat>, target: nat, n: nat)
    requires Chain(limits, used, target) && n < |limits|
    requires InRange(limits[0]) && InRange(target) && SAFE_LIMIT <= limits[0] && SAFE_LIMIT <= target
    ensures limits[0] <= target ==> limits[0] <= limits[n] <= target
    ensures target <= limits[0] ==> target <= limits[n] <= limits[0]
    ensures limits[n] == target ||
            Abs(limits[n] - target) + n * Decay(Lesser(limits[0], target)) <= Abs(limits[0] - target)
  {
    if n > 0 {
      Approaches(limits, used, target, n - 1);
      assert limits[n - 1 + 1] == CalcGasLimit(used[n - 1], limits[n - 1], target, target);
      StepsTowardTarget(used[n - 1], limits[n - 1], target);
      var least := Lesser(limits[0], target);
      DecayGrows(least, limits[n - 1]);
      TowardCloser(limits[n - 1], target, Decay(least));
      TimesStep(n, Decay(least));
    }
  }

  lemma DecayGrows(a: nat, b: nat)
    requires InRange(a) && InRange(b) && a <= b
    ensures Decay(a) <= Decay(b)
  {
    NoWrap(0, a);
    NoWrap(0, b);
  }

  lemma TowardCloser(limit: nat, target: nat, step: nat)
    requires step <= Decay(limit) <= limit
    ensures var next := Toward(limit, target);
            && (limit <= target ==> limit <= next <= target) && (target <= limit ==> target <= next <= limit)
            && (next == target || Abs(next - target) + step <= Abs(limit - target))
  {
  }

  /** So the target is reached once that many decays make up the distance, and kept from then on. */
  lemma ReachesTarget(limits: seq<nat>, used: seq<nat>, target: nat, n: nat)
    requires Chain(limits, used, target) && n < |limits|
    requires InRange(limits[0]) && InRange(target) && SAFE_LIMIT <= limits[0] && SAFE_LIMIT <= target
    requires n * Decay(Lesser(limits[0], target)) >= Abs(limits[0] - target)
    ensures limits[n] == target
  {
    Approaches(limits, used, target, n);
  }

  lemma MoreTimes(n: nat, a: nat, b: nat)
    requires a <= b
    ensures n * a <= n * b
  {
  }

  lemma TimesStep(n: nat, d: nat)
    requires n > 0
    ensures n * d == (n - 1) * d + d
  {
  }

  /** Such an n always exists: the decay is at least 4. */
  lemma StepsSuffice(start: nat, target: nat)
    requires InRange(start) && InRange(target) && SAFE_LIMIT <= start && SAFE_LIMIT <= target
    ensures Decay(Lesser(start, target)) >= 4
    ensures ((Abs(start - target) + 3) / 4) * Decay(Lesser(start, target)) >= Abs(start - target)
  {
    var decay, n := Decay(Lesser(start, target)), (Abs(start - target) + 3) / 4;
    NoWrap(0, Lesser(start, target));
    MoreTimes(n, 4, decay);
  }
}
