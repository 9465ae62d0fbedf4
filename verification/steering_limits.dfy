/** The torque limiters of selfdrive/car/__init__.py, one step at a time and over whole runs. */
module SteeringLimits {

  // ---------------------------------------------------------------------------------------------
  // Rounding and clipping

  /** Python's `round`: to the nearest integer, halves to the even one. */
  function Round(x: real): (r: int)
    ensures r as real - 0.5 <= x <= r as real + 0.5
    ensures x == r as real + 0.5 || x == r as real - 0.5 ==> r % 2 == 0
  {
    var f := x.Floor;
    var d := x - f as real;
    if d < 0.5 || (d == 0.5 && f % 2 == 0) then f else f + 1
  }

  function Min(x: real, y: real): real { if x <= y then x else y }

  function Max(x: real, y: real): real { if x >= y then x else y }

  function Abs(x: int): nat { if x < 0 then -x else x }

  function Clip(x: real, lo: real, hi: real): real { Max(lo, Min(hi, x)) }

  function ClipInt(x: int, lo: int, hi: int): int {
    var y := if hi <= x then hi else x;
    if lo >= y then lo else y
  }

  lemma RoundIsMonotone(x: real, y: real)
    requires x <= y
    ensures Round(x) <= Round(y)
  {
  }

  lemma RoundOfInt(n: int)
    ensures Round(n as real) == n
  {
  }

  lemma RoundIsOdd(x: real)
    ensures Round(-x) == -Round(x)
  {
  }

  /** Rounding after clipping to whole bounds is clipping after rounding. */
  lemma RoundOfClip(x: real, lo: int, hi: int)
    ensures Round(Clip(x, lo as real, hi as real)) == ClipInt(Round(x), lo, hi)
  {
    RoundOfInt(lo);
    RoundOfInt(hi);
    if x <= hi as real { RoundIsMonotone(x, hi as real); } else { RoundIsMonotone(hi as real, x); }
    if x <= lo as real { RoundIsMonotone(x, lo as real); } else { RoundIsMonotone(lo as real, x); }
  }

  // ---------------------------------------------------------------------------------------------
  // The limiters

  /** What the limiters read of a car's `LIMITS`. */
  datatype Limits = Limits(steerMax: nat, up: nat, down: nat, allowance: int, factor: int, multiplier: int, errorMax: nat)

  /** "Slow rate if steer torque increases in magnitude", the second half of both limiters. */
  function Rate(x: real, last: real, up: nat, down: nat): real {
    if last > 0.0
    then Clip(x, Max(last - down as real, -(up as real)), last + up as real)
    else Clip(x, last - up as real, Min(last + down as real, up as real))
  }

  function Scaled(x: real, k: int): real { x * k as real }

  function DriverMax(driver: real, l: Limits): real {
    l.steerMax as real + Scaled(l.allowance as real + Scaled(driver, l.factor), l.multiplier)
  }

  function DriverMin(driver: real, l: Limits): real {
    -(l.steerMax as real) + Scaled(-(l.allowance as real) + Scaled(driver, l.factor), l.multiplier)
  }

  /** The command within what the driver's torque allows. */
  function DriverTarget(command: real, driver: real, l: Limits): real {
    Clip(command, Min(Max(-(l.steerMax as real), DriverMin(driver, l)), 0.0),
         Max(Min(l.steerMax as real, DriverMax(driver, l)), 0.0))
  }

  /** The value within what the measured one allows. */
  function MeasTarget(val: real, meas: real, errorMax: nat, steerMax: nat): real {
    var e := errorMax as real;
    Clip(val, Max(Min(meas - e, -e), -(steerMax as real)), Min(Max(meas + e, e), steerMax as real))
  }

  /** `apply_driver_steer_torque_limits` */
  function DriverLimit(command: real, last: int, driver: real, l: Limits): int {
    Round(Rate(DriverTarget(command, driver, l), last as real, l.up, l.down))
  }

  /** `apply_dist_to_meas_limits` */
  function DistToMeas(val: real, last: real, meas: real, l: Limits): real {
    Rate(MeasTarget(val, meas, l.errorMax, l.steerMax), last, l.up, l.down)
  }

  /** `apply_meas_steer_torque_limits` */
  function MeasLimit(command: real, last: int, measured: real, l: Limits): int {
    Round(DistToMeas(command, last as real, measured, l))
  }

  // ---------------------------------------------------------------------------------------------
  // The same on whole numbers

  /** The nearest whole torque to a whole target that can be reached in one step: away from zero by `up`, towards zero by
      `down`, and past zero by at most `up`. */
  function Ramp(target: int, last: int, up: nat, down: nat): (r: int) {
    if last > 0
    then ClipInt(target, if last - down >= 0 - up then last - down else 0 - up, last + up)
    else ClipInt(target, last - up, if last + down <= up then last + down else up)
  }

  lemma RateIsClip(x: real, last: int, up: nat, down: nat)
    ensures var lo := if last <= 0 then last - up else if last - down >= 0 - up then last - down else 0 - up;
      var hi := if last > 0 then last + up else if last + down <= up then last + down else up;
      && Rate(x, last as real, up, down) == Clip(x, lo as real, hi as real)
      && Ramp(Round(x), last, up, down) == ClipInt(Round(x), lo, hi)
  {
  }

  lemma RateIsRamp(x: real, last: int, up: nat, down: nat)
    ensures Round(Rate(x, last as real, up, down)) == Ramp(Round(x), last, up, down)
  {
    RateIsClip(x, last, up, down);
    var lo := if last <= 0 then last - up else if last - down >= 0 - up then last - down else 0 - up;
    var hi := if last > 0 then last + up else if last + down <= up then last + down else up;
    RoundOfClip(x, lo, hi);
  }

  lemma DriverLimitIsRamp(command: real, last: int, driver: real, l: Limits)
    ensures DriverLimit(command, last, driver, l) == Ramp(Round(DriverTarget(command, driver, l)), last, l.up, l.down)
  {
    RateIsRamp(DriverTarget(command, driver, l), last, l.up, l.down);
  }

  lemma MeasLimitIsRamp(command: real, last: int, measured: real, l: Limits)
    ensures MeasLimit(command, last, measured, l)
         == Ramp(Round(MeasTarget(command, measured, l.errorMax, l.steerMax)), last, l.up, l.down)
  {
    RateIsRamp(MeasTarget(command, measured, l.errorMax, l.steerMax), last, l.up, l.down);
  }

  /** A whole number can be reached in one step. */
  predicate Reachable(n: int, last: int, up: nat, down: nat) {
    if last > 0 then last - down <= n <= last + up && 0 - up <= n
    else last - up <= n <= last + down && n <= up
  }

  /** The limiter takes the reachable torque that is nearest to the target. */
  lemma RampIsNearest(target: int, last: int, up: nat, down: nat)
    ensures Reachable(Ramp(target, last, up, down), last, up, down)
    ensures forall n :: Reachable(n, last, up, down) ==> Abs(target - Ramp(target, last, up, down)) <= Abs(target - n)
    ensures Reachable(target, last, up, down) <==> Ramp(target, last, up, down) == target
  {
  }

  lemma RoundWithin(x: real, m: nat)
    requires -(m as real) <= x <= m as real
    ensures Abs(Round(x)) <= m
  {
  }

  lemma TargetsWithin(command: real, other: real, l: Limits)
    ensures Abs(Round(DriverTarget(command, other, l))) <= l.steerMax
    ensures Abs(Round(MeasTarget(command, other, l.errorMax, l.steerMax))) <= l.steerMax
  {
    ClipIsWithin(command, DriverMin(other, l), DriverMax(other, l), l.steerMax);
    RoundWithin(DriverTarget(command, other, l), l.steerMax);
    RoundWithin(MeasTarget(command, other, l.errorMax, l.steerMax), l.steerMax);
  }

  lemma ClipIsWithin(x: real, lo: real, hi: real, m: nat)
    ensures -(m as real) <= Clip(x, Min(Max(-(m as real), lo), 0.0), Max(Min(m as real, hi), 0.0)) <= m as real
  {
  }

  lemma RampIsBounded(target: int, last: int, up: nat, down: nat, m: nat)
    ensures Abs(Ramp(target, last, up, down)) <= Abs(last) + up
    ensures Abs(last) <= m && Abs(target) <= m ==> Abs(Ramp(target, last, up, down)) <= m
  {
  }

  /** One step of the limiter by the driver's torque, for any inputs. */
  lemma DriverStepIsBounded(command: real, last: int, driver: real, l: Limits)
    ensures Abs(DriverLimit(command, last, driver, l)) <= Abs(last) + l.up
    ensures Abs(last) <= l.steerMax ==> Abs(DriverLimit(command, last, driver, l)) <= l.steerMax
  {
    TargetsWithin(command, driver, l);
    DriverLimitIsRamp(command, last, driver, l);
    RampIsBounded(Round(DriverTarget(command, driver, l)), last, l.up, l.down, l.steerMax);
  }

  /** One step of the limiter by the measured torque, for any inputs. */
  lemma MeasStepIsBounded(command: real, last: int, measured: real, l: Limits)
    ensures Abs(MeasLimit(command, last, measured, l)) <= Abs(last) + l.up
    ensures Abs(last) <= l.steerMax ==> Abs(MeasLimit(command, last, measured, l)) <= l.steerMax
  {
    TargetsWithin(command, measured, l);
    MeasLimitIsRamp(command, last, measured, l);
    RampIsBounded(Round(MeasTarget(command, measured, l.errorMax, l.steerMax)), last, l.up, l.down, l.steerMax);
  }

  // ---------------------------------------------------------------------------------------------
  // Runs

  /** One control step: what the planner asks for, and the driver's (or the motor's) torque. */
  datatype Input = Input(command: real, torque: real)

  /** The torques of a run, the first one being `start`. */
  function DriverRun(start: int, inputs: seq<Input>, l: Limits): (r: seq<int>)
    ensures |r| == |inputs| + 1
  {
    if inputs == [] then [start]
    else
      var n := |inputs| - 1;
      var before := DriverRun(start, inputs[..n], l);
      before + [DriverLimit(inputs[n].command, before[n], inputs[n].torque, l)]
  }

  function MeasRun(start: int, inputs: seq<Input>, l: Limits): (r: seq<int>)
    ensures |r| == |inputs| + 1
  {
    if inputs == [] then [start]
    else
      var n := |inputs| - 1;
      var before := MeasRun(start, inputs[..n], l);
      before + [MeasLimit(inputs[n].command, before[n], inputs[n].torque, l)]
  }

  /** A sequence of torques follows a sequence of targets. */
  ghost predicate Follows(torques: seq<int>, targets: seq<int>, up: nat, down: nat) {
    && |torques| == |targets| + 1
    && forall k :: 0 <= k < |targets| ==> torques[k + 1] == Ramp(targets[k], torques[k], up, down)
  }

  function DriverTargets(inputs: seq<Input>, l: Limits): seq<int> {
    seq(|inputs|, k requires 0 <= k < |inputs| => Round(DriverTarget(inputs[k].command, inputs[k].torque, l)))
  }

  function MeasTargets(inputs: seq<Input>, l: Limits): seq<int> {
    seq(|inputs|, k requires 0 <= k < |inputs| =>
      Round(MeasTarget(inputs[k].command, inputs[k].torque, l.errorMax, l.steerMax)))
  }

  lemma FollowsMore(torques: seq<int>, targets: seq<int>, t: int, up: nat, down: nat)
    requires Follows(torques, targets, up, down)
    ensures Follows(torques + [Ramp(t, torques[|targets|], up, down)], targets + [t], up, down)
  {
  }

  lemma {:induction false} DriverRunFollows(start: int, inputs: seq<Input>, l: Limits)
    ensures Follows(DriverRun(start, inputs, l), DriverTargets(inputs, l), l.up, l.down)
    ensures DriverRun(start, inputs, l)[0] == start
  {
    if inputs != [] {
      var n := |inputs| - 1;
      var i := inputs[n];
      DriverRunFollows(start, inputs[..n], l);
      var before := DriverRun(start, inputs[..n], l);
      FollowsMore(before, DriverTargets(inputs[..n], l), Round(DriverTarget(i.command, i.torque, l)), l.up, l.down);
      DriverLimitIsRamp(i.command, before[n], i.torque, l);
      assert DriverTargets(inputs, l) == DriverTargets(inputs[..n], l) + [Round(DriverTarget(i.command, i.torque, l))];
    }
  }

  lemma {:induction false} MeasRunFollows(start: int, inputs: seq<Input>, l: Limits)
    ensures Follows(MeasRun(start, inputs, l), MeasTargets(inputs, l), l.up, l.down)
    ensures MeasRun(start, inputs, l)[0] == start
  {
    if inputs != [] {
      var n := |inputs| - 1;
      var i := inputs[n];
      var t := Round(MeasTarget(i.command, i.torque, l.errorMax, l.steerMax));
      MeasRunFollows(start, inputs[..n], l);
      var before := MeasRun(start, inputs[..n], l);
      FollowsMore(before, MeasTargets(inputs[..n], l), t, l.up, l.down);
      MeasLimitIsRamp(i.command, before[n], i.torque, l);
      assert MeasTargets(inputs, l) == MeasTargets(inputs[..n], l) + [t];
    }
  }

  // ---------------------------------------------------------------------------------------------
  // What every run keeps

  ghost predicate AllWithin(s: seq<int>, m: nat) {
    forall k :: 0 <= k < |s| ==> Abs(s[k]) <= m
  }

  lemma {:induction false} WithinStays(torques: seq<int>, targets: seq<int>, up: nat, down: nat, m: nat, k: nat)
    requires Follows(torques, targets, up, down) && AllWithin(targets, m) && Abs(torques[0]) <= m && k <= |targets|
    ensures Abs(torques[k]) <= m
  {
    if k > 0 {
      WithinStays(torques, targets, up, down, m, k - 1);
      assert torques[k - 1 + 1] == Ramp(targets[k - 1], torques[k - 1], up, down);
    }
  }

  /** In a run from a start within bounds the torque stays within bounds, and never grows by more than `up` in a step. */
  lemma RunsAreBounded(start: int, inputs: seq<Input>, l: Limits)
    requires Abs(start) <= l.steerMax
    ensures AllWithin(DriverRun(start, inputs, l), l.steerMax) && AllWithin(MeasRun(start, inputs, l), l.steerMax)
  {
    DriverRunFollows(start, inputs, l);
    MeasRunFollows(start, inputs, l);
    forall k | 0 <= k < |inputs|
      ensures Abs(DriverTargets(inputs, l)[k]) <= l.steerMax && Abs(MeasTargets(inputs, l)[k]) <= l.steerMax
    {
      TargetsWithin(inputs[k].command, inputs[k].torque, l);
    }
    forall k | 0 <= k <= |inputs|
      ensures Abs(DriverRun(start, inputs, l)[k]) <= l.steerMax && Abs(MeasRun(start, inputs, l)[k]) <= l.steerMax
    {
      WithinStays(DriverRun(start, inputs, l), DriverTargets(inputs, l), l.up, l.down, l.steerMax, k);
      WithinStays(MeasRun(start, inputs, l), MeasTargets(inputs, l), l.up, l.down, l.steerMax, k);
    }
  }

  lemma MulStep(k: nat, d: nat)
    requires k > 0
    ensures k * d == (k - 1) * d + d
  {
  }

  /** Whatever the targets, the torque is at most `up` per step away from zero. */
  lemma {:induction false} GrowthIsLinear(torques: seq<int>, targets: seq<int>, up: nat, down: nat, k: nat)
    requires Follows(torques, targets, up, down) && k <= |targets|
    ensures Abs(torques[k]) <= Abs(torques[0]) + k * up
  {
    if k > 0 {
      GrowthIsLinear(torques, targets, up, down, k - 1);
      assert torques[k - 1 + 1] == Ramp(targets[k - 1], torques[k - 1], up, down);
      MulStep(k, up);
    }
  }

  /** While no target is above `b`, what is above `b` shrinks by `down` in every step, and nothing rises above `b` again. */
  lemma {:induction false} ForcedDown(torques: seq<int>, targets: seq<int>, up: nat, down: nat, b: nat, k: nat)
    requires Follows(torques, targets, up, down) && k <= |targets|
    requires forall i :: 0 <= i < |targets| ==> targets[i] <= b
    ensures torques[k] <= b || torques[k] <= torques[0] - k * down
  {
    if k > 0 {
      ForcedDown(torques, targets, up, down, b, k - 1);
      assert torques[k - 1 + 1] == Ramp(targets[k - 1], torques[k - 1], up, down);
      MulStep(k, down);
    }
  }

  /** The same upwards. */
  lemma {:induction false} ForcedUp(torques: seq<int>, targets: seq<int>, up: nat, down: nat, b: int, k: nat)
    requires Follows(torques, targets, up, down) && k <= |targets| && b <= 0
    requires forall i :: 0 <= i < |targets| ==> targets[i] >= b
    ensures torques[k] >= b || torques[k] >= torques[0] + k * down
  {
    if k > 0 {
      ForcedUp(torques, targets, up, down, b, k - 1);
      assert torques[k - 1 + 1] == Ramp(targets[k - 1], torques[k - 1], up, down);
      MulStep(k, down);
    }
  }

  lemma ScaledIs(x: real, k: int)
    ensures Scaled(x, k) == x * k as real
  {
  }

  lemma ScaledSign(x: real, k: int)
    requires x >= 0.0 && k >= 0
    ensures Scaled(x, k) >= 0.0
  {
  }

  /** A driver whose scaled torque is within the allowance does not restrict the command. */
  lemma WithinAllowance(command: real, driver: real, l: Limits)
    requires l.multiplier >= 0
    requires -(l.allowance as real) <= Scaled(driver, l.factor) <= l.allowance as real
    ensures DriverTarget(command, driver, l) == Clip(command, -(l.steerMax as real), l.steerMax as real)
  {
    var share := Scaled(driver, l.factor);
    ScaledSign(l.allowance as real + share, l.multiplier);
    ScaledSign(l.allowance as real - share, l.multiplier);
    ScaledIsOdd(l.allowance as real - share, l.multiplier);
    assert -(l.allowance as real - share) == -(l.allowance as real) + share;
  }

  /** `x` is the largest torque to the right that goes with the driver's torque. */
  predicate IsRightLimit(x: real, driver: real, l: Limits) {
    x == l.steerMax as real + (l.allowance as real + driver * l.factor as real) * l.multiplier as real
  }

  predicate IsLeftLimit(x: real, driver: real, l: Limits) {
    x == -(l.steerMax as real) + (-(l.allowance as real) + driver * l.factor as real) * l.multiplier as real
  }

  lemma RightLimitIs(x: real, driver: real, l: Limits)
    requires IsRightLimit(x, driver, l)
    ensures DriverMax(driver, l) == x
  {
  }

  lemma LeftLimitIs(x: real, driver: real, l: Limits)
    requires IsLeftLimit(x, driver, l)
    ensures DriverMin(driver, l) == x
  {
  }

  /** What the driver's torque makes of a command to the right: nothing from the point on where the limit is not positive, and up
      to that point the smallest of the command, the limit and the maximum. */
  lemma TargetToTheRight(command: real, driver: real, l: Limits, x: real)
    requires IsRightLimit(x, driver, l)
    ensures x <= 0.0 ==> DriverTarget(command, driver, l) <= 0.0
    ensures x >= 0.0 ==> DriverTarget(command, driver, l) <= x
    ensures command >= 0.0 && x <= 0.0 ==> DriverTarget(command, driver, l) == 0.0
    ensures command >= 0.0 && x >= 0.0 ==>
      && DriverTarget(command, driver, l) in {command, x, l.steerMax as real}
      && DriverTarget(command, driver, l) <= command && DriverTarget(command, driver, l) <= l.steerMax as real
  {
    RightLimitIs(x, driver, l);
    TargetUpTo(command, driver, l, x, DriverMin(driver, l));
  }

  lemma TargetToTheLeft(command: real, driver: real, l: Limits, x: real)
    requires IsLeftLimit(x, driver, l)
    ensures x >= 0.0 ==> DriverTarget(command, driver, l) >= 0.0
    ensures x <= 0.0 ==> DriverTarget(command, driver, l) >= x
    ensures command <= 0.0 && x >= 0.0 ==> DriverTarget(command, driver, l) == 0.0
    ensures command <= 0.0 && x <= 0.0 ==>
      && DriverTarget(command, driver, l) in {command, x, -(l.steerMax as real)}
      && DriverTarget(command, driver, l) >= command && DriverTarget(command, driver, l) >= -(l.steerMax as real)
  {
    LeftLimitIs(x, driver, l);
    TargetUpTo(command, driver, l, DriverMax(driver, l), x);
  }

  lemma TargetUpTo(command: real, driver: real, l: Limits, right: real, left: real)
    requires DriverMax(driver, l) == right && DriverMin(driver, l) == left
    ensures DriverTarget(command, driver, l)
         == Clip(command, Min(Max(-(l.steerMax as real), left), 0.0), Max(Min(l.steerMax as real, right), 0.0))
  {
  }

  /** Each further unit of torque against the command takes `factor * multiplier` off what a large command gets. */
  lemma EachUnitCosts(command: real, driver: real, l: Limits, x: real, y: real)
    requires 0 <= l.factor && 0 <= l.multiplier && IsRightLimit(x, driver, l) && IsRightLimit(y, driver - 1.0, l)
    requires 0.0 <= y && x <= l.steerMax as real <= command
    ensures DriverTarget(command, driver - 1.0, l) == DriverTarget(command, driver, l) - (l.factor * l.multiplier) as real
  {
    UnitLess(driver, l.factor, l.multiplier, l.allowance as real);
    assert y == x - (l.factor * l.multiplier) as real;
    NotNegative(l.factor, l.multiplier);
    TargetToTheRight(command, driver, l, x);
    TargetToTheRight(command, driver - 1.0, l, y);
  }

  lemma UnitLess(driver: real, f: int, m: int, a: real)
    ensures (a + (driver - 1.0) * f as real) * m as real == (a + driver * f as real) * m as real - (f * m) as real
  {
    var s, r := driver * f as real, m as real;
    assert (driver - 1.0) * f as real == s - f as real;
    assert (f * m) as real == f as real * r;
    assert (a + s - f as real) * r == (a + s) * r - f as real * r;
  }

  /** A driver who pulls to the left restricts the torque to the right: while the limit does not exceed `m`, whatever is above
      `m` falls by `down` per step, and nothing rises above `m` again. With `m` zero, the driver gets rid of the torque. */
  lemma DriverRestrictsRight(start: int, inputs: seq<Input>, l: Limits, limits: seq<real>, m: nat, k: nat)
    requires k <= |inputs| == |limits|
    requires forall i :: 0 <= i < |inputs| ==> IsRightLimit(limits[i], inputs[i].torque, l) && limits[i] <= m as real
    ensures DriverRun(start, inputs, l)[k] <= m || DriverRun(start, inputs, l)[k] <= start - k * l.down
    ensures start - k * l.down <= m ==> DriverRun(start, inputs, l)[k] <= m
  {
    DriverRunFollows(start, inputs, l);
    forall i | 0 <= i < |inputs|
      ensures DriverTargets(inputs, l)[i] <= m
    {
      TargetToTheRight(inputs[i].command, inputs[i].torque, l, limits[i]);
      RoundIsMonotone(DriverTarget(inputs[i].command, inputs[i].torque, l), m as real);
      RoundOfInt(m);
    }
    ForcedDown(DriverRun(start, inputs, l), DriverTargets(inputs, l), l.up, l.down, m, k);
  }

  /** The same for a driver who pulls to the right and a torque to the left. */
  lemma DriverRestrictsLeft(start: int, inputs: seq<Input>, l: Limits, limits: seq<real>, m: int, k: nat)
    requires m <= 0 && k <= |inputs| == |limits|
    requires forall i :: 0 <= i < |inputs| ==> IsLeftLimit(limits[i], inputs[i].torque, l) && limits[i] >= m as real
    ensures DriverRun(start, inputs, l)[k] >= m || DriverRun(start, inputs, l)[k] >= start + k * l.down
    ensures start + k * l.down >= m ==> DriverRun(start, inputs, l)[k] >= m
  {
    DriverRunFollows(start, inputs, l);
    forall i | 0 <= i < |inputs|
      ensures DriverTargets(inputs, l)[i] >= m
    {
      TargetToTheLeft(inputs[i].command, inputs[i].torque, l, limits[i]);
      RoundIsMonotone(m as real, DriverTarget(inputs[i].command, inputs[i].torque, l));
      RoundOfInt(m);
    }
    ForcedUp(DriverRun(start, inputs, l), DriverTargets(inputs, l), l.up, l.down, m, k);
  }

  /** With a steady torque of the driver, a command beyond what it allows ends at exactly what it allows, and stays there. */
  lemma DriverDecides(start: int, inputs: seq<Input>, l: Limits, driver: real, most: real, k: nat)
    requires IsRightLimit(most, driver, l) && 0.0 <= most <= l.steerMax as real && k <= |inputs|
    requires forall i :: 0 <= i < |inputs| ==> inputs[i].command >= most && inputs[i].torque == driver
    requires Abs(Round(most) - start) <= k * Slower(l.up, l.down)
    ensures DriverRun(start, inputs, l)[k] == Round(most)
  {
    DriverRunFollows(start, inputs, l);
    forall i | 0 <= i < |inputs|
      ensures DriverTargets(inputs, l)[i] == Round(most)
    {
      TargetToTheRight(inputs[i].command, driver, l, most);
    }
    Converges(DriverRun(start, inputs, l), DriverTargets(inputs, l), l.up, l.down, Round(most), k);
  }

  /** A value is within `errorMax` of the measured one or of zero, or between the two, and within the maximum. */
  predicate IsNearMeasured(x: real, meas: real, errorMax: nat, steerMax: nat) {
    && -(steerMax as real) <= x <= steerMax as real
    && if x >= 0.0 then x <= errorMax as real || x - meas <= errorMax as real
       else -x <= errorMax as real || meas - x <= errorMax as real
  }

  /** What the measured torque makes of a value: the nearest one that is near the measured torque. */
  lemma MeasTargetIsNearest(val: real, meas: real, errorMax: nat, steerMax: nat)
    ensures IsNearMeasured(MeasTarget(val, meas, errorMax, steerMax), meas, errorMax, steerMax)
    ensures forall x :: IsNearMeasured(x, meas, errorMax, steerMax) ==>
      Distance(val, MeasTarget(val, meas, errorMax, steerMax)) <= Distance(val, x)
  {
  }

  lemma MeasTargetKeeps(val: real, meas: real, errorMax: nat, steerMax: nat)
    requires IsNearMeasured(val, meas, errorMax, steerMax)
    ensures MeasTarget(val, meas, errorMax, steerMax) == val
  {
  }

  function Distance(x: real, y: real): real { if x <= y then y - x else x - y }

  /** While a steady value stays near the measured torque, the torque reaches it and stays. */
  lemma MeasRunReachesCommand(start: int, inputs: seq<Input>, l: Limits, t: int, k: nat)
    requires k <= |inputs| && Abs(t - start) <= k * Slower(l.up, l.down)
    requires forall i :: 0 <= i < |inputs| ==>
      inputs[i].command == t as real && IsNearMeasured(t as real, inputs[i].torque, l.errorMax, l.steerMax)
    ensures MeasRun(start, inputs, l)[k] == t
  {
    MeasRunFollows(start, inputs, l);
    RoundOfInt(t);
    forall i | 0 <= i < |inputs|
      ensures MeasTargets(inputs, l)[i] == t
    {
      MeasTargetKeeps(t as real, inputs[i].torque, l.errorMax, l.steerMax);
    }
    Converges(MeasRun(start, inputs, l), MeasTargets(inputs, l), l.up, l.down, t, k);
  }

  /** While the measured torque stays at or below `m`, the torque falls by `down` in every step until it is within `errorMax`
      of it (of zero if `m` is negative), and then stays there. */
  lemma TorqueFollowsMeasured(start: int, inputs: seq<Input>, l: Limits, m: int, k: nat)
    requires k <= |inputs|
    requires forall i :: 0 <= i < |inputs| ==> inputs[i].torque <= m as real
    ensures var torque := MeasRun(start, inputs, l)[k];
      torque <= (if m >= 0 then m else 0) + l.errorMax || torque <= start - k * l.down
  {
    MeasRunFollows(start, inputs, l);
    var b := (if m >= 0 then m else 0) + l.errorMax;
    forall i | 0 <= i < |inputs|
      ensures MeasTargets(inputs, l)[i] <= b
    {
      RoundIsMonotone(MeasTarget(inputs[i].command, inputs[i].torque, l.errorMax, l.steerMax), b as real);
      RoundOfInt(b);
    }
    ForcedDown(MeasRun(start, inputs, l), MeasTargets(inputs, l), l.up, l.down, b, k);
  }

  // ---------------------------------------------------------------------------------------------
  // Convergence

  function Slower(up: nat, down: nat): nat { if up <= down then up else down }

  /** One step gets nearer to a target by the slower of the two rates, or reaches it; it never overshoots. */
  lemma StepApproaches(target: int, last: int, up: nat, down: nat)
    ensures var r := Ramp(target, last, up, down);
      && (r == target || Abs(target - r) <= Abs(target - last) - Slower(up, down))
      && (last <= target ==> last <= r <= target) && (target <= last ==> target <= r <= last)
  {
  }

  lemma {:induction false} Converges(torques: seq<int>, targets: seq<int>, up: nat, down: nat, t: int, k: nat)
    requires Follows(torques, targets, up, down) && k <= |targets|
    requires forall i :: 0 <= i < |targets| ==> targets[i] == t
    ensures torques[k] == t || Abs(t - torques[k]) <= Abs(t - torques[0]) - k * Slower(up, down)
  {
    if k > 0 {
      Converges(torques, targets, up, down, t, k - 1);
      assert torques[k - 1 + 1] == Ramp(targets[k - 1], torques[k - 1], up, down);
      StepApproaches(t, torques[k - 1], up, down);
      MulStep(k, Slower(up, down));
    }
  }

  /** With a steady command that the driver's torque allows, the torque reaches the command after at most
      |start - command| / min(up, down) steps, whichever side of zero it comes from, and stays there. */
  lemma RunReachesCommand(start: int, inputs: seq<Input>, l: Limits, t: int, k: nat)
    requires k <= |inputs| && Abs(t - start) <= k * Slower(l.up, l.down)
    requires forall i :: 0 <= i < |inputs| ==> DriverTarget(inputs[i].command, inputs[i].torque, l) == t as real
    ensures DriverRun(start, inputs, l)[k] == t
  {
    DriverRunFollows(start, inputs, l);
    RoundOfInt(t);
    Converges(DriverRun(start, inputs, l), DriverTargets(inputs, l), l.up, l.down, t, k);
  }

  /** The torque after k steps away from zero: `up` in each step, but a start at exactly zero to the right makes its first step
      by the slower rate, and none at all if the torque may not fall. */
  function Away(start: int, t: int, up: nat, down: nat, k: nat): int {
    if start > 0 then AtMost(start + k * up, t)
    else if t <= 0 then AtLeast(start - k * up, t)
    else if up <= down then AtMost(k * up, t)
    else if k == 0 || down == 0 then 0
    else AtMost(down + (k - 1) * up, t)
  }

  /** The torque after k steps back to zero. */
  function Back(start: int, down: nat, k: nat): int {
    if start >= 0 then AtLeast(start - k * down, 0) else AtMost(start + k * down, 0)
  }

  function AtMost(x: int, y: int): int { if x <= y then x else y }

  function AtLeast(x: int, y: int): int { if x >= y then x else y }

  lemma NotNegative(k: nat, d: nat)
    ensures k * d >= 0
  {
  }

  lemma {:induction false} RampUpClosedForm(torques: seq<int>, targets: seq<int>, up: nat, down: nat, t: int, k: nat)
    requires Follows(torques, targets, up, down) && k <= |targets| && 0 <= torques[0] <= t
    requires up <= down || torques[0] > 0
    requires forall i :: 0 <= i < |targets| ==> targets[i] == t
    ensures torques[k] == AtMost(torques[0] + k * up, t)
  {
    if k > 0 {
      RampUpClosedForm(torques, targets, up, down, t, k - 1);
      assert torques[k - 1 + 1] == Ramp(targets[k - 1], torques[k - 1], up, down);
      MulStep(k, up);
      NotNegative(k - 1, up);
    }
  }

  lemma {:induction false} RampUpFromZero(torques: seq<int>, targets: seq<int>, up: nat, down: nat, t: int, k: nat)
    requires Follows(torques, targets, up, down) && 0 < k <= |targets| && torques[0] == 0 < t && down < up
    requires forall i :: 0 <= i < |targets| ==> targets[i] == t
    ensures torques[k] == if down == 0 then 0 else AtMost(down + (k - 1) * up, t)
  {
    assert torques[k - 1 + 1] == Ramp(targets[k - 1], torques[k - 1], up, down);
    if k > 1 {
      RampUpFromZero(torques, targets, up, down, t, k - 1);
      MulStep(k - 1, up);
      NotNegative(k - 2, up);
    }
  }

  lemma {:induction false} RampDownClosedForm(torques: seq<int>, targets: seq<int>, up: nat, down: nat, t: int, k: nat)
    requires Follows(torques, targets, up, down) && k <= |targets| && t <= torques[0] <= 0
    requires forall i :: 0 <= i < |targets| ==> targets[i] == t
    ensures torques[k] == AtLeast(torques[0] - k * up, t)
  {
    if k > 0 {
      RampDownClosedForm(torques, targets, up, down, t, k - 1);
      assert torques[k - 1 + 1] == Ramp(targets[k - 1], torques[k - 1], up, down);
      MulStep(k, up);
      NotNegative(k - 1, up);
    }
  }

  /** The closed form of any ramp away from zero, to the right or to the left. */
  lemma AwayClosedForm(torques: seq<int>, targets: seq<int>, up: nat, down: nat, t: int, k: nat)
    requires Follows(torques, targets, up, down) && k <= |targets|
    requires 0 <= torques[0] <= t || t <= torques[0] <= 0
    requires forall i :: 0 <= i < |targets| ==> targets[i] == t
    ensures torques[k] == Away(torques[0], t, up, down, k)
  {
    if torques[0] > 0 || (t > 0 && up <= down) {
      RampUpClosedForm(torques, targets, up, down, t, k);
    } else if t <= 0 {
      RampDownClosedForm(torques, targets, up, down, t, k);
    } else if k > 0 {
      RampUpFromZero(torques, targets, up, down, t, k);
    }
  }

  /** The closed form of a return to zero, from either side. */
  lemma {:induction false} ReturnClosedForm(torques: seq<int>, targets: seq<int>, up: nat, down: nat, k: nat)
    requires Follows(torques, targets, up, down) && k <= |targets|
    requires forall i :: 0 <= i < |targets| ==> targets[i] == 0
    ensures torques[k] == Back(torques[0], down, k)
  {
    if k > 0 {
      ReturnClosedForm(torques, targets, up, down, k - 1);
      assert torques[k - 1 + 1] == Ramp(targets[k - 1], torques[k - 1], up, down);
      MulStep(k, down);
      NotNegative(k - 1, down);
    }
  }

  lemma SteadyTargets(inputs: seq<Input>, l: Limits, t: int)
    requires forall i :: 0 <= i < |inputs| ==> DriverTarget(inputs[i].command, inputs[i].torque, l) == t as real
    ensures forall i :: 0 <= i < |inputs| ==> DriverTargets(inputs, l)[i] == t
  {
    RoundOfInt(t);
  }

  /** With a steady command that the driver's torque allows, the exact torque after k steps away from zero. */
  lemma DriverRunAway(start: int, inputs: seq<Input>, l: Limits, t: int, k: nat)
    requires k <= |inputs| && (0 <= start <= t || t <= start <= 0)
    requires forall i :: 0 <= i < |inputs| ==> DriverTarget(inputs[i].command, inputs[i].torque, l) == t as real
    ensures DriverRun(start, inputs, l)[k] == Away(start, t, l.up, l.down, k)
  {
    DriverRunFollows(start, inputs, l);
    SteadyTargets(inputs, l, t);
    AwayClosedForm(DriverRun(start, inputs, l), DriverTargets(inputs, l), l.up, l.down, t, k);
  }

  /** With a command of zero, the exact torque after k steps from any start. */
  lemma DriverRunBack(start: int, inputs: seq<Input>, l: Limits, k: nat)
    requires k <= |inputs|
    requires forall i :: 0 <= i < |inputs| ==> DriverTarget(inputs[i].command, inputs[i].torque, l) == 0.0
    ensures DriverRun(start, inputs, l)[k] == Back(start, l.down, k)
  {
    DriverRunFollows(start, inputs, l);
    SteadyTargets(inputs, l, 0);
    ReturnClosedForm(DriverRun(start, inputs, l), DriverTargets(inputs, l), l.up, l.down, k);
  }

  // ---------------------------------------------------------------------------------------------
  // Left and right

  lemma TargetIsOdd(command: real, driver: real, l: Limits)
    ensures Round(DriverTarget(-command, -driver, l)) == -Round(DriverTarget(command, driver, l))
  {
    var share := Scaled(driver, l.factor);
    var a := l.allowance as real;
    ScaledIsOdd(driver, l.factor);
    ScaledIsOdd(a + share, l.multiplier);
    ScaledIsOdd(a - share, l.multiplier);
    assert -(a + share) == -a - share && -(a - share) == -a + share;
    assert DriverTarget(-command, -driver, l) == -DriverTarget(command, driver, l);
    RoundIsOdd(DriverTarget(command, driver, l));
  }

  lemma ScaledIsOdd(x: real, k: int)
    ensures Scaled(-x, k) == -Scaled(x, k)
  {
  }

  /** The window around the measured torque lies alike on both sides. */
  lemma MeasTargetIsOdd(val: real, meas: real, errorMax: nat, steerMax: nat)
    ensures MeasTarget(-val, -meas, errorMax, steerMax) == -MeasTarget(val, meas, errorMax, steerMax)
  {
  }

  lemma RampMirrors(target: int, last: int, up: nat, down: nat)
    ensures Ramp(-target, -last, up, down) == -Ramp(target, last, up, down)
       <==> last != 0 || up <= down || Abs(target) <= down
  {
  }

  lemma LimitOfTarget(command: real, last: int, driver: real, l: Limits, target: int) returns (t: int)
    requires Round(DriverTarget(command, driver, l)) == target
    ensures t == DriverLimit(command, last, driver, l) == Ramp(target, last, l.up, l.down)
  {
    DriverLimitIsRamp(command, last, driver, l);
    t := DriverLimit(command, last, driver, l);
  }

  lemma RampOfOpposite(right: int, left: int, last: int, last': int, l: Limits, target: int, target': int)
    requires last' == -last && target' == -target
    requires right == Ramp(target, last, l.up, l.down) && left == Ramp(target', last', l.up, l.down)
    ensures left == -right <==> last != 0 || l.up <= l.down || Abs(target) <= l.down
  {
    RampMirrors(target, last, l.up, l.down);
  }

  lemma OddTarget(command: real, driver: real, command': real, driver': real, l: Limits) returns (target': int)
    requires command' == -command && driver' == -driver
    ensures target' == Round(DriverTarget(command', driver', l)) && target' == -Round(DriverTarget(command, driver, l))
  {
    target' := Round(DriverTarget(command', driver', l));
    TargetIsOdd(command, driver, l);
  }

  /** The limiter treats left and right alike exactly when the last torque is not zero, or `down` is not the smaller rate, or
      the target is within `down` of zero: a torque of exactly zero is handled by the branch for negative torques, which
      starts to the right at `down` and to the left at `up`. */
  lemma MirrorExactlyWhen(command: real, last: int, driver: real, command': real, last': int, driver': real, l: Limits)
    returns (right: int, left: int, target: int)
    requires command' == -command && last' == -last && driver' == -driver
    ensures right == DriverLimit(command, last, driver, l) && left == DriverLimit(command', last', driver', l)
    ensures target == Round(DriverTarget(command, driver, l))
    ensures left == -right <==> last != 0 || l.up <= l.down || Abs(target) <= l.down
  {
    target := Round(DriverTarget(command, driver, l));
    var target' := OddTarget(command, driver, command', driver', l);
    right := LimitOfTarget(command, last, driver, l, target);
    left := LimitOfTarget(command', last', driver', l, target');
    RampOfOpposite(right, left, last, last', l, target, target');
  }

  function Mirrored(inputs: seq<Input>): seq<Input> {
    seq(|inputs|, k requires 0 <= k < |inputs| => Input(-inputs[k].command, -inputs[k].torque))
  }

  ghost predicate Negates(a: seq<int>, b: seq<int>) {
    |a| == |b| && forall i :: 0 <= i < |a| ==> a[i] == -b[i]
  }

  lemma {:induction false} TorquesMirror(right: seq<int>, left: seq<int>, targets: seq<int>, opposite: seq<int>,
                                         up: nat, down: nat, start: int, k: nat)
    requires Follows(right, targets, up, down) && Follows(left, opposite, up, down) && up <= down
    requires Negates(opposite, targets)
    requires k <= |targets| && right[0] == start && left[0] == -start
    ensures left[k] == -right[k]
  {
    if k > 0 {
      TorquesMirror(right, left, targets, opposite, up, down, start, k - 1);
      assert right[k - 1 + 1] == Ramp(targets[k - 1], right[k - 1], up, down);
      assert left[k - 1 + 1] == Ramp(opposite[k - 1], left[k - 1], up, down);
      RampMirrors(targets[k - 1], right[k - 1], up, down);
    }
  }

  lemma TargetMirrors(inputs: seq<Input>, l: Limits, i: nat)
    requires i < |inputs|
    ensures |DriverTargets(Mirrored(inputs), l)| == |DriverTargets(inputs, l)| == |inputs|
    ensures DriverTargets(Mirrored(inputs), l)[i] == -DriverTargets(inputs, l)[i]
  {
    TargetIsOdd(inputs[i].command, inputs[i].torque, l);
  }

  lemma TargetsMirror(inputs: seq<Input>, l: Limits, targets: seq<int>, opposite: seq<int>)
    requires targets == DriverTargets(inputs, l) && opposite == DriverTargets(Mirrored(inputs), l)
    ensures Negates(opposite, targets)
  {
    forall i | 0 <= i < |inputs|
      ensures DriverTargets(Mirrored(inputs), l)[i] == -DriverTargets(inputs, l)[i]
    {
      TargetMirrors(inputs, l, i);
    }
  }

  lemma RunTargets(start: int, inputs: seq<Input>, l: Limits) returns (targets: seq<int>)
    ensures targets == DriverTargets(inputs, l) && Follows(DriverRun(start, inputs, l), targets, l.up, l.down)
  {
    targets := DriverTargets(inputs, l);
    DriverRunFollows(start, inputs, l);
  }

  lemma MirroredRuns(start: int, inputs: seq<Input>, l: Limits) returns (targets: seq<int>, opposite: seq<int>)
    ensures Follows(DriverRun(start, inputs, l), targets, l.up, l.down)
    ensures Follows(DriverRun(-start, Mirrored(inputs), l), opposite, l.up, l.down)
    ensures Negates(opposite, targets)
  {
    targets := RunTargets(start, inputs, l);
    opposite := RunTargets(-start, Mirrored(inputs), l);
    TargetsMirror(inputs, l, targets, opposite);
  }

  lemma {:induction false} RunStarts(start: int, inputs: seq<Input>, l: Limits)
    ensures DriverRun(start, inputs, l)[0] == start
  {
    if inputs != [] {
      RunStarts(start, inputs[..|inputs| - 1], l);
    }
  }

  /** If the torque may fall at least as fast as it may rise, the mirrored inputs give the mirrored run. */
  lemma RunsMirror(start: int, inputs: seq<Input>, l: Limits, k: nat)
    requires l.up <= l.down && k <= |inputs|
    ensures DriverRun(-start, Mirrored(inputs), l)[k] == -DriverRun(start, inputs, l)[k]
  {
    var targets, opposite := MirroredRuns(start, inputs, l);
    RunStarts(start, inputs, l);
    RunStarts(-start, Mirrored(inputs), l);
    TorquesMirror(DriverRun(start, inputs, l), DriverRun(-start, Mirrored(inputs), l), targets, opposite, l.up, l.down, start, k);
  }

  /** With limits whose `down` is smaller than `up`, a start to the right and the same start to the left differ. */
  lemma MirrorFails()
    ensures var l := Limits(100, 3, 2, 0, 1, 1, 0);
      DriverLimit(10.0, 0, 0.0, l) == 2 && DriverLimit(-10.0, 0, 0.0, l) == -3
  {
    var l := Limits(100, 3, 2, 0, 1, 1, 0);
    DriverLimitIsRamp(10.0, 0, 0.0, l);
    DriverLimitIsRamp(-10.0, 0, 0.0, l);
    assert DriverTarget(10.0, 0.0, l) == 10.0 && DriverTarget(-10.0, 0.0, l) == -10.0;
    RoundOfInt(10);
    RoundOfInt(-10);
  }
}
