/** The steering part of the Chrysler controller (selfdrive/car/chrysler/carcontroller.py, selfdrive/car/chrysler/values.py). */
module ChryslerController {
  import opened Helpers
  import opened SteeringLimits

  // ---------------------------------------------------------------------------------------------
  // One update

  datatype Platform = RamHd | RamDt | Other

  /** What the controller reads of the car's parameters. */
  datatype Car = Car(platform: Platform, minSteerSpeed: real, higherMinSteeringSpeed: bool)

  /** `CarControllerParams`; the limits by the driver's torque are not used. */
  function Params(platform: Platform): Limits {
    match platform
    case RamHd => Limits(361, 14, 14, 0, 0, 0, 80)
    case RamDt => Limits(261, 6, 6, 0, 0, 0, 80)
    case Other => Limits(261, 3, 3, 0, 0, 0, 80)
  }

  /** What `update` reads of the car's control and state. */
  datatype Frame = Frame(latActive: bool, vEgo: real, steer: real, eps: real)

  /** The steering command on the bus. */
  datatype Command = Command(torque: int, lkasBit: bool)

  datatype State = State(frame: nat, applySteerLast: int, lastFallingEdge: nat, bit: bool)

  const START := State(0, 0, 0, false)

  /** What the speed asks of the control bit. */
  predicate Wanted(car: Car, i: Frame, bit: bool) {
    if i.vEgo > car.minSteerSpeed then true
    else if car.higherMinSteeringSpeed then bit && !(i.vEgo < car.minSteerSpeed - 3.0)
    else if car.platform != Other then bit && !(i.vEgo < car.minSteerSpeed - 0.5)
    else bit
  }

  /** A frame in which steering is updated: every second one. */
  predicate Steers(frame: nat) { frame % 2 == 0 }

  function NewSteer(steer: real, l: Limits): int { Round(Scaled(steer, l.steerMax)) }

  function Torque(l: Limits, last: int, i: Frame): int {
    MeasLimit(NewSteer(i.steer, l) as real, last, i.eps, l)
  }

  /** The torque limiter: from the last torque and a frame to the next torque. */
  type Limiter = (int, Frame) -> int

  function CarLimiter(car: Car): Limiter {
    (last, i) => Torque(Params(car.platform), last, i)
  }

  /** It adds at most `up` to the size of the torque, and keeps it within `max`. */
  ghost predicate Bounded(limit: Limiter, up: nat, max: nat) {
    forall last, i :: Abs(limit(last, i)) <= Abs(last) + up && (Abs(last) <= max ==> Abs(limit(last, i)) <= max)
  }

  lemma LimitIsBounded(command: real, last: int, measured: real, l: Limits) returns (t: int)
    ensures t == MeasLimit(command, last, measured, l)
    ensures Abs(t) <= Abs(last) + l.up && (Abs(last) <= l.steerMax ==> Abs(t) <= l.steerMax)
  {
    t := MeasLimit(command, last, measured, l);
    MeasStepIsBounded(command, last, measured, l);
  }

  lemma TorqueIsBounded(l: Limits, last: int, i: Frame) returns (t: int)
    ensures t == Torque(l, last, i)
    ensures Abs(t) <= Abs(last) + l.up && (Abs(last) <= l.steerMax ==> Abs(t) <= l.steerMax)
  {
    t := LimitIsBounded(NewSteer(i.steer, l) as real, last, i.eps, l);
  }

  lemma CarLimiterIsBounded(car: Car)
    ensures Bounded(CarLimiter(car), Params(car.platform).up, Params(car.platform).steerMax)
  {
    forall last, i
      ensures var t := CarLimiter(car)(last, i); Abs(t) <= Abs(last) + Params(car.platform).up
      ensures var t := CarLimiter(car)(last, i);
        Abs(last) <= Params(car.platform).steerMax ==> Abs(t) <= Params(car.platform).steerMax
    {
      var t := TorqueIsBounded(Params(car.platform), last, i);
    }
  }

  function Step(limit: Limiter, car: Car, s: State, i: Frame): State {
    if !Steers(s.frame) then s.(frame := s.frame + 1)
    else
      var bit := Wanted(car, i, s.bit) && s.frame - s.lastFallingEdge > 200;
      State(s.frame + 1,
            if i.latActive && s.bit && bit then limit(s.applySteerLast, i) else 0,
            if !bit && s.bit then s.frame else s.lastFallingEdge,
            bit)
  }

  function After(limit: Limiter, car: Car, inputs: seq<Frame>): (s: State)
    ensures s.frame == |inputs|
  {
    if inputs == [] then START
    else Step(limit, car, After(limit, car, inputs[..|inputs| - 1]), inputs[|inputs| - 1])
  }

  /** The state before frame n of a run. */
  function At(limit: Limiter, car: Car, inputs: seq<Frame>, n: nat): (s: State)
    requires n <= |inputs|
    ensures s.frame == n
  {
    After(limit, car, inputs[..n])
  }

  lemma NextAt(limit: Limiter, car: Car, inputs: seq<Frame>, n: nat)
    requires n < |inputs|
    ensures At(limit, car, inputs, n + 1) == Step(limit, car, At(limit, car, inputs, n), inputs[n])
  {
    assert inputs[..n + 1][..n] == inputs[..n];
  }

  // ---------------------------------------------------------------------------------------------
  // The control bit

  predicate Falls(limit: Limiter, car: Car, inputs: seq<Frame>, n: nat)
    requires n < |inputs|
  {
    At(limit, car, inputs, n).bit && !At(limit, car, inputs, n + 1).bit
  }

  predicate Rises(limit: Limiter, car: Car, inputs: seq<Frame>, n: nat)
    requires n < |inputs|
  {
    !At(limit, car, inputs, n).bit && At(limit, car, inputs, n + 1).bit
  }

  /** The frame of the last fall before frame n, or zero. */
  function LastFall(limit: Limiter, car: Car, inputs: seq<Frame>, n: nat): nat
    requires n <= |inputs|
  {
    if n == 0 then 0
    else if Falls(limit, car, inputs, n - 1) then n - 1
    else LastFall(limit, car, inputs, n - 1)
  }

  lemma {:induction false} FallingEdgeIsLastFall(limit: Limiter, car: Car, inputs: seq<Frame>, n: nat)
    requires n <= |inputs|
    ensures At(limit, car, inputs, n).lastFallingEdge == LastFall(limit, car, inputs, n)
  {
    if n > 0 {
      FallingEdgeIsLastFall(limit, car, inputs, n - 1);
      NextAt(limit, car, inputs, n - 1);
    }
  }

  lemma {:induction false} LastFallIsLast(limit: Limiter, car: Car, inputs: seq<Frame>, n: nat, f: nat)
    requires f < n <= |inputs| && Falls(limit, car, inputs, f)
    ensures f <= LastFall(limit, car, inputs, n) < n
  {
    if f < n - 1 {
      LastFallIsLast(limit, car, inputs, n - 1, f);
    }
  }

  lemma {:induction false} LastFallFalls(limit: Limiter, car: Car, inputs: seq<Frame>, n: nat)
    requires n <= |inputs| && LastFall(limit, car, inputs, n) > 0
    ensures LastFall(limit, car, inputs, n) < n && Falls(limit, car, inputs, LastFall(limit, car, inputs, n))
  {
    if !Falls(limit, car, inputs, n - 1) {
      LastFallFalls(limit, car, inputs, n - 1);
    }
  }

  /** No fall of the bit in the 200 frames before frame n, nor the start of the run. */
  ghost predicate Quiet(limit: Limiter, car: Car, inputs: seq<Frame>, n: nat)
    requires n <= |inputs|
  {
    n > 200 && forall f :: n - 200 <= f < n ==> !Falls(limit, car, inputs, f)
  }

  lemma QuietExactlyWhen(limit: Limiter, car: Car, inputs: seq<Frame>, n: nat)
    requires n <= |inputs|
    ensures Quiet(limit, car, inputs, n) <==> n - LastFall(limit, car, inputs, n) > 200
  {
    var last := LastFall(limit, car, inputs, n);
    if last > 0 {
      LastFallFalls(limit, car, inputs, n);
    }
    forall f | n - 200 <= f < n && 0 <= f && Falls(limit, car, inputs, f)
      ensures f <= last
    {
      LastFallIsLast(limit, car, inputs, n, f);
    }
  }

  /** After a steering frame the bit is set exactly when the speed asks for it and the bit has not fallen in the 200 frames
      before; in other frames it does not change. */
  lemma BitExactlyWhen(limit: Limiter, car: Car, inputs: seq<Frame>, n: nat)
    requires n < |inputs|
    ensures var bit := At(limit, car, inputs, n).bit;
      At(limit, car, inputs, n + 1).bit <==> if Steers(n) then Wanted(car, inputs[n], bit) && Quiet(limit, car, inputs, n) else bit
  {
    NextAt(limit, car, inputs, n);
    FallingEdgeIsLastFall(limit, car, inputs, n);
    QuietExactlyWhen(limit, car, inputs, n);
  }

  /** Once the bit falls at frame f it is not set again before a frame greater than f + 200. */
  lemma {:induction false} Lockout(limit: Limiter, car: Car, inputs: seq<Frame>, f: nat, n: nat)
    requires f < n <= |inputs| && n <= f + 201 && Falls(limit, car, inputs, f)
    ensures !At(limit, car, inputs, n).bit
  {
    if n > f + 1 {
      Lockout(limit, car, inputs, f, n - 1);
      BitExactlyWhen(limit, car, inputs, n - 1);
    }
  }

  /** Nor is it set in the first 201 frames. */
  lemma {:induction false} LockoutAtStart(limit: Limiter, car: Car, inputs: seq<Frame>, n: nat)
    requires n <= |inputs| && n <= 201
    ensures !At(limit, car, inputs, n).bit
  {
    if n > 0 {
      LockoutAtStart(limit, car, inputs, n - 1);
      BitExactlyWhen(limit, car, inputs, n - 1);
    }
  }

  lemma {:induction false} SetMeansQuiet(limit: Limiter, car: Car, inputs: seq<Frame>, n: nat)
    requires n <= |inputs| && At(limit, car, inputs, n).bit
    ensures Quiet(limit, car, inputs, n)
  {
    QuietExactlyWhen(limit, car, inputs, n);
    if n > 0 {
      BitExactlyWhen(limit, car, inputs, n - 1);
      if Steers(n - 1) {
        QuietExactlyWhen(limit, car, inputs, n - 1);
      } else {
        SetMeansQuiet(limit, car, inputs, n - 1);
        QuietExactlyWhen(limit, car, inputs, n - 1);
      }
    }
  }

  /** The speed is so low that steering is given up: by 3 m/s, or on a Ram by 0.5 m/s, under the minimum; else never. */
  predicate IsTooSlow(car: Car, v: real) {
    if car.higherMinSteeringSpeed then v < car.minSteerSpeed - 3.0 && v <= car.minSteerSpeed
    else car.platform != Other && v < car.minSteerSpeed - 0.5 && v <= car.minSteerSpeed
  }

  /** The bit rises exactly above the minimum speed, 200 frames after the last fall; and once it is set, it falls exactly by the
      speed, as the pause is never needed again. */
  lemma BitBySpeed(limit: Limiter, car: Car, inputs: seq<Frame>, n: nat)
    requires n < |inputs|
    ensures Rises(limit, car, inputs, n) <==>
      Steers(n) && !At(limit, car, inputs, n).bit && inputs[n].vEgo > car.minSteerSpeed && Quiet(limit, car, inputs, n)
    ensures Falls(limit, car, inputs, n) <==>
      Steers(n) && At(limit, car, inputs, n).bit && IsTooSlow(car, inputs[n].vEgo)
  {
    BitExactlyWhen(limit, car, inputs, n);
    if At(limit, car, inputs, n).bit {
      SetMeansQuiet(limit, car, inputs, n);
    }
  }

  // ---------------------------------------------------------------------------------------------
  // The torque

  /** The torque is zero whenever the bit is low, and never beyond the limit of the steering computer. */
  lemma {:induction false} TorqueIsSafe(limit: Limiter, car: Car, inputs: seq<Frame>, n: nat)
    requires n <= |inputs| && Bounded(limit, Params(car.platform).up, Params(car.platform).steerMax)
    ensures !At(limit, car, inputs, n).bit ==> At(limit, car, inputs, n).applySteerLast == 0
    ensures Abs(At(limit, car, inputs, n).applySteerLast) <= Params(car.platform).steerMax
  {
    if n > 0 {
      TorqueIsSafe(limit, car, inputs, n - 1);
      NextAt(limit, car, inputs, n - 1);
    }
  }

  /** The number of steering frames from frame m to frame n - 1. */
  function SteeringFrames(m: nat, n: nat): nat
    requires m <= n
  {
    (n + 1) / 2 - (m + 1) / 2
  }

  lemma TorqueStep(limit: Limiter, car: Car, inputs: seq<Frame>, n: nat, up: nat, max: nat)
    requires n < |inputs| && Bounded(limit, up, max)
    ensures Abs(At(limit, car, inputs, n + 1).applySteerLast)
         <= Abs(At(limit, car, inputs, n).applySteerLast) + (if Steers(n) then up else 0)
  {
    NextAt(limit, car, inputs, n);
  }

  lemma NextSteeringFrame(m: nat, n: nat, up: nat)
    requires m <= n
    ensures SteeringFrames(m, n + 1) * up == SteeringFrames(m, n) * up + (if Steers(n) then up else 0)
  {
    if Steers(n) {
      assert SteeringFrames(m, n + 1) == SteeringFrames(m, n) + 1;
      MulStep(SteeringFrames(m, n + 1), up);
    }
  }

  /** The torque grows by at most `up` in each steering frame. */
  lemma {:induction false} TorqueGrows(limit: Limiter, car: Car, inputs: seq<Frame>, m: nat, n: nat, up: nat, max: nat)
    requires m <= n <= |inputs| && Bounded(limit, up, max)
    ensures Abs(At(limit, car, inputs, n).applySteerLast)
         <= Abs(At(limit, car, inputs, m).applySteerLast) + SteeringFrames(m, n) * up
  {
    if m < n {
      TorqueGrows(limit, car, inputs, m, n - 1, up, max);
      TorqueStep(limit, car, inputs, n - 1, up, max);
      NextSteeringFrame(m, n - 1, up);
    }
  }

  /** In the frame in which the bit rises the torque is still zero, and from there on it is at most `up` times the number of
      steering frames since. */
  lemma TorqueSinceRise(limit: Limiter, car: Car, inputs: seq<Frame>, r: nat, n: nat, up: nat, max: nat)
    requires r < n <= |inputs| && Rises(limit, car, inputs, r)
    requires Bounded(limit, up, max)
    ensures At(limit, car, inputs, r + 1).applySteerLast == 0
    ensures Abs(At(limit, car, inputs, n).applySteerLast) <= SteeringFrames(r + 1, n) * up
  {
    NextAt(limit, car, inputs, r);
    TorqueGrows(limit, car, inputs, r + 1, n, up, max);
  }

  /** The same after a steering frame in which the driver has steering switched off. */
  lemma TorqueSinceInactive(limit: Limiter, car: Car, inputs: seq<Frame>, r: nat, n: nat, up: nat, max: nat)
    requires r < n <= |inputs| && Steers(r) && !inputs[r].latActive
    requires Bounded(limit, up, max)
    ensures At(limit, car, inputs, r + 1).applySteerLast == 0
    ensures Abs(At(limit, car, inputs, n).applySteerLast) <= SteeringFrames(r + 1, n) * up
  {
    NextAt(limit, car, inputs, r);
    TorqueGrows(limit, car, inputs, r + 1, n, up, max);
  }

  /** In every run of the controller: no torque without the bit, never more than the limit, and never more than `up` times the
      number of steering frames since the bit last rose. */
  lemma RunsAreSafe(car: Car, inputs: seq<Frame>, r: nat, n: nat)
    requires r < n <= |inputs| && Rises(CarLimiter(car), car, inputs, r)
    ensures var s := At(CarLimiter(car), car, inputs, n);
      && (!s.bit ==> s.applySteerLast == 0)
      && Abs(s.applySteerLast) <= Params(car.platform).steerMax
      && Abs(s.applySteerLast) <= SteeringFrames(r + 1, n) * Params(car.platform).up
  {
    CarLimiterIsBounded(car);
    TorqueIsSafe(CarLimiter(car), car, inputs, n);
    TorqueSinceRise(CarLimiter(car), car, inputs, r, n, Params(car.platform).up, Params(car.platform).steerMax);
  }

  /** From frame m to frame n the bit is set, steering is active, and the command stays at the whole torque t, which is near the
      measured one. */
  ghost predicate Steady(car: Car, inputs: seq<Frame>, m: nat, n: nat, t: int) {
    var l := Params(car.platform);
    && m <= n <= |inputs|
    && (forall k :: m <= k <= n ==> At(CarLimiter(car), car, inputs, k).bit)
    && forall k :: m <= k < n ==> inputs[k].latActive && Asks(inputs[k], l, t)
  }

  predicate Asks(i: Frame, l: Limits, t: int) {
    Round(i.steer * l.steerMax as real) == t && IsNearMeasured(t as real, i.eps, l.errorMax, l.steerMax)
  }

  lemma LimitOfKept(command: int, last: int, measured: real, l: Limits, t: int)
    requires command == t && IsNearMeasured(t as real, measured, l.errorMax, l.steerMax)
    ensures MeasLimit(command as real, last, measured, l) == Ramp(t, last, l.up, l.down)
  {
    MeasTargetKeeps(t as real, measured, l.errorMax, l.steerMax);
    RoundOfInt(t);
    MeasLimitIsRamp(t as real, last, measured, l);
  }

  lemma SteerIs(steer: real, l: Limits, t: int)
    requires Round(steer * l.steerMax as real) == t
    ensures NewSteer(steer, l) == t
  {
    ScaledIs(steer, l.steerMax);
  }

  lemma AskedTorque(car: Car, last: int, i: Frame, l: Limits, t: int)
    requires l == Params(car.platform) && Asks(i, l, t)
    ensures CarLimiter(car)(last, i) == Ramp(t, last, l.up, l.up)
  {
    SteerIs(i.steer, l, t);
    LimitOfKept(NewSteer(i.steer, l), last, i.eps, l, t);
  }

  lemma SteadyStep(car: Car, inputs: seq<Frame>, n: nat, t: int)
    requires Steady(car, inputs, n, n + 1, t)
    ensures var last, up := At(CarLimiter(car), car, inputs, n).applySteerLast, Params(car.platform).up;
      At(CarLimiter(car), car, inputs, n + 1).applySteerLast == if Steers(n) then Ramp(t, last, up, up) else last
  {
    NextAt(CarLimiter(car), car, inputs, n);
    AskedTorque(car, At(CarLimiter(car), car, inputs, n).applySteerLast, inputs[n], Params(car.platform), t);
  }

  /** The number at distance `way` from `first` in the direction of `t`, or `t` if that is nearer. */
  function Towards(first: int, way: nat, t: int): int {
    if first <= t then AtMost(first + way, t) else AtLeast(first - way, t)
  }

  lemma RampTowards(first: int, way: nat, t: int, up: nat)
    ensures Ramp(t, Towards(first, way, t), up, up) == Towards(first, way + up, t)
  {
  }

  /** With the bit set and steering active, the torque moves towards a steady command by `up` in each steering frame until it is
      there, and then stays. */
  lemma {:induction false} TorqueFollowsCommand(car: Car, inputs: seq<Frame>, m: nat, n: nat, t: int, up: nat)
    requires Steady(car, inputs, m, n, t) && up == Params(car.platform).up
    ensures SteeringFrames(m, n) * up >= 0
    ensures At(CarLimiter(car), car, inputs, n).applySteerLast
         == Towards(At(CarLimiter(car), car, inputs, m).applySteerLast, SteeringFrames(m, n) * up, t)
  {
    NotNegative(SteeringFrames(m, n), up);
    if m < n {
      TorqueFollowsCommand(car, inputs, m, n - 1, t, up);
      SteadyStep(car, inputs, n - 1, t);
      NextSteeringFrame(m, n - 1, up);
      RampTowards(At(CarLimiter(car), car, inputs, m).applySteerLast, SteeringFrames(m, n - 1) * up, t, up);
    }
  }

  // ---------------------------------------------------------------------------------------------
  // The controller as an object

  class CarController {
    const car: Car
    var applySteerLast: int
    var frame: nat
    var lastLkasFallingEdge: nat
    var lkasControlBitPrev: bool
    // the frames seen so far
    ghost var inputs: seq<Frame>

    ghost function Value(): State
      reads this
    {
      State(frame, applySteerLast, lastLkasFallingEdge, lkasControlBitPrev)
    }

    ghost predicate Valid()
      reads this
    {
      Value() == After(CarLimiter(car), car, inputs)
    }

    constructor (car: Car)
      ensures Valid() && this.car == car && inputs == []
    {
      this.car := car;
      applySteerLast, frame, lastLkasFallingEdge, lkasControlBitPrev := 0, 0, 0, false;
      inputs := [];
    }

    /** `update`: the steering command sent, if any, and the torque reported back. */
    method Update(i: Frame) returns (sent: Option<Command>, steerOutputCan: int)
      requires Valid()
      modifies this
      ensures Valid() && inputs == old(inputs) + [i]
      ensures Value() == Step(CarLimiter(car), car, old(Value()), i)
      ensures steerOutputCan == applySteerLast
      ensures sent == if Steers(old(frame)) then Some(Command(applySteerLast, lkasControlBitPrev)) else None
      ensures sent.Some? && !sent.value.lkasBit ==> sent.value.torque == 0
      ensures sent.Some? ==> Abs(sent.value.torque) <= Params(car.platform).steerMax
    {
      ghost var all := inputs + [i];
      CarLimiterIsBounded(car);
      TorqueIsSafe(CarLimiter(car), car, all, |all|);
      assert all[..|all|] == all && all[..|all| - 1] == inputs;
      sent := None;
      var lkasActive := i.latActive && lkasControlBitPrev;
      if frame % 2 == 0 {
        var lkasControlBit := lkasControlBitPrev;
        if i.vEgo > car.minSteerSpeed {
          lkasControlBit := true;
        } else if car.higherMinSteeringSpeed {
          if i.vEgo < car.minSteerSpeed - 3.0 {
            lkasControlBit := false;
          }
        } else if car.platform != Other {
          if i.vEgo < car.minSteerSpeed - 0.5 {
            lkasControlBit := false;
          }
        }
        lkasControlBit := lkasControlBit && frame - lastLkasFallingEdge > 200;
        if !lkasControlBit && lkasControlBitPrev {
          lastLkasFallingEdge := frame;
        }
        var applySteer := Torque(Params(car.platform), applySteerLast, i);
        lkasControlBitPrev := lkasControlBit;
        if !lkasActive || !lkasControlBit {
          applySteer := 0;
        }
        applySteerLast := applySteer;
        sent := Some(Command(applySteer, lkasControlBit));
      }
      frame := frame + 1;
      inputs := all;
      steerOutputCan := applySteerLast;
    }
  }
}
