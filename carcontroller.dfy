/**
  Per-tick command generation of the GM car controller: steering with
  counter-sync skipping, the gas-interceptor pedal command and the
  lane-keep icon latch. Outgoing bus frames are abstract commands; the
  protocol encoder that packs them is not part of this model.
*/
module GmController {
  import opened Shaping

  /** One outgoing command, in the order the controller emits them. */
  datatype CanCommand =
    | Steering(torque: int, idx: int, active: bool)
    | Pedal(frac: real, idx: int)
    | Icon(active: bool, critical: bool, alert: bool)

  datatype VisualAlert = NoAlert | Fcw | SteerRequired | BrakePressed | WrongGear
                       | SeatbeltUnbuckled | SpeedTooHigh | Ldw

  /** Desired actuator values from the planner. */
  datatype Actuators = Actuators(accel: real, steer: real)

  /** The parts of the car state the controller reads. */
  datatype CarStateView = CarStateView(
    vEgo: real,
    steerWarning: bool,
    steerError: bool,
    steeringTorque: real,
    lkaSteeringCmdCounter: int,
    lkasStatus: int,
    enableGasInterceptor: bool,
    adaptiveCruise: bool)

  /** The controller constants of the car (their values are outside this model). */
  datatype ControllerParams = ControllerParams(
    steerStep: nat,
    minSteerSpeed: real,
    cameraKeepaliveStep: nat)
  {
    predicate Valid() { steerStep > 0 && cameraKeepaliveStep > 0 }
  }

  /** The shown (active, critical) state of the lane-keep icon. */
  datatype IconStatus = IconStatus(active: bool, critical: bool)

  /**
    The torque limiter: (new_steer, apply_steer_last, steering torque) to
    the torque to apply. Its body is not part of this model.
  */
  type TorqueLimiter = (int, int, real) -> int

  /** Below this speed (1 km/h, in m/s) the pedal command is zero. */
  const PedalMinSpeed: real := 1.0 / 3.6

  /** Lane keep may apply torque: engaged, no steering fault, fast enough. */
  function LkasEnabled(p: ControllerParams, enabled: bool, cs: CarStateView): (b: bool)
    ensures !enabled ==> !b
    ensures cs.steerWarning || cs.steerError ==> !b
    ensures cs.vEgo <= p.minSteerSpeed ==> !b
    ensures enabled && !cs.steerWarning && !cs.steerError && cs.vEgo > p.minSteerSpeed ==> b
  {
    enabled && !(cs.steerWarning || cs.steerError) && cs.vEgo > p.minSteerSpeed
  }

  /** Index of the steering frame: the one after the last counter the safety layer passed. */
  function SteerIndex(counter: int): (r: int)
    ensures 0 <= r < 4
    ensures (counter + 1 - r) % 4 == 0
    ensures 0 <= counter < 3 ==> r == counter + 1
    ensures counter == 3 ==> r == 0
  {
    (counter + 1) % 4
  }

  /** Free-running 2-bit index of the pedal frame. */
  function PedalIndex(frame: nat): (r: nat)
    ensures r < 4
  {
    (frame / 4) % 4
  }

  /** On consecutive pedal frames the index steps by one modulo 4. */
  lemma PedalIndexAdvances(frame: nat)
    requires frame % 4 == 0
    ensures PedalIndex(frame + 4) == (PedalIndex(frame) + 1) % 4
  {
    assert (frame + 4) / 4 == frame / 4 + 1;
  }

  /** interp(vEgo, [0, 10], [0.4, 1.0]): linear between the breakpoints, clamped outside. */
  function GasMultiplier(vEgo: real): (m: real)
    ensures 0.4 <= m <= 1.0
    ensures vEgo <= 0.0 ==> m == 0.4
    ensures 10.0 <= vEgo ==> m == 1.0
  {
    if vEgo <= 0.0 then 0.4
    else if vEgo >= 10.0 then 1.0
    else 0.4 + (vEgo - 0.0) * (1.0 - 0.4) / (10.0 - 0.0)
  }

  /** The gas multiplier never decreases with speed. */
  lemma GasMultiplierMonotone(v1: real, v2: real)
    requires v1 <= v2
    ensures GasMultiplier(v1) <= GasMultiplier(v2)
  {
  }

  /**
    Pedal fraction for the gas interceptor: zero when not engaged, without
    adaptive cruise or below 1 km/h; otherwise the speed-scaled gas minus
    brake, clipped to [0, 1].
  */
  function CommaPedal(enabled: bool, adaptiveCruise: bool, vEgo: real, gas: real, brake: real): (r: real)
    ensures 0.0 <= r <= 1.0
    ensures !enabled || !adaptiveCruise || vEgo <= PedalMinSpeed ==> r == 0.0
    ensures enabled && adaptiveCruise && vEgo > PedalMinSpeed ==> (r > 0.0 <==> gas > brake)
    ensures r <= if gas > brake then gas - brake else 0.0
  {
    if !enabled || !adaptiveCruise || vEgo <= PedalMinSpeed then 0.0
    else
      var m := GasMultiplier(vEgo);
      var x := gas - brake;
      var v := m * x;
      ScaleDown(m, x, v);
      Clip(v, 0.0, 1.0)
  }

  /** Scaling by a factor in (0, 1] keeps the sign and does not grow a positive value. */
  lemma ScaleDown(m: real, x: real, v: real)
    requires 0.0 < m <= 1.0 && v == m * x
    ensures x > 0.0 ==> 0.0 < v <= x
    ensures x <= 0.0 ==> v <= 0.0
  {
    if x > 0.0 {
      assert x - v == (1.0 - m) * x;
    }
  }

  /** The pedal presses only when the shaped acceleration asks for gas. */
  lemma PedalOnlyOnGas(adaptiveCruise: bool, vEgo: real, accel: real)
    ensures var gb := ComputeGasBrake(accel, vEgo);
            var r := CommaPedal(true, adaptiveCruise, vEgo, gb.0, gb.1);
            (r > 0.0 <==> adaptiveCruise && vEgo > PedalMinSpeed && gb.0 > 0.0) && r <= gb.0
  {
  }

  /** The icon state: active when the camera reports lane keep active, critical when also steering hard. */
  function LkaIconStatus(lkasStatus: int, steer: real): (s: IconStatus)
    ensures s.critical ==> s.active
    ensures s.active <==> lkasStatus == 1
    ensures s.critical <==> lkasStatus == 1 && (steer > 0.9 || steer < -0.9)
  {
    var active := lkasStatus == 1;
    IconStatus(active, active && (if steer < 0.0 then -steer else steer) > 0.9)
  }

  /** The icon frame is sent on keepalive frames and whenever the icon state changes. */
  function IconDue(frame: nat, keepalive: nat, s: IconStatus, last: IconStatus): (b: bool)
    requires keepalive > 0
    ensures frame % keepalive == 0 ==> b
    ensures s != last ==> b
    ensures b && s == last ==> frame % keepalive == 0
  {
    frame % keepalive == 0 || s != last
  }

  /**
    Number of icon frames sent over consecutive frames f, f+1, ... with
    icon states ss, starting from the last sent state `last`.
  */
  function IconSends(f: nat, keepalive: nat, ss: seq<IconStatus>, last: IconStatus): nat
    requires keepalive > 0
    decreases |ss|
  {
    if ss == [] then 0
    else
      var due := IconDue(f, keepalive, ss[0], last);
      (if due then 1 else 0) + IconSends(f + 1, keepalive, ss[1..], if due then ss[0] else last)
  }

  /** n % d == r for the quotient-remainder pair (q, r). */
  lemma ModOfSplit(n: nat, d: nat, q: nat, r: nat)
    requires 0 <= r < d && n == q * d + r
    ensures n % d == r
  {
    var q', r' := n / d, n % d;
    assert n == q' * d + r';
    if q' < q {
      MulStep(q', q, d);
      assert false;
    } else if q' > q {
      MulStep(q, q', d);
      assert false;
    }
  }

  /** A larger factor gives a product at least one multiple of d larger. */
  lemma {:induction false} MulStep(a: nat, b: nat, d: nat)
    requires a < b
    ensures a * d + d <= b * d
    decreases b - a
  {
    assert b * d == (b - 1) * d + d;
    if a < b - 1 {
      MulStep(a, b - 1, d);
    }
  }

  /** Frames strictly between two keepalives send nothing while the state stays. */
  lemma {:induction false} QuietStretch(f: nat, keepalive: nat, ss: seq<IconStatus>, last: IconStatus)
    requires keepalive > 0 && 0 < f % keepalive && f % keepalive + |ss| <= keepalive
    requires forall i :: 0 <= i < |ss| ==> ss[i] == last
    ensures IconSends(f, keepalive, ss, last) == 0
    decreases |ss|
  {
    if |ss| > 1 {
      ModOfSplit(f + 1, keepalive, f / keepalive, f % keepalive + 1);
      QuietStretch(f + 1, keepalive, ss[1..], last);
    }
  }

  /** Over a keepalive window with an unchanged state exactly one icon frame is sent. */
  lemma KeepaliveWindow(k: nat, keepalive: nat, ss: seq<IconStatus>, last: IconStatus)
    requires keepalive > 0 && |ss| == keepalive
    requires forall i :: 0 <= i < |ss| ==> ss[i] == last
    ensures IconSends(k * keepalive, keepalive, ss, last) == 1
  {
    ModOfSplit(k * keepalive, keepalive, k, 0);
    if keepalive > 1 {
      ModOfSplit(k * keepalive + 1, keepalive, k, 1);
      QuietStretch(k * keepalive + 1, keepalive, ss[1..], last);
    }
  }

  /** Splitting a run of frames at any point. */
  lemma {:induction false} IconSendsAppend(f: nat, keepalive: nat, a: seq<IconStatus>, b: seq<IconStatus>, last: IconStatus)
    requires keepalive > 0 && a != []
    ensures IconSends(f, keepalive, a + b, last) ==
              IconSends(f, keepalive, a, last) + IconSends(f + |a|, keepalive, b, a[|a| - 1])
    decreases |a|
  {
    assert (a + b)[0] == a[0];
    assert (a + b)[1..] == a[1..] + b;
    var due := IconDue(f, keepalive, a[0], last);
    if |a| == 1 {
      assert a[1..] + b == b;
      if !due {
        assert a[0] == last;
      }
    } else {
      IconSendsAppend(f + 1, keepalive, a[1..], b, if due then a[0] else last);
    }
  }

  /** A change of icon state inside a keepalive window costs exactly one more frame. */
  lemma EdgeInWindow(k: nat, keepalive: nat, j: nat, last: IconStatus, next: IconStatus, ss: seq<IconStatus>)
    requires 0 < j < keepalive && next != last && |ss| == keepalive
    requires forall i :: 0 <= i < j ==> ss[i] == last
    requires forall i :: j <= i < keepalive ==> ss[i] == next
    ensures IconSends(k * keepalive, keepalive, ss, last) == 2
  {
    var f := k * keepalive;
    var a, b := ss[..j], ss[j..];
    assert ss == a + b;
    IconSendsAppend(f, keepalive, a, b, last);
    KeepaliveWindowPrefix(k, keepalive, a, last);
    ModOfSplit(f + j, keepalive, k, j);
    assert b[0] == next;
    if |b| > 1 {
      ModOfSplit(f + j + 1, keepalive, k, j + 1);
      QuietStretch(f + j + 1, keepalive, b[1..], next);
    }
  }

  /** The first part of a window with an unchanged state sends only the keepalive. */
  lemma KeepaliveWindowPrefix(k: nat, keepalive: nat, a: seq<IconStatus>, last: IconStatus)
    requires 0 < |a| <= keepalive
    requires forall i :: 0 <= i < |a| ==> a[i] == last
    ensures IconSends(k * keepalive, keepalive, a, last) == 1
  {
    ModOfSplit(k * keepalive, keepalive, k, 0);
    if |a| > 1 {
      ModOfSplit(k * keepalive + 1, keepalive, k, 1);
      QuietStretch(k * keepalive + 1, keepalive, a[1..], last);
    }
  }

  /** A steering frame is due: the loopback counter is unchanged and this is a steering frame. */
  function SteerTick(p: ControllerParams, frame: nat, counter: int, counterLast: int): (b: bool)
    requires p.Valid()
    ensures counter != counterLast ==> !b
    ensures frame % p.steerStep != 0 ==> !b
    ensures counter == counterLast && frame % p.steerStep == 0 ==> b
  {
    counter == counterLast && frame % p.steerStep == 0
  }

  /** The torque to apply: the limiter's output while lane keep is enabled, otherwise zero. */
  function SteerTorque(p: ControllerParams, limiter: TorqueLimiter, enabled: bool, cs: CarStateView,
                       newSteer: int, applySteerLast: int): (t: int)
    ensures !LkasEnabled(p, enabled, cs) ==> t == 0
  {
    if LkasEnabled(p, enabled, cs) then limiter(newSteer, applySteerLast, cs.steeringTorque) else 0
  }

  /** The steering part of one tick: nothing on a counter change or off a steering frame. */
  function SteerCommands(p: ControllerParams, limiter: TorqueLimiter, enabled: bool, cs: CarStateView,
                         frame: nat, newSteer: int, counterLast: int, applySteerLast: int): (r: seq<CanCommand>)
    requires p.Valid()
    ensures |r| <= 1
    ensures r != [] <==> cs.lkaSteeringCmdCounter == counterLast && frame % p.steerStep == 0
    ensures cs.lkaSteeringCmdCounter != counterLast ==> r == []
    ensures r != [] ==>
              && r[0].Steering?
              && 0 <= r[0].idx < 4
              && r[0].idx == (cs.lkaSteeringCmdCounter + 1) % 4
              && (r[0].active <==> LkasEnabled(p, enabled, cs))
              && (!r[0].active ==> r[0].torque == 0)
  {
    if SteerTick(p, frame, cs.lkaSteeringCmdCounter, counterLast) then
      [Steering(SteerTorque(p, limiter, enabled, cs, newSteer, applySteerLast),
                SteerIndex(cs.lkaSteeringCmdCounter), LkasEnabled(p, enabled, cs))]
    else
      []
  }

  /** Gas and brake of one tick: shaped from the acceleration when engaged, zero otherwise. */
  function TickGasBrake(enabled: bool, accel: real, vEgo: real): (gb: (real, real))
    ensures 0.0 <= gb.0 <= 1.0 && 0.0 <= gb.1 <= 1.0
    ensures !enabled ==> gb == (0.0, 0.0)
  {
    if enabled then ComputeGasBrake(accel, vEgo) else (0.0, 0.0)
  }

  /** The pedal part of one tick: every fourth frame when the car has a gas interceptor. */
  function PedalCommands(enabled: bool, cs: CarStateView, frame: nat, accel: real): (r: seq<CanCommand>)
    ensures |r| <= 1
    ensures r != [] <==> cs.enableGasInterceptor && frame % 4 == 0
    ensures r != [] ==>
              && r[0].Pedal?
              && 0.0 <= r[0].frac <= 1.0
              && r[0].idx == (frame / 4) % 4
              && (!enabled || !cs.adaptiveCruise || cs.vEgo <= PedalMinSpeed ==> r[0].frac == 0.0)
  {
    if cs.enableGasInterceptor && frame % 4 == 0 then
      var gb := TickGasBrake(enabled, accel, cs.vEgo);
      [Pedal(CommaPedal(enabled, cs.adaptiveCruise, cs.vEgo, gb.0, gb.1), PedalIndex(frame))]
    else
      []
  }

  /** The icon part of one tick: on keepalive frames and on a change of the icon state. */
  function IconCommands(p: ControllerParams, frame: nat, cs: CarStateView, steer: real,
                        hudAlert: VisualAlert, last: IconStatus): (r: seq<CanCommand>)
    requires p.Valid()
    ensures |r| <= 1
    ensures r != [] <==> frame % p.cameraKeepaliveStep == 0 || LkaIconStatus(cs.lkasStatus, steer) != last
    ensures r != [] ==>
              && r[0].Icon?
              && (r[0].critical ==> r[0].active)
              && (r[0].active <==> cs.lkasStatus == 1)
              && (r[0].alert <==> hudAlert == SteerRequired || hudAlert == Ldw)
  {
    var s := LkaIconStatus(cs.lkasStatus, steer);
    if IconDue(frame, p.cameraKeepaliveStep, s, last) then
      [Icon(s.active, s.critical, hudAlert == SteerRequired || hudAlert == Ldw)]
    else
      []
  }

  /** At most three commands, steering first and the icon last. */
  lemma CommandOrder(steer: seq<CanCommand>, pedal: seq<CanCommand>, icon: seq<CanCommand>)
    requires |steer| <= 1 && |pedal| <= 1 && |icon| <= 1
    requires forall k :: 0 <= k < |steer| ==> steer[k].Steering?
    requires forall k :: 0 <= k < |pedal| ==> pedal[k].Pedal?
    requires forall k :: 0 <= k < |icon| ==> icon[k].Icon?
    ensures var s := steer + pedal + icon;
            && |s| <= 3
            && (forall k :: 0 <= k < |s| && s[k].Steering? ==> k == 0)
            && (forall k :: 0 <= k < |s| && s[k].Icon? ==> k == |s| - 1)
            && ((exists k :: 0 <= k < |s| && s[k].Steering?) <==> steer != [])
            && ((exists k :: 0 <= k < |s| && s[k].Pedal?) <==> pedal != [])
            && ((exists k :: 0 <= k < |s| && s[k].Icon?) <==> icon != [])
  {
    var s := steer + pedal + icon;
    if steer != [] { assert s[0].Steering?; }
    if pedal != [] { assert s[|steer|].Pedal?; }
    if icon != [] { assert s[|s| - 1].Icon?; }
  }

  class CarController {
    var applySteerLast: int
    var lkaSteeringCmdCounterLast: int
    var lkaIconStatusLast: IconStatus
    var steerRateLimited: bool
    var accelSteady: real

    constructor ()
      ensures applySteerLast == 0 && lkaSteeringCmdCounterLast == -1
      ensures lkaIconStatusLast == IconStatus(false, false)
      ensures !steerRateLimited && accelSteady == 0.0
    {
      applySteerLast := 0;
      lkaSteeringCmdCounterLast := -1;
      lkaIconStatusLast := IconStatus(false, false);
      steerRateLimited := false;
      accelSteady := 0.0;
    }

    /**
      Steering part of a tick. A changed loopback counter is recorded and
      nothing is sent; otherwise, on a steering frame, the torque (zero
      unless lane keep is enabled) becomes apply_steer_last and is sent
      with the index after the last accepted counter.
    */
    method SteerStep(p: ControllerParams, limiter: TorqueLimiter, enabled: bool, cs: CarStateView,
                     frame: nat, newSteer: int)
      returns (sends: seq<CanCommand>)
      requires p.Valid()
      modifies this
      ensures sends == SteerCommands(p, limiter, enabled, cs, frame, newSteer,
                                     old(lkaSteeringCmdCounterLast), old(applySteerLast))
      ensures lkaSteeringCmdCounterLast == cs.lkaSteeringCmdCounter
      ensures var tick := SteerTick(p, frame, cs.lkaSteeringCmdCounter, old(lkaSteeringCmdCounterLast));
              var torque := SteerTorque(p, limiter, enabled, cs, newSteer, old(applySteerLast));
              && applySteerLast == (if tick then torque else old(applySteerLast))
              && steerRateLimited ==
                   (if tick && LkasEnabled(p, enabled, cs) then newSteer != torque else old(steerRateLimited))
      ensures sends != [] ==> sends[0].torque == applySteerLast
      ensures lkaIconStatusLast == old(lkaIconStatusLast) && accelSteady == old(accelSteady)
    {
      sends := [];
      if cs.lkaSteeringCmdCounter != lkaSteeringCmdCounterLast {
        lkaSteeringCmdCounterLast := cs.lkaSteeringCmdCounter;
      } else if frame % p.steerStep == 0 {
        var lkasEnabled := enabled && !(cs.steerWarning || cs.steerError) && cs.vEgo > p.minSteerSpeed;
        var applySteer: int;
        if lkasEnabled {
          applySteer := limiter(newSteer, applySteerLast, cs.steeringTorque);
          steerRateLimited := newSteer != applySteer;
        } else {
          applySteer := 0;
        }
        applySteerLast := applySteer;
        var idx := (cs.lkaSteeringCmdCounter + 1) % 4;
        sends := sends + [Steering(applySteer, idx, lkasEnabled)];
      }
    }

    /**
      Icon part of a tick: the icon is sent on keepalive frames and when
      its state differs from the last one sent, which is then recorded.
    */
    method IconStep(p: ControllerParams, frame: nat, cs: CarStateView, steer: real, hudAlert: VisualAlert)
      returns (sends: seq<CanCommand>)
      requires p.Valid()
      modifies this
      ensures sends == IconCommands(p, frame, cs, steer, hudAlert, old(lkaIconStatusLast))
      ensures lkaIconStatusLast ==
                if IconDue(frame, p.cameraKeepaliveStep, LkaIconStatus(cs.lkasStatus, steer), old(lkaIconStatusLast))
                then LkaIconStatus(cs.lkasStatus, steer) else old(lkaIconStatusLast)
      ensures lkaIconStatusLast == LkaIconStatus(cs.lkasStatus, steer)
      ensures applySteerLast == old(applySteerLast) && steerRateLimited == old(steerRateLimited)
      ensures lkaSteeringCmdCounterLast == old(lkaSteeringCmdCounterLast) && accelSteady == old(accelSteady)
    {
      sends := [];
      var lkaActive := cs.lkasStatus == 1;
      var lkaCritical := lkaActive && (if steer < 0.0 then -steer else steer) > 0.9;
      var lkaIconStatus := IconStatus(lkaActive, lkaCritical);
      if frame % p.cameraKeepaliveStep == 0 || lkaIconStatus != lkaIconStatusLast {
        var steerAlert := hudAlert == SteerRequired || hudAlert == Ldw;
        sends := sends + [Icon(lkaActive, lkaCritical, steerAlert)];
        lkaIconStatusLast := lkaIconStatus;
      }
    }

    /**
      One control tick. Returns the commands in emission order: at most a
      steering command, then a pedal command, then an icon command.
      `newSteer` is the steering request already scaled and rounded.
      The hud speed, lanes and lead arguments are not read.
    */
    method Update(p: ControllerParams, limiter: TorqueLimiter, enabled: bool, cs: CarStateView,
                  frame: nat, actuators: Actuators, newSteer: int,
                  hudVCruise: real, hudShowLanes: bool, hudShowCar: bool, hudAlert: VisualAlert)
      returns (canSends: seq<CanCommand>)
      requires p.Valid()
      modifies this
      ensures canSends ==
                SteerCommands(p, limiter, enabled, cs, frame, newSteer, old(lkaSteeringCmdCounterLast), old(applySteerLast))
                + PedalCommands(enabled, cs, frame, actuators.accel)
                + IconCommands(p, frame, cs, actuators.steer, hudAlert, old(lkaIconStatusLast))
      ensures |canSends| <= 3
      // counter sync: the loopback counter is always recorded
      ensures lkaSteeringCmdCounterLast == cs.lkaSteeringCmdCounter
      // apply_steer_last and steer_rate_limited move only on a steering frame
      ensures var tick := SteerTick(p, frame, cs.lkaSteeringCmdCounter, old(lkaSteeringCmdCounterLast));
              var torque := SteerTorque(p, limiter, enabled, cs, newSteer, old(applySteerLast));
              && applySteerLast == (if tick then torque else old(applySteerLast))
              && steerRateLimited ==
                   (if tick && LkasEnabled(p, enabled, cs) then newSteer != torque else old(steerRateLimited))
      ensures canSends != [] && canSends[0].Steering? ==> canSends[0].torque == applySteerLast
      // the icon field always ends as the current icon state
      ensures lkaIconStatusLast == LkaIconStatus(cs.lkasStatus, actuators.steer)
      ensures accelSteady == old(accelSteady)
    {
      var gas: real, brake: real;
      if enabled {
        var gb := ComputeGasBrake(actuators.accel, cs.vEgo);
        gas, brake := gb.0, gb.1;
      } else {
        gas, brake := 0.0, 0.0;
      }
      assert (gas, brake) == TickGasBrake(enabled, actuators.accel, cs.vEgo);

      canSends := SteerStep(p, limiter, enabled, cs, frame, newSteer);
      ghost var steerPart := canSends;

      if cs.enableGasInterceptor {
        var commaPedal: real;
        if !enabled || !cs.adaptiveCruise || cs.vEgo <= PedalMinSpeed {
          commaPedal := 0.0;
        } else {
          var gasMult := GasMultiplier(cs.vEgo);
          commaPedal := Clip(gasMult * (gas - brake), 0.0, 1.0);
        }
        assert commaPedal == CommaPedal(enabled, cs.adaptiveCruise, cs.vEgo, gas, brake);
        if frame % 4 == 0 {
          var idx := (frame / 4) % 4;
          canSends := canSends + [Pedal(commaPedal, idx)];
        }
      }
      assert canSends == steerPart + PedalCommands(enabled, cs, frame, actuators.accel);

      var iconSends := IconStep(p, frame, cs, actuators.steer, hudAlert);
      canSends := canSends + iconSends;
    }
  }
}
