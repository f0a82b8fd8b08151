/**
  The GM car interface: once per state update it derives the button
  event, runs the engagement state machine and the auto-engage guard;
  once per control tick it clamps the set speed, runs the car controller
  and advances the frame counter.
  Bus parsing, the common event checks and the parameter tables are not
  part of this model: their results are inputs.
*/
module GmInterface {
  import opened Engagement
  import opened GmController

  /** The decoded vehicle state one update reads. */
  datatype DecodedState = DecodedState(
    mainOn: bool,
    cruiseButtons: CruiseButton,
    prevCruiseButtons: CruiseButton,
    gearShifter: GearShifter,
    vEgo: real,
    brakePressed: bool,
    cruiseAvailable: bool,
    seatbeltUnlatched: bool,
    espDisabled: bool)

  /** The parts of the returned car state this core fills in. */
  datatype CarStateOut = CarStateOut(
    cruiseEnabled: bool,
    buttonEvents: seq<ButtonEvent>,
    events: set<EventName>,
    steeringRateLimited: bool)

  /** The measured part of the car state the controller reads. */
  datatype Measured = Measured(
    vEgo: real,
    steerWarning: bool,
    steerError: bool,
    steeringTorque: real,
    lkaSteeringCmdCounter: int,
    lkasStatus: int)

  datatype HudControl = HudControl(setSpeed: real, lanesVisible: bool, leadVisible: bool, visualAlert: VisualAlert)

  /** The control request of one tick. */
  datatype CarControl = CarControl(enabled: bool, actuators: Actuators, hudControl: HudControl)

  /** Speed above which the auto-engage guard runs (m/s). */
  const AutoEngageMinSpeed: real := 2.4
  /** Set speeds above this are not shown. */
  const MaxHudSetSpeed: real := 70.0

  /** The outer auto-engage condition, on the flags after the button handling. */
  function AutoEngageReady(st: DecodedState, f: Flags, cruiseEnabled: bool): (b: bool)
    // only with lane keep alone engaged
    ensures b ==> f == Flags(false, true)
    ensures b ==> st.mainOn && cruiseEnabled && st.gearShifter == Drive
                  && st.vEgo > AutoEngageMinSpeed && !st.brakePressed
    ensures (f == Flags(false, true) && st.mainOn && cruiseEnabled && st.gearShifter == Drive
             && st.vEgo > AutoEngageMinSpeed && !st.brakePressed) ==> b
  {
    st.mainOn && f.enableLkas && !f.adaptiveCruise && cruiseEnabled
    && st.gearShifter == Drive && st.vEgo > AutoEngageMinSpeed && !st.brakePressed
  }

  /** The inner auto-engage condition, without the arm flag. */
  function AutoEngageAllowed(st: DecodedState): (b: bool)
    ensures !st.cruiseAvailable ==> !b
    ensures st.seatbeltUnlatched ==> !b
    ensures st.espDisabled ==> !b
    ensures st.cruiseAvailable && !st.seatbeltUnlatched && !st.espDisabled ==> b
  {
    st.cruiseAvailable && !st.seatbeltUnlatched && !st.espDisabled
  }

  /** The set speed sent to the controller: speeds above 70 become 0. */
  function HudSetSpeed(setSpeed: real): (r: real)
    ensures r <= MaxHudSetSpeed
    ensures setSpeed <= MaxHudSetSpeed ==> r == setSpeed
    ensures setSpeed > MaxHudSetSpeed ==> r == 0.0
  {
    if setSpeed > MaxHudSetSpeed then 0.0 else setSpeed
  }

  class CarInterface {
    const enableGasInterceptor: bool
    const cc: CarController
    // adaptive_Cruise and enable_lkas are fields of the car state object in the source
    var adaptiveCruise: bool
    var enableLkas: bool
    var flagPcmEnableAble: bool
    var flagPcmEnableInitialSet: bool
    var initialPcmEnableCounter: int
    var frame: nat

    function EngageFlags(): Flags
      reads this
    {
      Flags(adaptiveCruise, enableLkas)
    }

    function AutoEngageGuard(): Guard
      reads this
    {
      Guard(flagPcmEnableAble, flagPcmEnableInitialSet, initialPcmEnableCounter)
    }

    constructor (enableGasInterceptor: bool, cc: CarController, flags: Flags, guard: Guard, frame: nat)
      ensures this.enableGasInterceptor == enableGasInterceptor && this.cc == cc
      ensures EngageFlags() == flags && AutoEngageGuard() == guard && this.frame == frame
    {
      this.enableGasInterceptor := enableGasInterceptor;
      this.cc := cc;
      adaptiveCruise := flags.adaptiveCruise;
      enableLkas := flags.enableLkas;
      flagPcmEnableAble := guard.able;
      flagPcmEnableInitialSet := guard.initialSet;
      initialPcmEnableCounter := guard.counter;
      this.frame := frame;
    }

    /** The button-event derivation of one update, as the source builds the list. */
    static method DeriveButtonEvents(prev: CruiseButton, cur: CruiseButton) returns (buttonEvents: seq<ButtonEvent>)
      ensures buttonEvents == ButtonEvents(prev, cur)
    {
      buttonEvents := [];
      if cur != prev && prev != Init {
        var pressed: bool;
        var but: CruiseButton;
        if cur != Unpress {
          pressed := true;
          but := cur;
        } else {
          pressed := false;
          but := prev;
        }
        var kind := Unknown;
        if but == ResAccel {
          kind := AccelCruise;
        } else if but == DecelSet {
          kind := DecelCruise;
        } else if but == Cancel {
          kind := CancelCruise;
        } else if but == Main {
          kind := AltButton3;
        }
        buttonEvents := buttonEvents + [ButtonEvent(kind, pressed)];
      }
    }

    /**
      The button handling: with a gas interceptor the first matching event
      decides, the rest are skipped; without one the flags follow the main
      switch. Returns the events with those the handling adds.
    */
    method HandleButtonEvents(mainOn: bool, buttonEvents: seq<ButtonEvent>, events: set<EventName>)
      returns (events': set<EventName>)
      modifies this
      ensures var h := HandleButtons(enableGasInterceptor, mainOn, old(EngageFlags()), buttonEvents);
              EngageFlags() == h.flags && events' == events + h.added
      ensures AutoEngageGuard() == old(AutoEngageGuard()) && frame == old(frame)
    {
      events' := events;
      ghost var before := EngageFlags();
      if enableGasInterceptor {
        if !mainOn {
          for i := 0 to |buttonEvents|
            invariant EngageFlags() == before && events' == events
            invariant FirstMatch(false, before, buttonEvents) == FirstMatch(false, before, buttonEvents[i..])
            invariant AutoEngageGuard() == old(AutoEngageGuard()) && frame == old(frame)
          {
            var b := buttonEvents[i];
            assert buttonEvents[i..][0] == b && buttonEvents[i..][1..] == buttonEvents[i + 1..];
            if b.kind == DecelCruise && !b.pressed && !adaptiveCruise {
              adaptiveCruise := true;
              enableLkas := true;
              events' := events' + {ButtonEnable};
              break;
            }
            if b.kind == AccelCruise && !b.pressed && !adaptiveCruise {
              adaptiveCruise := true;
              enableLkas := true;
              events' := events' + {ButtonEnable};
              break;
            }
            if b.kind == CancelCruise && b.pressed && adaptiveCruise {
              adaptiveCruise := false;
              enableLkas := false;
              events' := events' + {ButtonCancel};
              break;
            }
            if b.kind == AltButton3 && b.pressed {
              adaptiveCruise := false;
              enableLkas := true;
              break;
            }
          }
        } else {
          for i := 0 to |buttonEvents|
            invariant EngageFlags() == before && events' == events
            invariant FirstMatch(true, before, buttonEvents) == FirstMatch(true, before, buttonEvents[i..])
            invariant AutoEngageGuard() == old(AutoEngageGuard()) && frame == old(frame)
          {
            var b := buttonEvents[i];
            assert buttonEvents[i..][0] == b && buttonEvents[i..][1..] == buttonEvents[i + 1..];
            if !adaptiveCruise && b.kind == AltButton3 && b.pressed {
              adaptiveCruise := false;
              enableLkas := false;
              break;
            }
          }
        }
      } else {
        if mainOn {
          adaptiveCruise := false;
          enableLkas := true;
        } else {
          adaptiveCruise := false;
          enableLkas := false;
        }
      }
    }

    /**
      The auto-engage guard on the flags after the button handling. While
      armed and held, the counter counts up and past 750 the guard disarms
      and the counter restarts at 0; a broken outer condition only re-arms.
      Returns whether the enable event is added.
    */
    method AutoEngageStep(st: DecodedState, cruiseEnabled: bool) returns (enable: bool)
      modifies this
      ensures var g := GuardStep(AutoEngageReady(st, EngageFlags(), cruiseEnabled),
                                 AutoEngageAllowed(st), old(AutoEngageGuard()));
              AutoEngageGuard() == g.guard && enable == g.enable
      ensures EngageFlags() == old(EngageFlags()) && frame == old(frame)
    {
      enable := false;
      if st.mainOn && enableLkas && !adaptiveCruise && cruiseEnabled && st.gearShifter == Drive
         && st.vEgo > AutoEngageMinSpeed && !st.brakePressed {
        if st.cruiseAvailable && !st.seatbeltUnlatched && !st.espDisabled && flagPcmEnableAble {
          if flagPcmEnableInitialSet == false {
            initialPcmEnableCounter := initialPcmEnableCounter + 1;
            if initialPcmEnableCounter > AutoEngageLimit {
              flagPcmEnableAble := false;
              initialPcmEnableCounter := 0;
            }
          } else {
            flagPcmEnableAble := false;
            enable := true;
          }
        }
      } else {
        flagPcmEnableAble := true;
      }
    }

    /**
      One state update. `commonEvents` are the events the common checks
      raised for this state; the update only adds to them.
    */
    method Update(st: DecodedState, commonEvents: set<EventName>) returns (out: CarStateOut)
      modifies this
      // cruise enabled is read before the buttons are handled
      ensures out.cruiseEnabled == (st.mainOn || old(adaptiveCruise))
      ensures out.buttonEvents == ButtonEvents(st.prevCruiseButtons, st.cruiseButtons)
      ensures |out.buttonEvents| <= 1
      // the flags are decided by the button handling alone; the guard never touches them
      ensures EngageFlags() ==
                HandleButtons(enableGasInterceptor, st.mainOn, old(EngageFlags()), out.buttonEvents).flags
      ensures var g := GuardStep(AutoEngageReady(st, EngageFlags(), out.cruiseEnabled),
                                 AutoEngageAllowed(st), old(AutoEngageGuard()));
              && AutoEngageGuard() == g.guard
              && out.events ==
                   commonEvents
                   + HandleButtons(enableGasInterceptor, st.mainOn, old(EngageFlags()), out.buttonEvents).added
                   + (if g.enable then {ButtonEnable} else {})
      ensures old(initialPcmEnableCounter) <= AutoEngageLimit ==> initialPcmEnableCounter <= AutoEngageLimit
      ensures flagPcmEnableInitialSet == old(flagPcmEnableInitialSet) && frame == old(frame)
      ensures out.steeringRateLimited == cc.steerRateLimited
    {
      var cruiseEnabled := st.mainOn || adaptiveCruise;
      var buttonEvents := DeriveButtonEvents(st.prevCruiseButtons, st.cruiseButtons);
      var events := HandleButtonEvents(st.mainOn, buttonEvents, commonEvents);
      var enable := AutoEngageStep(st, cruiseEnabled);
      if enable {
        events := events + {ButtonEnable};
      }
      out := CarStateOut(cruiseEnabled, buttonEvents, events, cc.steerRateLimited);
    }

    /**
      The controller part of one control tick, on this tick's frame and
      the current adaptive cruise flag. The interface's own fields are
      untouched.
    */
    method ControllerTick(p: ControllerParams, limiter: TorqueLimiter, c: CarControl, m: Measured, newSteer: int)
      returns (canSends: seq<CanCommand>)
      requires p.Valid()
      modifies cc
      ensures var cs := CarStateView(m.vEgo, m.steerWarning, m.steerError, m.steeringTorque,
                                     m.lkaSteeringCmdCounter, m.lkasStatus, enableGasInterceptor, adaptiveCruise);
              canSends ==
                SteerCommands(p, limiter, c.enabled, cs, frame, newSteer,
                              old(cc.lkaSteeringCmdCounterLast), old(cc.applySteerLast))
                + PedalCommands(c.enabled, cs, frame, c.actuators.accel)
                + IconCommands(p, frame, cs, c.actuators.steer, c.hudControl.visualAlert, old(cc.lkaIconStatusLast))
      ensures |canSends| <= 3
      ensures cc.lkaSteeringCmdCounterLast == m.lkaSteeringCmdCounter
      ensures var cs := CarStateView(m.vEgo, m.steerWarning, m.steerError, m.steeringTorque,
                                     m.lkaSteeringCmdCounter, m.lkasStatus, enableGasInterceptor, adaptiveCruise);
              var tick := SteerTick(p, frame, m.lkaSteeringCmdCounter, old(cc.lkaSteeringCmdCounterLast));
              var torque := SteerTorque(p, limiter, c.enabled, cs, newSteer, old(cc.applySteerLast));
              && cc.applySteerLast == (if tick then torque else old(cc.applySteerLast))
              && cc.steerRateLimited ==
                   (if tick && LkasEnabled(p, c.enabled, cs) then newSteer != torque else old(cc.steerRateLimited))
      ensures cc.lkaIconStatusLast == LkaIconStatus(m.lkasStatus, c.actuators.steer)
      ensures cc.accelSteady == old(cc.accelSteady)
      ensures !adaptiveCruise ==>
                forall k :: 0 <= k < |canSends| && canSends[k].Pedal? ==> canSends[k].frac == 0.0
    {
      var hudVCruise := HudSetSpeed(c.hudControl.setSpeed);
      var cs := CarStateView(m.vEgo, m.steerWarning, m.steerError, m.steeringTorque,
                             m.lkaSteeringCmdCounter, m.lkasStatus, enableGasInterceptor, adaptiveCruise);
      canSends := cc.Update(p, limiter, c.enabled, cs, frame, c.actuators, newSteer,
                            hudVCruise, c.hudControl.lanesVisible, c.hudControl.leadVisible,
                            c.hudControl.visualAlert);
      CommandOrder(
        SteerCommands(p, limiter, c.enabled, cs, frame, newSteer,
                      old(cc.lkaSteeringCmdCounterLast), old(cc.applySteerLast)),
        PedalCommands(c.enabled, cs, frame, c.actuators.accel),
        IconCommands(p, frame, cs, c.actuators.steer, c.hudControl.visualAlert, old(cc.lkaIconStatusLast)));
    }

    /**
      One control tick: set speeds above 70 are replaced by 0, the car
      controller runs on this tick's frame with the current adaptive
      cruise flag, and the frame counter advances by one.
    */
    method Apply(p: ControllerParams, limiter: TorqueLimiter, c: CarControl, m: Measured, newSteer: int)
      returns (canSends: seq<CanCommand>)
      requires p.Valid()
      modifies this, cc
      ensures frame == old(frame) + 1
      ensures EngageFlags() == old(EngageFlags()) && AutoEngageGuard() == old(AutoEngageGuard())
      ensures var cs := CarStateView(m.vEgo, m.steerWarning, m.steerError, m.steeringTorque,
                                     m.lkaSteeringCmdCounter, m.lkasStatus, enableGasInterceptor, adaptiveCruise);
              canSends ==
                SteerCommands(p, limiter, c.enabled, cs, old(frame), newSteer,
                              old(cc.lkaSteeringCmdCounterLast), old(cc.applySteerLast))
                + PedalCommands(c.enabled, cs, old(frame), c.actuators.accel)
                + IconCommands(p, old(frame), cs, c.actuators.steer, c.hudControl.visualAlert, old(cc.lkaIconStatusLast))
      ensures |canSends| <= 3
      // the controller's new state, as CarController.Update gives it
      ensures cc.lkaSteeringCmdCounterLast == m.lkaSteeringCmdCounter
      ensures var cs := CarStateView(m.vEgo, m.steerWarning, m.steerError, m.steeringTorque,
                                     m.lkaSteeringCmdCounter, m.lkasStatus, enableGasInterceptor, adaptiveCruise);
              var tick := SteerTick(p, old(frame), m.lkaSteeringCmdCounter, old(cc.lkaSteeringCmdCounterLast));
              var torque := SteerTorque(p, limiter, c.enabled, cs, newSteer, old(cc.applySteerLast));
              && cc.applySteerLast == (if tick then torque else old(cc.applySteerLast))
              && cc.steerRateLimited ==
                   (if tick && LkasEnabled(p, c.enabled, cs) then newSteer != torque else old(cc.steerRateLimited))
      ensures cc.lkaIconStatusLast == LkaIconStatus(m.lkasStatus, c.actuators.steer)
      ensures cc.accelSteady == old(cc.accelSteady)
      // without adaptive cruise every pedal command is zero
      ensures !adaptiveCruise ==>
                forall k :: 0 <= k < |canSends| && canSends[k].Pedal? ==> canSends[k].frac == 0.0
    {
      canSends := ControllerTick(p, limiter, c, m, newSteer);
      frame := frame + 1;
    }
  }
}
