/**
  Engagement logic of the GM car interface, stated as values:
  the derivation of a button event from two successive cruise-button
  codes, the first-match rules that toggle adaptive cruise and lane keep,
  and one step of the auto-engage guard. The class CarInterface in
  module GmInterface runs these steps in place and is proved against them.
*/
module Engagement {

  datatype Option<T> = None | Some(value: T)

  /** Cruise-button codes as decoded from the steering-wheel switch. */
  datatype CruiseButton = Init | Unpress | ResAccel | DecelSet | Cancel | Main | OtherButton(code: int)

  /** Button types a ButtonEvent can carry. */
  datatype ButtonType = Unknown | AccelCruise | DecelCruise | CancelCruise | AltButton3

  datatype ButtonEvent = ButtonEvent(kind: ButtonType, pressed: bool)

  /** Event tags: the two this core adds, and any event the common checks add. */
  datatype EventName = ButtonEnable | ButtonCancel | CommonEvent(id: nat)

  datatype GearShifter = UnknownGear | Park | Drive | Neutral | Reverse | Sport | Low | Brake | Eco | Manumatic

  /** Type of the event a cruise-button code produces. */
  function TypeOf(b: CruiseButton): (t: ButtonType)
    ensures t == AccelCruise <==> b == ResAccel
    ensures t == DecelCruise <==> b == DecelSet
    ensures t == CancelCruise <==> b == Cancel
    ensures t == AltButton3 <==> b == Main
  {
    match b
    case ResAccel => AccelCruise
    case DecelSet => DecelCruise
    case Cancel => CancelCruise
    case Main => AltButton3
    case _ => Unknown
  }

  /**
    The button events of one update: one event on a change of the button
    code, unless the previous code is Init. A press reports the new code,
    a release reports the code that was let go.
  */
  function ButtonEvents(prev: CruiseButton, cur: CruiseButton): (r: seq<ButtonEvent>)
    ensures |r| <= 1
    ensures |r| == 1 <==> cur != prev && prev != Init
    ensures |r| == 1 ==> (r[0].pressed <==> cur != Unpress)
    ensures |r| == 1 && cur != Unpress ==> r[0].kind == TypeOf(cur)
    ensures |r| == 1 && cur == Unpress ==> r[0].kind == TypeOf(prev)
    ensures |r| == 1 ==>
              (r[0].kind == Unknown <==>
                 var b := if cur != Unpress then cur else prev;
                 !(b == ResAccel || b == DecelSet || b == Cancel || b == Main))
  {
    if cur != prev && prev != Init then
      var pressed := cur != Unpress;
      var but := if pressed then cur else prev;
      [ButtonEvent(TypeOf(but), pressed)]
    else
      []
  }

  /** A press followed by its release gives two events of the same type. */
  lemma PressThenRelease(b: CruiseButton)
    requires b != Unpress && b != Init
    ensures ButtonEvents(Unpress, b) == [ButtonEvent(TypeOf(b), true)]
    ensures ButtonEvents(b, Unpress) == [ButtonEvent(TypeOf(b), false)]
  {
  }

  /** The pair (adaptive cruise enabled, lane keep enabled). */
  datatype Flags = Flags(adaptiveCruise: bool, enableLkas: bool)

  /** The flags after the button handling, and the events it added. */
  datatype Outcome = Outcome(flags: Flags, added: set<EventName>)

  /**
    Main switch off: the four rules, tried in source order. Their
    conditions exclude each other, so the order does not decide the outcome.
  */
  function MainOffRule(f: Flags, e: ButtonEvent): (r: Option<Outcome>)
    ensures r.Some? <==>
              || ((e.kind == DecelCruise || e.kind == AccelCruise) && !e.pressed && !f.adaptiveCruise)
              || (e == ButtonEvent(CancelCruise, true) && f.adaptiveCruise)
              || e == ButtonEvent(AltButton3, true)
    ensures (e.kind == DecelCruise || e.kind == AccelCruise) && !e.pressed && !f.adaptiveCruise ==>
              r == Some(Outcome(Flags(true, true), {ButtonEnable}))
    ensures e == ButtonEvent(CancelCruise, true) && f.adaptiveCruise ==>
              r == Some(Outcome(Flags(false, false), {ButtonCancel}))
    ensures e == ButtonEvent(AltButton3, true) ==> r == Some(Outcome(Flags(false, true), {}))
  {
    if e.kind == DecelCruise && !e.pressed && !f.adaptiveCruise then
      Some(Outcome(Flags(true, true), {ButtonEnable}))
    else if e.kind == AccelCruise && !e.pressed && !f.adaptiveCruise then
      Some(Outcome(Flags(true, true), {ButtonEnable}))
    else if e.kind == CancelCruise && e.pressed && f.adaptiveCruise then
      Some(Outcome(Flags(false, false), {ButtonCancel}))
    else if e.kind == AltButton3 && e.pressed then
      Some(Outcome(Flags(false, true), {}))
    else
      None
  }

  /** Main switch on: only a main-button press with adaptive cruise off matches. */
  function MainOnRule(f: Flags, e: ButtonEvent): (r: Option<Outcome>)
    ensures r.Some? <==> !f.adaptiveCruise && e == ButtonEvent(AltButton3, true)
    ensures r.Some? ==> r.value == Outcome(Flags(false, false), {})
  {
    if !f.adaptiveCruise && e.kind == AltButton3 && e.pressed then
      Some(Outcome(Flags(false, false), {}))
    else
      None
  }

  /**
    The rule an event matches under the main switch's position. A match
    adds at most one event, buttonEnable or buttonCancel, and only with the
    main switch off; a match that adds one always changes the flags.
  */
  function Rule(mainOn: bool, f: Flags, e: ButtonEvent): (r: Option<Outcome>)
    ensures r.Some? ==> r.value.added == {} || r.value.added == {ButtonEnable} || r.value.added == {ButtonCancel}
    ensures r.Some? && r.value.added != {} ==> !mainOn && r.value.flags != f
    ensures r.Some? && mainOn ==> r.value.flags == Flags(false, false) && f.adaptiveCruise == false
  {
    if mainOn then MainOnRule(f, e) else MainOffRule(f, e)
  }

  /**
    The loop over the events: the flags stay as they are until the first
    event that matches a rule; that rule decides and the rest is skipped.
  */
  function FirstMatch(mainOn: bool, f: Flags, evs: seq<ButtonEvent>): (r: Outcome)
    ensures r.added <= {ButtonEnable, ButtonCancel}
    ensures r.added != {} ==> r.flags != f
  {
    if evs == [] then Outcome(f, {})
    else
      match Rule(mainOn, f, evs[0])
      case Some(o) => o
      case None => FirstMatch(mainOn, f, evs[1..])
  }

  /**
    Button handling of one update. Without a gas interceptor the buttons
    are ignored and the flags follow the main switch.
  */
  function HandleButtons(interceptor: bool, mainOn: bool, f: Flags, evs: seq<ButtonEvent>): (r: Outcome)
    ensures !interceptor ==> r == Outcome(Flags(false, mainOn), {})
    ensures interceptor ==> r == FirstMatch(mainOn, f, evs)
  {
    if interceptor then FirstMatch(mainOn, f, evs) else Outcome(Flags(false, mainOn), {})
  }

  /** The outcome is the rule of the first matching event. */
  lemma {:induction false} FirstMatchIsFirstRule(mainOn: bool, f: Flags, evs: seq<ButtonEvent>, i: nat)
    requires i < |evs| && Rule(mainOn, f, evs[i]).Some?
    requires forall j :: 0 <= j < i ==> Rule(mainOn, f, evs[j]).None?
    ensures FirstMatch(mainOn, f, evs) == Rule(mainOn, f, evs[i]).value
  {
    if i > 0 {
      assert Rule(mainOn, f, evs[0]).None?;
      FirstMatchIsFirstRule(mainOn, f, evs[1..], i - 1);
    }
  }

  /** When no event matches, the flags are unchanged and nothing is added. */
  lemma {:induction false} FirstMatchNoRule(mainOn: bool, f: Flags, evs: seq<ButtonEvent>)
    requires forall j :: 0 <= j < |evs| ==> Rule(mainOn, f, evs[j]).None?
    ensures FirstMatch(mainOn, f, evs) == Outcome(f, {})
  {
    if evs != [] {
      assert Rule(mainOn, f, evs[0]).None?;
      FirstMatchNoRule(mainOn, f, evs[1..]);
    }
  }

  /** Events after a matching one are ignored. */
  lemma {:induction false} FirstMatchAppend(mainOn: bool, f: Flags, a: seq<ButtonEvent>, b: seq<ButtonEvent>)
    ensures (exists j :: 0 <= j < |a| && Rule(mainOn, f, a[j]).Some?) ==>
              FirstMatch(mainOn, f, a + b) == FirstMatch(mainOn, f, a)
    ensures (forall j :: 0 <= j < |a| ==> Rule(mainOn, f, a[j]).None?) ==>
              FirstMatch(mainOn, f, a + b) == FirstMatch(mainOn, f, b)
  {
    if a == [] {
      assert a + b == b;
    } else {
      assert (a + b)[0] == a[0];
      assert (a + b)[1..] == a[1..] + b;
      FirstMatchAppend(mainOn, f, a[1..], b);
      if Rule(mainOn, f, a[0]).None? {
        if exists j :: 0 <= j < |a| && Rule(mainOn, f, a[j]).Some? {
          var j :| 0 <= j < |a| && Rule(mainOn, f, a[j]).Some?;
          assert a[1..][j - 1] == a[j];
        }
        if forall j :: 0 <= j < |a| ==> Rule(mainOn, f, a[j]).None? {
          assert forall j :: 0 <= j < |a| - 1 ==> a[1..][j] == a[j + 1];
        }
      }
    }
  }

  /**
    Main switch on: the flags change only when adaptive cruise is off and
    the main button is pressed, and then to (false, false); no event is added.
  */
  lemma {:induction false} MainOnOnlyMainPress(f: Flags, evs: seq<ButtonEvent>)
    ensures FirstMatch(true, f, evs) ==
              if !f.adaptiveCruise && ButtonEvent(AltButton3, true) in evs
              then Outcome(Flags(false, false), {})
              else Outcome(f, {})
  {
    if evs != [] {
      MainOnOnlyMainPress(f, evs[1..]);
      assert evs == [evs[0]] + evs[1..];
    }
  }

  /**
    Main switch off: a release of set or resume engages both flags and adds
    buttonEnable, a cancel press disengages both and adds buttonCancel, a
    main press leaves only lane keep on; otherwise nothing changes.
  */
  lemma {:induction false} MainOffOutcomes(f: Flags, evs: seq<ButtonEvent>)
    ensures var r := FirstMatch(false, f, evs);
            && (r.added == {ButtonEnable} || r.added == {ButtonCancel} || r.added == {})
            && (ButtonEnable in r.added <==> !f.adaptiveCruise && r.flags == Flags(true, true))
            && (ButtonCancel in r.added <==> f.adaptiveCruise && r.flags == Flags(false, false))
            && (r.added == {} ==> r.flags == f || r.flags == Flags(false, true))
  {
    if evs != [] && Rule(false, f, evs[0]).None? {
      MainOffOutcomes(f, evs[1..]);
    }
  }

  /** The state-machine example: resume pressed and released, then cancel pressed. */
  lemma ResumeThenCancel()
    ensures var off := Flags(false, false);
            var press := HandleButtons(true, false, off, ButtonEvents(Unpress, ResAccel));
            var release := HandleButtons(true, false, press.flags, ButtonEvents(ResAccel, Unpress));
            var cancel := HandleButtons(true, false, release.flags, ButtonEvents(Unpress, Cancel));
            && press == Outcome(off, {})
            && release == Outcome(Flags(true, true), {ButtonEnable})
            && cancel == Outcome(off, {ButtonCancel})
  {
  }

  /** The counter value past which the guard disarms. */
  const AutoEngageLimit: int := 750

  /** Auto-engage guard: arm flag, the never-changing initial-set flag and the counter. */
  datatype Guard = Guard(able: bool, initialSet: bool, counter: int)

  /** One guard step: whether the enable event is added, and the new guard. */
  datatype GuardResult = GuardResult(guard: Guard, enable: bool)

  /**
    One step of the auto-engage guard. `ready` is the outer vehicle
    condition, `allowed` the inner one (without the arm flag).
  */
  function GuardStep(ready: bool, allowed: bool, g: Guard): (r: GuardResult)
    ensures r.guard.initialSet == g.initialSet
    ensures !ready ==> r == GuardResult(g.(able := true), false)
    ensures ready && !(allowed && g.able) ==> r == GuardResult(g, false)
    ensures r.enable <==> ready && allowed && g.able && g.initialSet
    ensures r.guard.counter != g.counter ==> ready && allowed && g.able && !g.initialSet
    ensures g.counter <= AutoEngageLimit ==> r.guard.counter <= AutoEngageLimit
    ensures r.guard.counter > AutoEngageLimit ==> r.guard.counter == g.counter
    ensures ready && allowed && g.able && !g.initialSet ==>
              r.guard == (if g.counter + 1 > AutoEngageLimit then Guard(false, false, 0)
                          else g.(counter := g.counter + 1))
    ensures r.enable ==> !r.guard.able
  {
    if ready then
      if allowed && g.able then
        if !g.initialSet then
          var c := g.counter + 1;
          if c > AutoEngageLimit then GuardResult(Guard(false, g.initialSet, 0), false)
          else GuardResult(g.(counter := c), false)
        else
          GuardResult(g.(able := false), true)
      else
        GuardResult(g, false)
    else
      GuardResult(g.(able := true), false)
  }

  /** The guard after n steps with both conditions held. */
  function HeldRun(g: Guard, n: nat): Guard
  {
    if n == 0 then g else GuardStep(true, true, HeldRun(g, n - 1)).guard
  }

  /** While the guard is armed and not past the limit, each held step counts one. */
  lemma {:induction false} HeldRunCounts(g: Guard, n: nat)
    requires g.able && !g.initialSet && g.counter + n <= AutoEngageLimit
    ensures HeldRun(g, n) == g.(counter := g.counter + n)
  {
    if n > 0 {
      HeldRunCounts(g, n - 1);
    }
  }

  /**
    From any counter c up to the limit (a broken condition leaves the
    counter where it was), holding the conditions keeps the guard armed
    for 750 - c steps; step 751 - c disarms it and resets the counter.
  */
  lemma HeldRunDisarms(g: Guard)
    requires g.able && !g.initialSet && g.counter <= AutoEngageLimit
    ensures HeldRun(g, AutoEngageLimit + 1 - g.counter) == Guard(false, false, 0)
    ensures forall n: nat :: n <= AutoEngageLimit - g.counter ==> HeldRun(g, n).able
  {
    HeldRunCounts(g, AutoEngageLimit - g.counter);
    forall n: nat | n <= AutoEngageLimit - g.counter
      ensures HeldRun(g, n).able
    {
      HeldRunCounts(g, n);
    }
  }

  /** A disarmed guard stays as it is while the conditions hold. */
  lemma {:induction false} HeldRunDisarmedStays(g: Guard, n: nat)
    requires !g.able
    ensures HeldRun(g, n) == g
  {
    if n > 0 {
      HeldRunDisarmedStays(g, n - 1);
    }
  }
}
