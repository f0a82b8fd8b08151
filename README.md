# GM car port: engagement and per-tick command generation

This project models, in Dafny, the control core of the GM car port of a
driver-assistance system:

- **Engagement** (`selfdrive/car/gm/interface.py`, `CarInterface.update`):
  - turns the previous and current cruise-button codes into at most one button event;
  - runs the first-match state machine that toggles adaptive cruise and lane keep, with different rules for main switch off, main switch on, and cars without a gas interceptor;
  - steps the auto-engage guard, a counter with an arm flag.
- **Tick** (`CarInterface.apply`): replaces set speeds above 70 with 0, runs the car controller and advances the frame counter by one.
- **Command generation** (`selfdrive/car/gm/carcontroller.py`):
  - the pure helpers `compute_gas_brake` and `accel_hysteresis`;
  - `CarController.update`, which builds the ordered list of outgoing commands: steering with counter-sync skipping, the gas-interceptor pedal command, and the lane-keep icon latch.

Modules:

| file | module | content |
|---|---|---|
| `shaping.dfy` | `Shaping` | clip, creep brake, gas/brake split, acceleration dead band |
| `engagement.dfy` | `Engagement` | button events, engagement rules, auto-engage guard step, and lemmas over event lists and held runs |
| `carcontroller.dfy` | `GmController` | `CarController` class, the three command parts as functions, icon-latch window lemmas |
| `interface.dfy` | `GmInterface` | `CarInterface` class: `Update` and `Apply` |

Both source classes become Dafny classes whose fields the methods update in place:
- `CarInterface` holds `adaptive_Cruise`, `enable_lkas`, the guard's `flag_pcmEnable_able`, `flag_pcmEnable_initialSet` and `initial_pcmEnable_counter`, and `frame`.
- `CarController` holds `apply_steer_last`, `lka_steering_cmd_counter_last`, `lka_icon_status_last`, `steer_rate_limited` and `accel_steady`.

Each method is proved against pure functions (`ButtonEvents`, `HandleButtons`, `GuardStep`, `SteerCommands`, `PedalCommands`, `IconCommands`). The properties are proved about those functions.

Outgoing bus frames are the abstract datatype `CanCommand = Steering(torque, idx, active) | Pedal(frac, idx) | Icon(active, critical, alert)`.

The torque limiter `apply_std_steer_torque_limits` is a parameter of type `(int, int, real) -> int`, and nothing is assumed about it.

The car constants `STEER_STEP`, `MIN_STEER_SPEED` and `CAMERA_KEEPALIVE_STEP` are defined in `values.py`, which is not part of this model. They are a `ControllerParams` parameter; the two step constants must be positive, since they are used as divisors.

Notes on the source's behaviour:
- Breaking the outer auto-engage condition (interface.py:236-237) only re-arms the flag. It does not reset the counter; the counter is reset only past 750 (line 230).
- When the inner condition (line 222) fails, nothing changes.
- `cruiseState.enabled` is computed from the flags before the buttons are handled (line 134). The guard reads that value, but reads the flags after the handling (line 221).
- When lane keep is not enabled, the applied torque drops straight to 0 (carcontroller.py:83-86). So no rate limit holds across a disengagement.

## Model

| member | source | states |
|---|---|---|
| `Shaping.Clip` | selfdrive/car/gm/carcontroller.py:35 | the result lies in [lo, hi], equals x inside the range, and saturates at the bound x passes |
| `Shaping.CreepBrake` | selfdrive/car/gm/carcontroller.py:29-33 | the creep bias is 0 from 2.3 m/s up, positive below, within [0, 0.15] for non-negative speeds, and 0.15 at standstill |
| `Shaping.ComputeGasBrake` | selfdrive/car/gm/carcontroller.py:28-35 | gas and brake are in [0, 1] and never both positive; gas minus brake is accel/4.8 minus the creep bias, clipped to [-1, 1]; from 2.3 m/s up the result is (clip(accel/4.8), clip(-accel/4.8)) |
| `Shaping.GasBrakeMonotoneInAccel` | selfdrive/car/gm/carcontroller.py:28-35 | more requested acceleration never gives less gas or more brake |
| `Shaping.GasBrakeMonotoneInSpeed` | selfdrive/car/gm/carcontroller.py:28-35 | a lower speed never gives more gas or less brake |
| `Shaping.AccelHysteresis` | selfdrive/car/gm/carcontroller.py:17-25 | the returned accel equals the returned steady value; the steady value is unchanged inside the ±0.02 band and otherwise lands exactly 0.02 from accel; it is the old steady value clipped to [accel-0.02, accel+0.02] |
| `Shaping.AccelHysteresisIdempotent` | selfdrive/car/gm/carcontroller.py:17-25 | feeding the same accel again leaves the steady value where it is |
| `Shaping.AccelHysteresisMovesLeast` | selfdrive/car/gm/carcontroller.py:17-25 | the new steady value is the point of the band closest to the old one |
| `Engagement.TypeOf` | selfdrive/car/gm/interface.py:149-156 | RES_ACCEL, DECEL_SET, CANCEL and MAIN map to accelCruise, decelCruise, cancel and altButton3, each in both directions; every other code maps to unknown |
| `Engagement.ButtonEvents` | selfdrive/car/gm/interface.py:138-159 | at most one event; there is one exactly when the code changed and the previous code is not INIT; `pressed` holds exactly when the new code is not UNPRESS; a release takes its type from the previous code; any other button gives unknown |
| `Engagement.PressThenRelease` | selfdrive/car/gm/interface.py:140-157 | pressing a button from UNPRESS and letting it go give a pressed and a released event of the same type |
| `Engagement.MainOffRule` | selfdrive/car/gm/interface.py:181-199 | with the main switch off an event matches exactly on a release of set or resume with adaptive cruise off, a cancel press with it on, or a main press; these give (true, true) with buttonEnable, (false, false) with buttonCancel, and (false, true) with nothing added; the conditions exclude each other |
| `Engagement.MainOnRule` | selfdrive/car/gm/interface.py:205-209 | with the main switch on an event matches exactly on a main press with adaptive cruise off, and then gives (false, false) with nothing added |
| `Engagement.Rule` | selfdrive/car/gm/interface.py:179-209 | a match adds nothing, buttonEnable or buttonCancel; it adds one only with the main switch off, and then the flags change; with the main switch on a match needs adaptive cruise off and clears both flags |
| `Engagement.FirstMatch` | selfdrive/car/gm/interface.py:179-209 | the only events the loop adds are buttonEnable and buttonCancel, and when it adds one the flags change |
| `Engagement.HandleButtons` | selfdrive/car/gm/interface.py:178-217 | without a gas interceptor the buttons are ignored, and the flags become (false, main_on) with nothing added; with one, the first-match loop decides |
| `Engagement.FirstMatchIsFirstRule` | selfdrive/car/gm/interface.py:180-199 | the outcome is that of the first event that matches a rule; earlier events had no effect |
| `Engagement.FirstMatchNoRule` | selfdrive/car/gm/interface.py:180-209 | when no event matches, the flags are unchanged and no event is added |
| `Engagement.FirstMatchAppend` | selfdrive/car/gm/interface.py:180-199 | events after the first match are ignored; events before it contribute nothing |
| `Engagement.MainOnOnlyMainPress` | selfdrive/car/gm/interface.py:200-209 | with the main switch on, the flags become (false, false) exactly when adaptive cruise is off and a main-button press is among the events; otherwise they are unchanged; nothing is added |
| `Engagement.MainOffOutcomes` | selfdrive/car/gm/interface.py:179-199 | with the main switch off: buttonEnable is added exactly when adaptive cruise was off and both flags become true; buttonCancel exactly when it was on and both become false; otherwise the flags are unchanged or become (false, true) |
| `Engagement.ResumeThenCancel` | selfdrive/car/gm/interface.py:140-195 | starting disengaged with the main switch off, pressing resume changes nothing, releasing it engages both flags with one buttonEnable, and a cancel press disengages both with buttonCancel |
| `Engagement.GuardStep` | selfdrive/car/gm/interface.py:221-237 | a false outer condition only re-arms the flag and leaves the counter; an unmet inner condition or a disarmed flag changes nothing; an armed step with initialSet false adds one to the counter, and past 750 disarms the guard and resets the counter to 0; the enable event is added exactly on an armed step with initialSet true, which also disarms the guard; a counter at most 750 stays at most 750 |
| `Engagement.HeldRunCounts` | selfdrive/car/gm/interface.py:224-226 | while armed and at most 750, each held step adds exactly one to the counter |
| `Engagement.HeldRunDisarms` | selfdrive/car/gm/interface.py:224-230 | from any counter c up to 750, as a broken condition leaves it, holding the conditions keeps the guard armed for 750 - c steps; step 751 - c disarms it and resets the counter to 0 |
| `Engagement.HeldRunDisarmedStays` | selfdrive/car/gm/interface.py:221-222 | a disarmed guard stays unchanged while the conditions hold |
| `GmController.LkasEnabled` | selfdrive/car/gm/carcontroller.py:78 | lane keep is off when not engaged, on a steering warning or error, or at or below the minimum steering speed, and on otherwise |
| `GmController.SteerTick` | selfdrive/car/gm/carcontroller.py:75-77 | no steering frame on a changed loopback counter or off a steering-step frame; one exactly when both hold |
| `GmController.IconDue` | selfdrive/car/gm/carcontroller.py:126 | the icon is due on every keepalive frame and on every change of icon state; with an unchanged state only on keepalive frames |
| `GmController.SteerIndex` | selfdrive/car/gm/carcontroller.py:89 | the steering index is in 0..3 and is the successor of the loopback counter modulo 4 |
| `GmController.PedalIndex` | selfdrive/car/gm/carcontroller.py:109 | the pedal index is in 0..3 |
| `GmController.PedalIndexAdvances` | selfdrive/car/gm/carcontroller.py:108-109 | on consecutive pedal frames the index steps by one modulo 4 |
| `GmController.GasMultiplier` | selfdrive/car/gm/carcontroller.py:100 | the gas multiplier lies in [0.4, 1.0]; it is 0.4 at or below 0 m/s and 1.0 from 10 m/s up |
| `GmController.GasMultiplierMonotone` | selfdrive/car/gm/carcontroller.py:100 | the gas multiplier never decreases with speed |
| `GmController.CommaPedal` | selfdrive/car/gm/carcontroller.py:95-105 | the pedal fraction is in [0, 1]; it is 0 when not enabled, without adaptive cruise, or at or below 1 km/h; otherwise it is positive exactly when gas exceeds brake, and never more than gas minus brake |
| `GmController.PedalOnlyOnGas` | selfdrive/car/gm/carcontroller.py:60-105 | on an engaged tick the pedal is positive exactly when adaptive cruise is on, speed is above 1 km/h and the shaped gas is positive; it never exceeds the shaped gas |
| `GmController.LkaIconStatus` | selfdrive/car/gm/carcontroller.py:123-125 | the icon is active exactly when the lane-keep status is 1; it is critical exactly when active and \|steer\| > 0.9, so critical implies active |
| `GmController.QuietStretch` | selfdrive/car/gm/carcontroller.py:126-129 | between two keepalive frames, with an unchanged icon state, no icon is sent |
| `GmController.KeepaliveWindow` | selfdrive/car/gm/carcontroller.py:126-129 | over a keepalive window with an unchanged icon state, exactly one icon is sent |
| `GmController.EdgeInWindow` | selfdrive/car/gm/carcontroller.py:126-129 | a single change of icon state inside a keepalive window makes exactly two icons in that window |
| `GmController.IconSendsAppend` | selfdrive/car/gm/carcontroller.py:126-129 | the icons sent over a run of frames are those of its first part plus those of the rest, which starts from the last state of the first part |
| `GmController.SteerTorque` | selfdrive/car/gm/carcontroller.py:78-84 | the torque is 0 when lane keep is not enabled |
| `GmController.SteerCommands` | selfdrive/car/gm/carcontroller.py:75-91 | steering is sent exactly when the loopback counter is unchanged and the frame is a steering frame, so never on a counter change; its index is (counter+1) % 4, in 0..3; it is active exactly when lane keep is enabled; an inactive command carries torque 0 |
| `GmController.TickGasBrake` | selfdrive/car/gm/carcontroller.py:60-65 | gas and brake are in [0, 1], and both are 0 on a tick that is not enabled |
| `GmController.PedalCommands` | selfdrive/car/gm/carcontroller.py:93-117 | a pedal command is sent exactly when the car has a gas interceptor and frame % 4 == 0; its index is (frame // 4) % 4; its fraction is in [0, 1] and is 0 when not enabled, without adaptive cruise, or at or below 1 km/h |
| `GmController.IconCommands` | selfdrive/car/gm/carcontroller.py:119-129 | the icon is sent exactly on keepalive frames or when the (active, critical) pair differs from the last one sent; critical implies active; the alert flag is set exactly for steerRequired and ldw |
| `GmController.CommandOrder` | selfdrive/car/gm/carcontroller.py:67-131 | a tick sends at most three commands, steering only first and the icon only last, and each kind appears exactly when its part is due |
| `GmController.CarController.constructor` | selfdrive/car/gm/carcontroller.py:39-46 | apply_steer_last 0, counter_last -1, icon status (false, false), steer_rate_limited false, accel_steady 0 |
| `GmController.CarController.SteerStep` | selfdrive/car/gm/carcontroller.py:72-91 | after a tick counter_last is the current loopback counter; on a steering frame apply_steer_last becomes the sent torque (0 unless lane keep is enabled) and, only when lane keep is enabled, steer_rate_limited becomes new_steer != torque; off a steering frame both are unchanged; the sent commands are those `SteerCommands` gives |
| `GmController.CarController.IconStep` | selfdrive/car/gm/carcontroller.py:119-129 | the icon field changes only when the icon is sent, and it always ends equal to the current icon state |
| `GmController.CarController.Update` | selfdrive/car/gm/carcontroller.py:55-131 | the commands are the steering, pedal and icon parts in that order, at most three; the fields move as the steering and icon steps say, the icon field ends as the current icon state, and accel_steady is never changed |
| `GmInterface.AutoEngageReady` | selfdrive/car/gm/interface.py:221 | the outer condition holds only with lane keep alone engaged (flags (false, true)), the main switch on, cruise enabled, gear in drive, speed above 2.4 m/s and brake released, and holds whenever all of these do |
| `GmInterface.AutoEngageAllowed` | selfdrive/car/gm/interface.py:222 | the inner condition fails when cruise is unavailable, a seatbelt is unlatched or ESP is disabled, and holds otherwise |
| `GmInterface.HudSetSpeed` | selfdrive/car/gm/interface.py:248-250 | set speeds above 70 become 0; other set speeds pass through unchanged |
| `GmInterface.CarInterface.DeriveButtonEvents` | selfdrive/car/gm/interface.py:138-157 | the list built in place is the one `ButtonEvents` gives |
| `GmInterface.CarInterface.HandleButtonEvents` | selfdrive/car/gm/interface.py:177-217 | the loop with break leaves the flags and the added events that `HandleButtons` gives; the guard and frame are unchanged |
| `GmInterface.CarInterface.AutoEngageStep` | selfdrive/car/gm/interface.py:219-237 | the guard fields move as `GuardStep` says on the outer condition, read on the updated flags, and the inner condition; the flags and frame are unchanged |
| `GmInterface.CarInterface.Update` | selfdrive/car/gm/interface.py:128-245 | cruise enabled is main_on or the adaptive-cruise flag from before the update; the flags come from the button handling alone; the guard moves by one step on the new flags; the events are the common ones, plus those the handling adds, plus buttonEnable when the guard fires; a counter at most 750 stays at most 750 |
| `GmInterface.CarInterface.ControllerTick` | selfdrive/car/gm/interface.py:248-256 | the controller runs on this tick's frame with the current adaptive-cruise flag: the commands and the controller's whole new state are those `CarController.Update` gives; without adaptive cruise every pedal command is 0 |
| `GmInterface.CarInterface.Apply` | selfdrive/car/gm/interface.py:247-259 | frame advances by exactly one; the commands are those of the controller on the old frame with the current adaptive-cruise flag; the controller's new counter, apply_steer_last, steer_rate_limited, icon state and accel_steady are stated, so ticks can be chained; without adaptive cruise every pedal command is 0; the engagement state is unchanged |

## Left out

- CAN parsing: `cp.update_strings`, `CS.update`, `can_valid`. The decoded car state is an input.
- CAN packing: the packer and the `gmcan.create_*` and `create_gas_interceptor_command` helpers. Commands are abstract `CanCommand` values.
- `create_common_events` and `events.to_msg`: the common events are an input set, to which the update only adds.
- The body of `apply_std_steer_torque_limits`: it is an uninterpreted parameter.
- GmController.CarController.SteerStep: does not bound the change of the applied torque per tick, because that bound lives in the limiter's body, which is not part of this model.
- The `int(round(actuators.steer * STEER_MAX))` conversion: `newSteer` is an input, so `STEER_MAX` is not modelled.
- `values.py` is not part of this model: the controller constants are parameters, and the cruise-button codes are a datatype with an `OtherButton` case for codes outside the four handled ones.
- `CarController.update` takes `hud_v_cruise`, `hud_show_lanes` and `hud_show_car` but never reads them; the model passes them and ignores them too.
- The interface always has a controller: the missing-controller case of `steeringRateLimited` (interface.py:136) is not modelled.
- The initial values of the engagement flags, the guard fields and `frame` come from code outside this model. They are constructor parameters.
- `get_params`, `get_pid_accel_limits`, the steering feedforward functions and `compute_gb`: vehicle parameter tables, fitted floating-point formulas and an unused scaling.
- The web tuning tool `selfdrive/psk_control/psk_control.py`: HTTP and file I/O only.
- Floating point: speeds, accelerations and fractions are exact reals, so rounding effects are not captured.
- The unused constants `VEL` and `MIN_PEDAL`, the `ntune_scc_get` import, the local `accel`, and the commented-out brake, pcmEnable and pedal-pressed code.
