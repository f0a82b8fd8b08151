/**
  Pure longitudinal shaping helpers of the GM car controller:
  clipping, the low-speed creep brake, the gas/brake split of a desired
  acceleration and the acceleration dead-band filter.
  Floating point is modelled by exact reals.
*/
module Shaping {

  /** Saturates x into [lo, hi] (numpy_fast.clip). */
  function Clip(x: real, lo: real, hi: real): (r: real)
    requires lo <= hi
    ensures lo <= r <= hi
    ensures lo <= x <= hi ==> r == x
    ensures x <= lo ==> r == lo
    ensures hi <= x ==> r == hi
  {
    if x < lo then lo else if x > hi then hi else x
  }

  /** Below this speed (m/s) a creep brake bias is subtracted. */
  const CreepSpeed: real := 2.3
  /** Largest creep brake bias, reached at standstill. */
  const CreepBrakeValue: real := 0.15
  /** Acceleration (m/s^2) that maps to full gas or full brake. */
  const AccelScale: real := 4.8
  /** Half-width of the acceleration dead band. */
  const HysteresisBand: real := 0.02

  /** Creep brake bias: grows linearly from 0 at CreepSpeed to CreepBrakeValue at standstill. */
  function CreepBrake(speed: real): (c: real)
    ensures CreepSpeed <= speed ==> c == 0.0
    ensures speed < CreepSpeed ==> c > 0.0
    ensures 0.0 <= speed ==> 0.0 <= c <= CreepBrakeValue
    ensures speed == 0.0 ==> c == CreepBrakeValue
  {
    if speed < CreepSpeed then (CreepSpeed - speed) / CreepSpeed * CreepBrakeValue else 0.0
  }

  /**
    compute_gas_brake: splits accel/4.8 minus the creep bias into a gas
    fraction and a brake fraction, each clipped to [0, 1].
  */
  function ComputeGasBrake(accel: real, speed: real): (r: (real, real))
    ensures 0.0 <= r.0 <= 1.0 && 0.0 <= r.1 <= 1.0
    ensures r.0 == 0.0 || r.1 == 0.0
    ensures r.0 - r.1 == Clip(accel / AccelScale - CreepBrake(speed), -1.0, 1.0)
    ensures CreepSpeed <= speed ==>
              r == (Clip(accel / AccelScale, 0.0, 1.0), Clip(-accel / AccelScale, 0.0, 1.0))
  {
    var gb := accel / AccelScale - CreepBrake(speed);
    (Clip(gb, 0.0, 1.0), Clip(-gb, 0.0, 1.0))
  }

  /** More requested acceleration never means less gas or more brake. */
  lemma GasBrakeMonotoneInAccel(a1: real, a2: real, speed: real)
    requires a1 <= a2
    ensures ComputeGasBrake(a1, speed).0 <= ComputeGasBrake(a2, speed).0
    ensures ComputeGasBrake(a1, speed).1 >= ComputeGasBrake(a2, speed).1
  {
  }

  /** At a lower speed the creep bias can only take gas away and add brake. */
  lemma GasBrakeMonotoneInSpeed(accel: real, s1: real, s2: real)
    requires s1 <= s2
    ensures ComputeGasBrake(accel, s1).0 <= ComputeGasBrake(accel, s2).0
    ensures ComputeGasBrake(accel, s1).1 >= ComputeGasBrake(accel, s2).1
  {
  }

  /**
    accel_hysteresis: the steady value is moved only when accel leaves the
    dead band around it, and then just far enough to bring accel back to
    the band's edge. The returned acceleration is the steady value itself.
  */
  function AccelHysteresis(accel: real, accelSteady: real): (r: (real, real))
    ensures r.0 == r.1
    ensures accel - HysteresisBand <= r.1 <= accel + HysteresisBand
    ensures accelSteady - HysteresisBand <= accel <= accelSteady + HysteresisBand ==> r.1 == accelSteady
    ensures r.1 != accelSteady ==>
              r.1 == accel - HysteresisBand || r.1 == accel + HysteresisBand
    ensures r.1 == Clip(accelSteady, accel - HysteresisBand, accel + HysteresisBand)
  {
    var steady :=
      if accel > accelSteady + HysteresisBand then accel - HysteresisBand
      else if accel < accelSteady - HysteresisBand then accel + HysteresisBand
      else accelSteady;
    (steady, steady)
  }

  /** Feeding the same acceleration twice changes nothing the second time. */
  lemma AccelHysteresisIdempotent(accel: real, accelSteady: real)
    ensures var s := AccelHysteresis(accel, accelSteady).1;
            AccelHysteresis(accel, s) == (s, s)
  {
  }

  /** The new steady value is the point of the band closest to the old one. */
  lemma AccelHysteresisMovesLeast(accel: real, accelSteady: real, x: real)
    requires accel - HysteresisBand <= x <= accel + HysteresisBand
    ensures var s := AccelHysteresis(accel, accelSteady).1;
            (s - accelSteady) * (s - accelSteady) <= (x - accelSteady) * (x - accelSteady)
  {
    var s := AccelHysteresis(accel, accelSteady).1;
    if accelSteady < accel - HysteresisBand {
      assert accelSteady < s <= x;
      assert 0.0 < s - accelSteady <= x - accelSteady;
    } else if accelSteady > accel + HysteresisBand {
      assert x <= s < accelSteady;
      assert 0.0 < accelSteady - s <= accelSteady - x;
    }
  }
}
