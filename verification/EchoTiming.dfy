/**
 * The timed echo measurement of a sensor thread (ECU_RASP/main.py:137-167). The clock and the echo pin are
 * unknown: reading number k of the run finds the time clock(k), or the pin level echo(k). Times are reals.
 */
module EchoTiming {
  import opened Sequences

  const LEAVE_SAMPLE_INTERVAL: real := 0.01
  /** Half of what sound travels in the whole window. */
  const MAX_DISTANCE: real := 171.5

  ghost predicate NonDecreasing(clock: nat -> real) {
    forall i: nat, j: nat :: i <= j ==> clock(i) <= clock(j)
  }

  /** By reading number `last` the clock has left the window opened at reading number `start`. */
  ghost predicate WindowOver(clock: nat -> real, start: nat, last: nat) {
    clock(last) - clock(start) >= LEAVE_SAMPLE_INTERVAL
  }

  /** The level found by the j-th pin reading after clock reading number r; one reading in three is of the pin. */
  predicate PinHigh(echo: nat -> bool, r: nat, j: nat) {
    echo(r + 1 + 3 * j)
  }

  /** The first `rounds` of those readings all found this level. */
  ghost predicate Steady(echo: nat -> bool, r: nat, rounds: nat, level: bool) {
    forall j: nat :: j < rounds ==> PinHigh(echo, r, j) == level
  }

  /** The first `rounds` of the clock readings that follow those were all still inside the window. */
  ghost predicate InsideWindow(clock: nat -> real, r: nat, rounds: nat, start: real) {
    forall j: nat :: j < rounds ==> RoundTime(clock, r, j) - start < 0.01
  }

  function RoundTime(clock: nat -> real, r: nat, j: nat): real {
    clock(r + 2 + 3 * j)
  }

  /**
   * A wait loop: note the clock (reading number r), then as long as the pin stays at `level` inside the window
   * note it again. Returns the number of rounds; the time kept is that of reading r + 3 * rounds.
   */
  method WaitWhile(clock: nat -> real, echo: nat -> bool, level: bool, start: real, r: nat, ghost last: nat)
    returns (time: real, rounds: nat, changed: bool)
    requires NonDecreasing(clock) && clock(last) - start >= LEAVE_SAMPLE_INTERVAL
    ensures time == clock(r + 3 * rounds)
    ensures Steady(echo, r, rounds, level) && InsideWindow(clock, r, rounds, start)
    ensures changed <==> PinHigh(echo, r, rounds) != level
    ensures !changed ==> clock(r + 3 * rounds + 2) - start >= 0.01
  {
    var n := r;
    time := clock(n);
    rounds := 0;
    while true
      invariant n == r + 3 * rounds && time == clock(n)
      invariant Steady(echo, r, rounds, level) && InsideWindow(clock, r, rounds, start)
      decreases last - n
    {
      if echo(n + 1) != level {
        return time, rounds, true;
      }
      if clock(n + 2) - start >= LEAVE_SAMPLE_INTERVAL {
        return time, rounds, false;
      }
      n := n + 3;
      time := clock(n);
      rounds := rounds + 1;
    }
  }

  /**
   * One attempt at a sample, started with reading number k; None when it is given up, which is decided by the
   * readings number `check` and `next - 1` of the clock and nothing else. Both waits end because every round reads
   * the clock while it is inside the window. A sample finished strictly inside the window times a real echo: the
   * pin was low at every reading up to `rise`, high from there up to `fall`, then low.
   */
  method MeasureDistance(clock: nat -> real, echo: nat -> bool, k: nat, ghost last: nat)
    returns (distance: Option<real>, next: nat, rise: nat, check: nat, fall: nat, silent: nat, sounding: nat)
    requires NonDecreasing(clock) && WindowOver(clock, k, last)
    ensures rise == k + 1 + 3 * silent
    ensures Steady(echo, k + 1, silent, false) && InsideWindow(clock, k + 1, silent, clock(k))
    ensures PinHigh(echo, k + 1, silent) || RoundTime(clock, k + 1, silent) - clock(k) >= 0.01
    ensures check == rise + (if PinHigh(echo, k + 1, silent) then 2 else 3)
    ensures clock(check) - clock(k) > 0.01 ==> distance == None && next == check + 1
    ensures clock(check) - clock(k) <= 0.01 ==>
              && fall == check + 1 + 3 * sounding
              && Steady(echo, check + 1, sounding, true) && InsideWindow(clock, check + 1, sounding, clock(k))
              && (!PinHigh(echo, check + 1, sounding) || RoundTime(clock, check + 1, sounding) - clock(k) >= 0.01)
              && next == fall + (if PinHigh(echo, check + 1, sounding) then 4 else 3)
              && (distance.Some? <==> clock(next - 1) - clock(k) <= 0.01)
    ensures distance.Some? ==>
              && rise < fall < next
              && 2.0 * distance.value == 34300.0 * (clock(fall) - clock(rise))
              && (distance.value < 16.0 <==> clock(fall) - clock(rise) < 32.0 / 34300.0)
              && (distance.value < 25.0 <==> clock(fall) - clock(rise) < 50.0 / 34300.0)
              && 0.0 <= distance.value <= MAX_DISTANCE
    ensures distance.Some? && clock(next - 1) - clock(k) < 0.01
            ==> && PinHigh(echo, k + 1, silent)
                && fall == rise + 3 + 3 * sounding
                && !PinHigh(echo, rise + 3, sounding)
  {
    var sampleStartTime := clock(k);
    var startTime, heard;
    startTime, silent, heard := WaitWhile(clock, echo, false, sampleStartTime, k + 1, last);
    rise := k + 1 + 3 * silent;
    fall, sounding := rise, 0;
    check := if heard then rise + 2 else rise + 3;
    if clock(check) - sampleStartTime > LEAVE_SAMPLE_INTERVAL {
      return None, check + 1, rise, check, fall, silent, sounding;
    }

    var stopTime, ended;
    stopTime, sounding, ended := WaitWhile(clock, echo, true, sampleStartTime, check + 1, last);
    fall := check + 1 + 3 * sounding;
    var n := if ended then fall + 2 else fall + 3;
    if clock(n) - sampleStartTime > LEAVE_SAMPLE_INTERVAL {
      return None, n + 1, rise, check, fall, silent, sounding;
    }

    var timeElapsed := stopTime - startTime;
    assert clock(k) <= clock(rise) <= clock(fall) <= clock(n);
    distance := Some(timeElapsed * 34300.0 / 2.0);
    next := n + 1;
  }

  /** The longest distance is measured: the pin rises at once and falls as the window closes. */
  method LongestSample() returns (distance: Option<real>)
    ensures distance == Some(MAX_DISTANCE)
  {
    var clock := (i: nat) => if i < 7 then 0.0 else 0.01;
    var echo := (i: nat) => i < 8;
    var next, rise, check, fall, silent, sounding;
    distance, next, rise, check, fall, silent, sounding := MeasureDistance(clock, echo, 0, 7);
    assert PinHigh(echo, 1, 0);
    assert silent == 0 && check == 3;
    assert PinHigh(echo, 4, 0) && !PinHigh(echo, 4, 1);
    assert RoundTime(clock, 4, 0) == 0.0;
    assert sounding == 1;
  }
}
