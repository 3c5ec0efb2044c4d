/**
 * get_median_distances_thread as the code has it: a twenty-slot array overwritten in place behind an index
 * wrapped by hand (ECU_RASP/main.py:198-323).
 */
module DecisionThread {
  import opened Sequences
  import opened FalseAlarmFilter
  import opened FilterLaws
  import opened Distances
  import opened SpeedStages
  import opened StateLink

  /** What happens around one tick: samples that arrive before it, and the speeds it reads. */
  datatype Input = Input(samples0: seq<real>, samples1: seq<real>, speeds: Speeds)

  function Zones(inputs: seq<Input>): (zs: seq<Zone>)
    ensures |zs| == |inputs|
  {
    seq(|inputs|, k requires 0 <= k < |inputs| => TickZone(inputs[k].samples0, inputs[k].samples1))
  }

  /** Overwriting slot i and moving on is sliding the window read from slot i round to i-1. */
  lemma RingSlides(ring: seq<StateId>, i: nat, e: StateId)
    requires |ring| == EVENTS_ARRAY_SIZE && i < EVENTS_ARRAY_SIZE
    ensures var next := if i >= EVENTS_ARRAY_SIZE - 1 then 0 else i + 1; var r := ring[i := e];
            r[next..] + r[..next] == (ring[i..] + ring[..i])[1..] + [e]
  {
  }

  lemma StageSelected(limits: Option<Limits>, v: Speeds)
    ensures SelectLimits(limits, v).Some? <==> limits.Some? || SomeStageMatches(v)
  {
  }

  class Decision {
    const lastStates: array<StateId>
    var currentState: StateId
    var lessDistance: real
    var limits: Option<Limits>
    var i: nat
    var sensor0Distances: seq<real>
    var sensor1Distances: seq<real>
    var sent: seq<Message>
    ghost var history: seq<Zone>

    /** The ring, read from slot i round to slot i-1, is the window of the history-based filter. */
    ghost predicate Valid()
      reads this, lastStates
    {
      && lastStates.Length == EVENTS_ARRAY_SIZE
      && i == |history| % EVENTS_ARRAY_SIZE
      && lastStates[i..] + lastStates[..i] == After(history).window
      && currentState == After(history).current
      && sent == Messages(history)
      && (limits.Some? ==> limits.value == STAGE_1)
      && (history != [] ==> limits.Some?)
    }

    constructor ()
      ensures Valid() && history == [] && limits == None && fresh(lastStates)
      ensures sensor0Distances == [] && sensor1Distances == []
    {
      lastStates := new StateId[EVENTS_ARRAY_SIZE](_ => 0);
      currentState, lessDistance, limits, i := 0, 0.0, None, 0;
      sensor0Distances, sensor1Distances, sent, history := [], [], [], [];
      new;
      assert lastStates[0..] + lastStates[..0] == Uniform(0);
    }

    /** The counts over the array are the counts over the window, wherever the index stands. */
    lemma CountsAgree()
      requires Valid()
      ensures Occurrences(lastStates[..], 0) == Zeros(After(history))
      ensures Occurrences(lastStates[..], 1) == Ones(After(history))
      ensures Occurrences(lastStates[..], 2) == Twos(After(history))
    {
      RotationOccurrences(lastStates[..], i);
      assert lastStates[..][i..] == lastStates[i..] && lastStates[..][..i] == lastStates[..i];
    }

    /** The state between deciding on zone z and moving on to the next slot. */
    ghost predicate Decided(z: Zone)
      reads this, lastStates
    {
      && lastStates.Length == EVENTS_ARRAY_SIZE
      && i == |history| % EVENTS_ARRAY_SIZE
      && (var next := if i >= EVENTS_ARRAY_SIZE - 1 then 0 else i + 1;
          lastStates[next..] + lastStates[..next] == After(history + [z]).window)
      && currentState == After(history + [z]).current
      && sent == Messages(history)
    }

    /** Classify the distance, count the ring, latch the state, overwrite slot i. */
    method CalculateCollision(autobrakeDist: real, collisionDist: real)
      requires Valid()
      modifies lastStates, this`currentState
      ensures var f := After(history); var z := Classify(lessDistance, autobrakeDist, collisionDist);
              && currentState == Step(f, z).current
              && lastStates[..] == old(lastStates[..])[i := Written(f, z)]
      ensures Latched(history, Classify(lessDistance, autobrakeDist, collisionDist), old(currentState), currentState)
    {
      CountsAgree();
      LatchedByStep(history, Classify(lessDistance, autobrakeDist, collisionDist));
      hide After, Messages, Occurrences, Latched;
      var ring := lastStates[..];
      if lessDistance < autobrakeDist {
        if Occurrences(ring, PRECOLLISION_STATE_ID) + Occurrences(ring, AUTOBRAKE_STATE_ID)
           > COUNT_AUTOBRAKE_FALSE_ALARM {
          currentState := AUTOBRAKE_STATE_ID;
          lastStates[i] := AUTOBRAKE_STATE_ID;
        } else {
          lastStates[i] := PRECOLLISION_STATE_ID;
        }
      } else if lessDistance < collisionDist {
        if Occurrences(ring, PRECOLLISION_STATE_ID) > COUNT_PRECOLLISION_FALSE_ALARM {
          currentState := PRECOLLISION_STATE_ID;
        }
        lastStates[i] := PRECOLLISION_STATE_ID;
      } else {
        if Occurrences(ring, NORMAL_STATE_ID) > COUNT_NORMAL_FALSE_ALARM {
          currentState := NORMAL_STATE_ID;
        }
        lastStates[i] := NORMAL_STATE_ID;
      }
    }

    /** What CalculateCollision leaves behind, read as a window. */
    lemma NowDecided(was: seq<StateId>, z: Zone)
      requires lastStates.Length == EVENTS_ARRAY_SIZE && |was| == EVENTS_ARRAY_SIZE
      requires i == |history| % EVENTS_ARRAY_SIZE && sent == Messages(history)
      requires was[i..] + was[..i] == After(history).window
      requires currentState == Step(After(history), z).current
      requires lastStates[..] == was[i := Written(After(history), z)]
      ensures Decided(z)
    {
      hide Written, Fires, Messages;
      RunSnoc(INITIAL, history, z);
      RingSlides(was, i, Written(After(history), z));
      var r, next := lastStates[..], if i >= EVENTS_ARRAY_SIZE - 1 then 0 else i + 1;
      assert r[next..] == lastStates[next..] && r[..next] == lastStates[..next];
    }

    /** Send the state and move the index on. */
    method SendAndAdvance(ghost z: Zone)
      requires Decided(z) && limits == Some(STAGE_1)
      modifies this`sent, this`i, this`history
      ensures Valid() && history == old(history) + [z]
    {
      hide After, Messages;
      MessagesSnoc(history, z);
      sent := sent + [Message(currentState, i)];
      i := if i >= EVENTS_ARRAY_SIZE - 1 then 0 else i + 1;
      history := history + [z];
    }

    lemma Meaning()
      requires Valid()
      ensures currentState == After(history).current && sent == Messages(history)
      ensures history == [] ==> sent == []
    {
    }

    /** A sensor thread adds samples to its list. */
    method Append(samples0: seq<real>, samples1: seq<real>)
      requires Valid()
      modifies this`sensor0Distances, this`sensor1Distances
      ensures Valid()
      ensures sensor0Distances == old(sensor0Distances) + samples0
      ensures sensor1Distances == old(sensor1Distances) + samples1
    {
      sensor0Distances := sensor0Distances + samples0;
      sensor1Distances := sensor1Distances + samples1;
    }

    /** One round of the loop; ok is false when the thread dies of an UnboundLocalError. */
    method Iterate(v: Speeds) returns (ok: bool)
      requires Valid()
      modifies this, lastStates
      ensures ok <==> SelectLimits(old(limits), v).Some?
      ensures lessDistance == Min(SensorDistance(old(sensor0Distances)), SensorDistance(old(sensor1Distances)))
      ensures ok ==> Valid() && limits == SelectLimits(old(limits), v)
      ensures ok ==> history == old(history) + [TickZone(old(sensor0Distances), old(sensor1Distances))]
      ensures !ok ==> history == old(history) && sent == old(sent) && currentState == old(currentState)
                      && lastStates[..] == old(lastStates[..])
      ensures sensor0Distances == [] && sensor1Distances == []
    {
      hide Median, After, Messages, SensorDistance, Classify;
      ghost var z := TickZone(sensor0Distances, sensor1Distances);
      var sensor0Median := SensorDistance(sensor0Distances);
      sensor0Distances := [];
      var sensor1Median := SensorDistance(sensor1Distances);
      sensor1Distances := [];
      lessDistance := Min(sensor0Median, sensor1Median);
      limits := SelectLimits(limits, v);
      if limits == None {
        return false;
      }
      ghost var was := lastStates[..];
      assert was[i..] + was[..i] == After(history).window by {
        assert was[i..] == lastStates[i..] && was[..i] == lastStates[..i];
      }
      CalculateCollision(limits.value.autobrake, limits.value.collision);
      NowDecided(was, z);
      SendAndAdvance(z);
      ok := true;
    }

    /**
     * Any number of rounds from power-on: if some stage matches at the first round the thread never dies, and
     * then the ring, the state and the messages are those of the zone history; otherwise it dies at once.
     */
    method Serve(inputs: seq<Input>) returns (ok: bool)
      requires Valid() && history == [] && limits == None
      requires sensor0Distances == [] && sensor1Distances == []
      modifies this, lastStates
      ensures ok <==> inputs == [] || SomeStageMatches(inputs[0].speeds)
      ensures ok ==> Valid() && history == Zones(inputs)
      ensures ok ==> currentState == After(Zones(inputs)).current && sent == Messages(Zones(inputs))
      ensures !ok ==> history == [] && sent == []
    {
      hide TickZone, After, Messages, SelectLimits, Valid, SomeStageMatches, SensorDistance;
      for k := 0 to |inputs|
        invariant Valid() && history == Zones(inputs[..k])
        invariant sensor0Distances == [] && sensor1Distances == []
        invariant limits.None? <==> k == 0
        invariant k > 0 ==> SomeStageMatches(inputs[0].speeds)
      {
        Append(inputs[k].samples0, inputs[k].samples1);
        assert sensor0Distances == inputs[k].samples0 && sensor1Distances == inputs[k].samples1;
        StageSelected(limits, inputs[k].speeds);
        Meaning();
        ok := Iterate(inputs[k].speeds);
        if !ok {
          return;
        }
        assert Zones(inputs[..k + 1]) == Zones(inputs[..k]) + [TickZone(inputs[k].samples0, inputs[k].samples1)];
      }
      assert inputs[..|inputs|] == inputs;
      Meaning();
      ok := true;
    }
  }

  /** After any history: the index, the three counts, and what the non-zero slots count. */
  lemma RingMeaning(d: Decision)
    requires d.Valid()
    ensures d.i == |d.history| % EVENTS_ARRAY_SIZE
    ensures var r := d.lastStates[..];
            && Occurrences(r, 0) + Occurrences(r, 1) + Occurrences(r, 2) == EVENTS_ARRAY_SIZE
            && Occurrences(r, 1) + Occurrences(r, 2) == NonSafe(Recent(d.history))
    ensures d.lastStates[d.i..] + d.lastStates[..d.i]
            == (Uniform(0) + Entries(INITIAL, d.history))[|d.history|..]
  {
    d.CountsAgree();
    CountsSum(After(d.history));
    NonZeroIsNonSafe(d.history);
    WindowIsSuffix(INITIAL, d.history);
  }
}
