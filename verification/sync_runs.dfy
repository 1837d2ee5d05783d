/** Requests about alarms and counters, and what every run of requests keeps. */
module SyncRuns {
  import opened SyncModel
  import opened SyncSteps
  import opened SyncRequests
  import opened SyncDestroy

  // ---------- Alarms ----------

  /** The last step of the alarm requests: an alarm whose trigger is true already goes off. */
  ghost function CheckedAlarm(s: State, id: nat): State
    requires Firable(s) && id in s.alarms
  {
    if Triggered(s, OfAlarm(id), CurrentValue(s, OfAlarm(id))) then AlarmFired(s, id) else s
  }

  lemma CheckedAlarmKeeps(s: State, id: nat)
    requires Firable(s) && Sound(s) && id in s.alarms && QuietBut(s, [OfAlarm(id)])
    ensures Inv(CheckedAlarm(s, id))
  {
    hide Sound, Firable, Settled, AlarmFired, Inv;
    var me := OfAlarm(id);
    assert [me] == [me] + [];
    if Triggered(s, me, CurrentValue(s, me)) {
      FireKeepsSound(s, me);
      FireSettles(s, me, []);
    } else {
      FalseIsSettled(s, me, CurrentValue(s, me));
    }
    SoundQuiet(CheckedAlarm(s, id));
  }

  lemma ReboundAlarmKeeps(s: State, id: nat, a: Alarm)
    requires Inv(s) && id in s.alarms && AlarmOk(a)
    requires a.trigger.counter.On? ==> a.trigger.counter.id in s.counters
    ensures Firable(Rebound(s, id, a)) && id in Rebound(s, id, a).alarms
    ensures Inv(CheckedAlarm(Rebound(s, id, a), id))
  {
    ReboundKeeps(s, id, a);
    assert id in Rebound(s, id, a).alarms;
    hide Inv, Sound, QuietBut, Rebound, CheckedAlarm;
    SoundIsFirable(Rebound(s, id, a));
    CheckedAlarmKeeps(Rebound(s, id, a), id);
  }

  /** The counter of a changed alarm exists. */
  lemma ChangedCounter(s: State, id: nat, attrs: Attributes)
    requires Inv(s) && id in s.alarms && AttributesOk(attrs) && AlarmOk(s.alarms[id])
    requires Changed(s, s.alarms[id], attrs).1 == Success
    ensures var a := Changed(s, s.alarms[id], attrs).0;
            a.trigger.counter.On? ==> a.trigger.counter.id in s.counters
  {
    assert Exists(s, OfAlarm(id)) && OnList(s, OfAlarm(id));
  }

  lemma AlarmIsOk(s: State, id: nat)
    requires Inv(s) && id in s.alarms
    ensures AlarmOk(s.alarms[id])
  {}

  /** The sign of the delta is refused. */
  predicate BadSign(a: Alarm, attrs: Attributes) {
    (attrs.delta.Some? || attrs.testType.Some?)
    && !GoodDelta(Or(attrs.testType, a.trigger.testType), Or(attrs.delta, a.delta))
  }

  /** The counter that is named does not exist. */
  predicate NoSuchCounter(s: State, attrs: Attributes) {
    attrs.counter.Some? && attrs.counter.value.On? && attrs.counter.value.id !in s.counters
  }

  /** The unknown counter is found before the procedure for the new test type is installed. */
  predicate ChecksOldType(s: State, a: Alarm, attrs: Attributes) {
    NoSuchCounter(s, attrs) && attrs.testType.Some? && attrs.testType.value != a.trigger.testType
  }

  /** What a failed ChangeAlarm leaves behind: the attributes are stored, and the counter may have been left but not entered. */
  function HalfChanged(s: State, id: nat, attrs: Attributes): State
    requires id in s.alarms && AttributesOk(attrs) && AlarmOk(s.alarms[id])
    requires Changed(s, s.alarms[id], attrs).1 != Success
  {
    var a := s.alarms[id];
    var t, delta := Stored(a.trigger, attrs), Or(attrs.delta, a.delta);
    var t' := t.(counter := Or(attrs.counter, t.counter));
    if BadSign(a, attrs) || NoSuchCounter(s, attrs) then
      s.(alarms := s.alarms[id := Alarm(t, delta, a.state)])
    else
      s.(alarms := s.alarms[id := Alarm(t'.(testValue := FailedValue(s, t'), check := Or(attrs.testType, t.check)), delta, a.state)],
         counters := if t'.counter == t.counter then s.counters else Detach(s.counters, OfAlarm(id), t.counter))
  }

  /** What SyncInitTrigger leaves of the trigger of an alarm, and its result: an unknown counter is found first. */
  function Initialized(s: State, t: Trigger, changed: Option<CounterRef>, setsType: bool, setsValue: bool): (Trigger, Status) {
    var t' := t.(counter := Or(changed, t.counter), check := if setsType then t.testType else t.check);
    if changed.Some? && t'.counter.On? && t'.counter.id !in s.counters then (t, BadCounter)
    else if !setsValue then (t', Success)
    else match TestValue(s, t')
      case Some(v) => (t'.(testValue := v), Success)
      case None => (t'.(testValue := FailedValue(s, t')), if t'.counter.On? then BadValue else BadMatch)
  }

  /** Its lists: a trigger that changes its counter leaves one list, and is on the other if there was no error. */
  function Relisted(counters: map<nat, Counter>, ref: TriggerRef, before: CounterRef, after: CounterRef, status: Status): map<nat, Counter> {
    if after == before then counters
    else if status == Success then Attach(Detach(counters, ref, before), ref, after)
    else Detach(counters, ref, before)
  }

  function InitState(s: State, id: nat, changed: Option<CounterRef>, setsType: bool, setsValue: bool): State
    requires id in s.alarms
  {
    var t := s.alarms[id].trigger;
    var (t', status) := Initialized(s, t, changed, setsType, setsValue);
    s.(alarms := s.alarms[id := s.alarms[id].(trigger := t')],
       counters := Relisted(s.counters, OfAlarm(id), t.counter, t'.counter, status))
  }

  /** The alarm with the attributes stored. */
  function StoredAlarm(a: Alarm, attrs: Attributes): Alarm {
    Alarm(Stored(a.trigger, attrs), Or(attrs.delta, a.delta), a.state)
  }

  function StoredState(s: State, id: nat, attrs: Attributes): State
    requires id in s.alarms
  {
    s.(alarms := s.alarms[id := StoredAlarm(s.alarms[id], attrs)])
  }

  /** The steps of SyncChangeAlarmAttributes, up to the state of the alarm. */
  function Stepped(s: State, id: nat, attrs: Attributes): State
    requires id in s.alarms
  {
    InitState(StoredState(s, id, attrs), id, attrs.counter, attrs.testType.Some?, attrs.valueType.Some? || attrs.value.Some?)
  }

  lemma SameSums(s: State, id: nat, attrs: Attributes, t: Trigger)
    requires id in s.alarms
    ensures var m := StoredState(s, id, attrs); TestValue(m, t) == TestValue(s, t) && FailedValue(m, t) == FailedValue(s, t)
  {}

  lemma StepsSucceed(s: State, id: nat, attrs: Attributes)
    requires id in s.alarms && AttributesOk(attrs) && AlarmOk(s.alarms[id])
    requires Changed(s, s.alarms[id], attrs).1 == Success
    ensures var s' := Stepped(s, id, attrs);
            Rebound(s, id, Changed(s, s.alarms[id], attrs).0) == s'.(alarms := s'.alarms[id := s'.alarms[id].(state := Active)])
  {
    hide Attach, Detach, GoodDelta, AttributesOk, TestValue, FailedValue, AlarmOk, IsInt64;
    var t := Stored(s.alarms[id].trigger, attrs);
    var t' := t.(counter := Or(attrs.counter, t.counter), check := if attrs.testType.Some? then t.testType else t.check);
    SameSums(s, id, attrs, t');
    var m := StoredState(s, id, attrs);
    assert t' == t.(counter := Or(attrs.counter, t.counter), check := Or(attrs.testType, s.alarms[id].trigger.check));
    assert Changed(s, s.alarms[id], attrs).0.trigger
           == Initialized(m, t, attrs.counter, attrs.testType.Some?, attrs.valueType.Some? || attrs.value.Some?).0;
    hide Initialized, Changed;
  }

  lemma StepsFail(s: State, id: nat, attrs: Attributes)
    requires id in s.alarms && AttributesOk(attrs) && AlarmOk(s.alarms[id])
    requires Changed(s, s.alarms[id], attrs).1 != Success && !BadSign(s.alarms[id], attrs)
    ensures Stepped(s, id, attrs) == HalfChanged(s, id, attrs)
  {
    var t := Stored(s.alarms[id].trigger, attrs);
    var t' := t.(counter := Or(attrs.counter, t.counter));
    assert TestValue(s, t'.(check := Or(attrs.testType, t.check))) == TestValue(s, t');
    assert FailedValue(s, t'.(check := Or(attrs.testType, t.check))) == FailedValue(s, t');
    SameSums(s, id, attrs, t'.(check := Or(attrs.testType, t.check)));
    hide Attach, Detach, GoodDelta, AttributesOk, TestValue, FailedValue;
  }

  /** The steps come to what the request is to do. */
  lemma StepsOfChange(s: State, id: nat, attrs: Attributes)
    requires id in s.alarms && AttributesOk(attrs) && AlarmOk(s.alarms[id])
    ensures var (a, status) := Changed(s, s.alarms[id], attrs);
            var s' := Stepped(s, id, attrs);
            if BadSign(s.alarms[id], attrs) then status == BadMatch && StoredState(s, id, attrs) == HalfChanged(s, id, attrs)
            else
              && status == Initialized(StoredState(s, id, attrs), Stored(s.alarms[id].trigger, attrs), attrs.counter,
                                       attrs.testType.Some?, attrs.valueType.Some? || attrs.value.Some?).1
              && if status == Success then Rebound(s, id, a) == s'.(alarms := s'.alarms[id := s'.alarms[id].(state := Active)])
                 else s' == HalfChanged(s, id, attrs)
  {
    var t := Stored(s.alarms[id].trigger, attrs);
    SameSums(s, id, attrs, t.(counter := Or(attrs.counter, t.counter), check := if attrs.testType.Some? then t.testType else t.check));
    if Changed(s, s.alarms[id], attrs).1 == Success {
      StepsSucceed(s, id, attrs);
    } else if !BadSign(s.alarms[id], attrs) {
      StepsFail(s, id, attrs);
    }
    hide Stepped, Rebound, Attach, Detach, AttributesOk, TestValue, FailedValue;
  }

  /** The trigger is to leave its counter for another one, whose value and the relative one that is given overflow. */
  predicate MovesIntoOverflow(s: State, id: nat, attrs: Attributes)
    requires id in s.alarms
  {
    var t := Stored(s.alarms[id].trigger, attrs);
    && attrs.counter.Some? && attrs.counter.value.On? && attrs.counter.value.id in s.counters
    && attrs.counter.value != t.counter
    && (attrs.valueType.Some? || attrs.value.Some?) && t.valueType == Relative
    && !IsInt64(s.counters[attrs.counter.value.id].value + t.waitValue)
  }

  lemma SameRegistration(s: State, s': State, id: nat)
    requires Registered(s) && id in s.alarms && s'.counters == s.counters && s'.awaits == s.awaits
    requires s'.alarms.Keys == s.alarms.Keys && s'.alarms[id].trigger.counter == s.alarms[id].trigger.counter
    requires forall i | i in s.alarms && i != id :: s'.alarms[i] == s.alarms[i]
    ensures Registered(s')
  {
    assert forall ref :: Exists(s', ref) <==> Exists(s, ref);
    assert forall ref | Exists(s, ref) :: TriggerOf(s', ref).counter == TriggerOf(s, ref).counter;
    forall ref | Exists(s', ref)
      ensures OnList(s', ref)
    {
      assert OnList(s, ref);
    }
    forall c | c in s'.counters
      ensures ListOk(s', c, s'.counters[c].triglist)
    {
      assert ListOk(s, c, s.counters[c].triglist);
    }
  }

  lemma DetachedIsRegistered(s: State, id: nat, s': State)
    requires Registered(s) && id in s.alarms && s'.awaits == s.awaits && s'.counters.Keys == s.counters.Keys
    requires s'.alarms.Keys == s.alarms.Keys && s'.alarms[id].trigger.counter.NoCounter?
    requires forall i | i in s.alarms && i != id :: s'.alarms[i] == s.alarms[i]
    requires forall c | c in s.counters :: !s'.counters[c].beingDestroyed && NoDup(s'.counters[c].triglist)
    requires forall c | c in s.counters :: forall ref :: ref in s'.counters[c].triglist <==> ref in s.counters[c].triglist && ref != OfAlarm(id)
    ensures Registered(s')
  {
    assert forall ref :: Exists(s', ref) <==> Exists(s, ref);
    assert forall ref | Exists(s, ref) && ref != OfAlarm(id) :: TriggerOf(s', ref) == TriggerOf(s, ref);
    forall ref | Exists(s', ref)
      ensures OnList(s', ref)
    {
      assert OnList(s, ref);
    }
    forall c | c in s'.counters
      ensures ListOk(s', c, s'.counters[c].triglist)
    {
      assert ListOk(s, c, s.counters[c].triglist);
    }
  }

  lemma DetachedList(s: State, id: nat, counter: CounterRef, s': State)
    requires Registered(s) && id in s.alarms && counter != s.alarms[id].trigger.counter
    requires s'.counters == Detach(s.counters, OfAlarm(id), s.alarms[id].trigger.counter) && s'.awaits == s.awaits
    requires s'.alarms.Keys == s.alarms.Keys && s'.alarms[id].trigger.counter == counter
    requires forall i | i in s.alarms && i != id :: s'.alarms[i] == s.alarms[i]
    ensures Registered(s') <==> counter.NoCounter?
  {
    var me := OfAlarm(id);
    assert Exists(s, me) && OnList(s, me);
    assert Exists(s', me) && TriggerOf(s', me).counter == counter;
    forall c | c in s.counters
      ensures c in s'.counters && !s'.counters[c].beingDestroyed && NoDup(s'.counters[c].triglist)
      ensures forall ref :: ref in s'.counters[c].triglist <==> ref in s.counters[c].triglist && ref != me
    {
      var list := s.counters[c].triglist;
      assert ListOk(s, c, list);
      RemoveNoDup(list, me);
      forall ref
        ensures ref in Remove(list, me) <==> ref in list && ref != me
      {
        RemoveHolds(list, me, ref);
      }
    }
    if counter.NoCounter? {
      DetachedIsRegistered(s, id, s');
    } else {
      assert !OnList(s', me);
    }
  }

  /**
   * A failed ChangeAlarm leaves every trigger on the list of its counter if and only if the sign of the delta
   * was refused, or the value did not overflow on the way to another counter.
   */
  lemma FailedChangeAlarm(s: State, id: nat, attrs: Attributes)
    requires Inv(s) && id in s.alarms && AttributesOk(attrs) && AlarmOk(s.alarms[id])
    requires Changed(s, s.alarms[id], attrs).1 != Success
    ensures Registered(HalfChanged(s, id, attrs)) <==> BadSign(s.alarms[id], attrs) || !MovesIntoOverflow(s, id, attrs)
  {
    hide GoodDelta, Settled;
    var a, s' := s.alarms[id], HalfChanged(s, id, attrs);
    var counter := Or(attrs.counter, a.trigger.counter);
    if s'.counters == s.counters && s'.alarms[id].trigger.counter == a.trigger.counter {
      SameRegistration(s, s', id);
    } else {
      DetachedList(s, id, counter, s');
    }
  }

  /** The trigger that the failure leaves to the alarm. */
  function LeftTrigger(s: State, id: nat, attrs: Attributes): Trigger
    requires id in s.alarms
  {
    var t := Stored(s.alarms[id].trigger, attrs);
    var t' := t.(counter := Or(attrs.counter, t.counter));
    if BadSign(s.alarms[id], attrs) || NoSuchCounter(s, attrs) then t else t'.(testValue := FailedValue(s, t'), check := Or(attrs.testType, t.check))
  }

  /** It has a counter, and is not checked by a comparison that is true. */
  predicate LeftFalse(s: State, t: Trigger) {
    && t.counter.On?
    && (t.check.Comparison() && t.counter.id in s.counters ==>
          !Holds(t.check, t.testValue, t.testValue, s.counters[t.counter.id].value))
  }

  predicate SameValues(s: State, s': State) {
    && s'.counters.Keys == s.counters.Keys
    && forall c | c in s.counters :: s'.counters[c].value == s.counters[c].value
  }

  /** But for one alarm, and for what is on the lists, nothing has changed. */
  ghost predicate AlarmDiffers(s: State, s': State, id: nat) {
    && s'.awaits == s.awaits && s'.ignored == s.ignored && s'.log == s.log
    && s'.alarms.Keys == s.alarms.Keys && id in s.alarms
    && (forall i | i in s.alarms && i != id :: s'.alarms[i] == s.alarms[i])
    && SameValues(s, s')
  }

  lemma HalfParts(s: State, id: nat, attrs: Attributes)
    requires id in s.alarms && AttributesOk(attrs) && AlarmOk(s.alarms[id])
    requires Changed(s, s.alarms[id], attrs).1 != Success
    ensures AlarmDiffers(s, HalfChanged(s, id, attrs), id)
    ensures HalfChanged(s, id, attrs).alarms[id]
            == Alarm(LeftTrigger(s, id, attrs), Or(attrs.delta, s.alarms[id].delta), s.alarms[id].state)
  {}

  lemma LeftIsOk(s: State, id: nat, attrs: Attributes)
    requires id in s.alarms && AttributesOk(attrs) && AlarmOk(s.alarms[id])
    ensures AlarmOk(Alarm(LeftTrigger(s, id, attrs), Or(attrs.delta, s.alarms[id].delta), s.alarms[id].state))
            <==> !BadSign(s.alarms[id], attrs) && !ChecksOldType(s, s.alarms[id], attrs)
  {}

  lemma SameBlocked(s: State, s': State)
    requires s'.awaits == s.awaits && s'.ignored == s.ignored && s'.log == s.log
    requires Blocked(s) && ReleasedOnce(s)
    ensures Blocked(s') && ReleasedOnce(s')
  {}

  lemma OneAlarmDiffers(s: State, s': State, id: nat)
    requires Inv(s) && AlarmDiffers(s, s', id)
    ensures Inv(s') <==> && Registered(s') && AlarmOk(s'.alarms[id])
                         && (s'.alarms[id].state == Active ==> LeftFalse(s, s'.alarms[id].trigger))
  {
    hide Registered, AlarmOk, Holds, Blocked, ReleasedOnce;
    var me := OfAlarm(id);
    assert Blocked(s') && ReleasedOnce(s') by { SameBlocked(s, s'); }
    assert Exists(s', me);
    assert Settled(s', me) <==> (s'.alarms[id].state == Active ==> LeftFalse(s, s'.alarms[id].trigger));
    forall ref | Exists(s', ref) && ref != me
      ensures Settled(s', ref)
    {
      assert Exists(s, ref) && TriggerOf(s', ref) == TriggerOf(s, ref) && Settled(s, ref);
    }
  }

  /** The delta is not refused, the alarm is checked by its test type, on the list of its counter, and not left true. */
  predicate FailsHarmlessly(s: State, id: nat, attrs: Attributes)
    requires id in s.alarms
  {
    && !BadSign(s.alarms[id], attrs) && !ChecksOldType(s, s.alarms[id], attrs) && !MovesIntoOverflow(s, id, attrs)
    && (s.alarms[id].state == Active ==> LeftFalse(s, LeftTrigger(s, id, attrs)))
  }

  /**
   * A failed ChangeAlarm keeps the invariant if and only if the delta was not refused for its sign, a new test type
   * did not come with an unknown counter, the value did not overflow on the way to another counter, and the alarm
   * was not Active or the trigger that it has been left with is false.
   */
  lemma FailedChangeAlarmIff(s: State, id: nat, attrs: Attributes)
    requires Inv(s) && id in s.alarms && AttributesOk(attrs) && AlarmOk(s.alarms[id])
    requires Changed(s, s.alarms[id], attrs).1 != Success
    ensures Inv(HalfChanged(s, id, attrs)) <==> FailsHarmlessly(s, id, attrs)
  {
    FailedChangeAlarm(s, id, attrs);
    HalfParts(s, id, attrs);
    LeftIsOk(s, id, attrs);
    hide HalfChanged, LeftTrigger, Changed, Stored, MovesIntoOverflow, BadSign, ChecksOldType, Registered, AlarmOk, LeftFalse;
    OneAlarmDiffers(s, HalfChanged(s, id, attrs), id);
  }

  /** An Active alarm that is to move to a counter at the top of its range, by a relative value of 1. */
  lemma MovedOffItsList()
    ensures var s := State(map[0 := Counter(0, [OfAlarm(0)], false), 1 := Counter(MAX_INT64, [], false)],
                           map[0 := Alarm(Trigger(On(0), Absolute, 5, PositiveComparison, 5, PositiveComparison), 1, Active)], map[], {}, []);
            var attrs := Attributes(Some(On(1)), Some(Relative), Some(1), None, None);
            && Inv(s) && AttributesOk(attrs) && AlarmOk(s.alarms[0]) && Changed(s, s.alarms[0], attrs).1 == BadValue
            && !Registered(HalfChanged(s, 0, attrs))
  {
    var s := State(map[0 := Counter(0, [OfAlarm(0)], false), 1 := Counter(MAX_INT64, [], false)],
                   map[0 := Alarm(Trigger(On(0), Absolute, 5, PositiveComparison, 5, PositiveComparison), 1, Active)], map[], {}, []);
    var attrs := Attributes(Some(On(1)), Some(Relative), Some(1), None, None);
    assert Inv(s) by {
      assert forall ref :: Exists(s, ref) <==> ref == OfAlarm(0);
      assert s.counters[0].triglist == [OfAlarm(0)];
    }
    assert MovesIntoOverflow(s, 0, attrs);
    FailedChangeAlarm(s, 0, attrs);
  }

  /**
   * An Active alarm that waits for 5 is to wait for a counter that does not exist, by a negative transition. The
   * request fails, and the alarm is still checked by a positive comparison: it goes off when its counter comes to 5.
   */
  lemma ChecksWithOldProcedure()
    ensures var s := State(map[0 := Counter(0, [OfAlarm(0)], false)],
                           map[0 := Alarm(Trigger(On(0), Absolute, 5, PositiveComparison, 5, PositiveComparison), 1, Active)], map[], {}, []);
            var attrs := Attributes(Some(On(7)), None, None, Some(NegativeTransition), Some(-1));
            && Inv(s) && AttributesOk(attrs) && AlarmOk(s.alarms[0]) && Changed(s, s.alarms[0], attrs).1 == BadCounter
            && var s' := HalfChanged(s, 0, attrs);
               && !Inv(s') && s'.alarms[0].trigger.testType == NegativeTransition
               && Triggered(WithValue(s', 0, 5), OfAlarm(0), 0) && !Holds(NegativeTransition, 5, 0, 5)
  {
    var s := State(map[0 := Counter(0, [OfAlarm(0)], false)],
                   map[0 := Alarm(Trigger(On(0), Absolute, 5, PositiveComparison, 5, PositiveComparison), 1, Active)], map[], {}, []);
    assert Inv(s) by {
      assert forall ref :: Exists(s, ref) <==> ref == OfAlarm(0);
      assert s.counters[0].triglist == [OfAlarm(0)];
    }
    FailedChangeAlarmIff(s, 0, Attributes(Some(On(7)), None, None, Some(NegativeTransition), Some(-1)));
  }

  /** ProcSyncChangeAlarm; None when it fails and leaves an alarm that breaks the invariant. */
  ghost function ChangeAlarmRequest(s: State, id: nat, attrs: Attributes): (r: (Option<State>, Status))
    requires Inv(s) && AttributesOk(attrs)
  {
    if id !in s.alarms then (Some(s), BadAlarm)
    else
      AlarmIsOk(s, id);
      var (a, status) := Changed(s, s.alarms[id], attrs);
      if status != Success then
        (if FailsHarmlessly(s, id, attrs) then Some(HalfChanged(s, id, attrs)) else None, status)
      else
        ChangedCounter(s, id, attrs);
        ReboundAlarmKeeps(s, id, a);
        (Some(CheckedAlarm(Rebound(s, id, a), id)), Success)
  }

  function WithNewAlarm(s: State, id: nat): State {
    s.(alarms := s.alarms[id := NEW_ALARM])
  }

  lemma WithNewAlarmKeeps(s: State, id: nat)
    requires Inv(s) && id !in s.alarms
    ensures Inv(WithNewAlarm(s, id))
  {
    var s' := WithNewAlarm(s, id);
    assert forall ref :: Exists(s', ref) <==> Exists(s, ref) || ref == OfAlarm(id);
    assert forall ref | Exists(s, ref) :: TriggerOf(s', ref) == TriggerOf(s, ref);
    assert Registered(s') && QuietBut(s', []) by {
      hide Blocked, ReleasedOnce, AlarmsOk;
      forall ref | Exists(s', ref)
        ensures OnList(s', ref) && Settled(s', ref)
      {
        if ref != OfAlarm(id) {
          assert OnList(s, ref) && Settled(s, ref);
        }
      }
      forall c | c in s'.counters
        ensures ListOk(s', c, s'.counters[c].triglist)
      {
        assert ListOk(s, c, s.counters[c].triglist);
      }
    }
  }

  lemma InactiveAlarmKeeps(s: State, id: nat, a: Alarm)
    requires Inv(s) && id in s.alarms && AlarmOk(a) && a.state == Inactive && a.trigger.counter.NoCounter?
    ensures Inv(Rebound(s, id, a))
  {
    ReboundKeeps(s, id, a);
    var s' := Rebound(s, id, a);
    assert s'.alarms[id] == a;
    assert forall ref | ref in [OfAlarm(id)] :: ref == OfAlarm(id);
    hide Inv, Sound, Rebound;
    assert QuietBut(s', []);
    SoundQuiet(s');
  }

  /** ProcSyncCreateAlarm; after an error nothing has changed. */
  ghost function CreateAlarmRequest(s: State, id: nat, attrs: Attributes): (State, Status)
    requires Inv(s) && AttributesOk(attrs) && id !in s.alarms
  {
    WithNewAlarmKeeps(s, id);
    var s0 := WithNewAlarm(s, id);
    var (a, status) := Changed(s0, NEW_ALARM, attrs);
    if status != Success then (s, status)
    else
      ChangedCounter(s0, id, attrs);
      if a.trigger.counter.NoCounter? then (Rebound(s0, id, a.(state := Inactive)), Success)
      else
        ReboundAlarmKeeps(s0, id, a);
        (CheckedAlarm(Rebound(s0, id, a), id), Success)
  }

  lemma InactiveIsOk(a: Alarm)
    requires AlarmOk(a)
    ensures AlarmOk(a.(state := Inactive))
  {}

  lemma CreateAlarmKeeps(s: State, id: nat, attrs: Attributes)
    requires Inv(s) && AttributesOk(attrs) && id !in s.alarms
    ensures Inv(CreateAlarmRequest(s, id, attrs).0)
  {
    hide Inv, AlarmOk, Rebound, CheckedAlarm, TestValue, GoodDelta;
    WithNewAlarmKeeps(s, id);
    var s0 := WithNewAlarm(s, id);
    AlarmIsOk(s0, id);
    var (a, status) := Changed(s0, NEW_ALARM, attrs);
    if status == Success {
      ChangedCounter(s0, id, attrs);
      if a.trigger.counter.NoCounter? {
        InactiveIsOk(a);
        InactiveAlarmKeeps(s0, id, a.(state := Inactive));
      } else {
        ReboundAlarmKeeps(s0, id, a);
      }
    }
  }

  lemma ChangeAlarmKeeps(s: State, id: nat, attrs: Attributes)
    requires Inv(s) && AttributesOk(attrs)
    ensures var r := ChangeAlarmRequest(s, id, attrs); r.0.Some? ==> Inv(r.0.value)
  {
    hide Inv, AlarmOk, Rebound, CheckedAlarm, TestValue, GoodDelta, HalfChanged, FailsHarmlessly;
    if id in s.alarms {
      AlarmIsOk(s, id);
      var (a, status) := Changed(s, s.alarms[id], attrs);
      if status == Success {
        ChangedCounter(s, id, attrs);
        ReboundAlarmKeeps(s, id, a);
      } else {
        FailedChangeAlarmIff(s, id, attrs);
      }
    }
  }

  /** ProcSyncDestroyAlarm with FreeAlarm. */
  ghost function DestroyAlarmRequest(s: State, id: nat): (State, Status)
    requires Inv(s)
  {
    if id !in s.alarms then (s, BadAlarm)
    else
      InvParts(s);
      SoundIsFirable(s);
      (State(Detach(s.counters, OfAlarm(id), s.alarms[id].trigger.counter), s.alarms - {id}, s.awaits, s.ignored,
             s.log + [AlarmEvent(s, id, Destroyed)]), Success)
  }

  lemma AlarmEventCounts(s: State, s': State, e: Event)
    requires ReleasedOnce(s) && e.AlarmNotify? && s'.log == s.log + [e] && s'.ignored == s.ignored
    ensures ReleasedOnce(s')
  {
    assert multiset(s'.log) == multiset(s.log) + multiset{e};
  }

  /** An alarm without a counter can go without a trace. */
  lemma DropLooseAlarm(s: State, id: nat, e: Event)
    requires Inv(s) && id in s.alarms && s.alarms[id].trigger.counter.NoCounter? && e.AlarmNotify?
    ensures Inv(s.(alarms := s.alarms - {id}, log := s.log + [e]))
  {
    var s' := s.(alarms := s.alarms - {id}, log := s.log + [e]);
    assert forall ref :: Exists(s', ref) <==> Exists(s, ref) && ref != OfAlarm(id);
    assert forall ref | Exists(s', ref) :: TriggerOf(s', ref) == TriggerOf(s, ref);
    assert Registered(s') && QuietBut(s', []) by {
      hide Blocked, ReleasedOnce, AlarmsOk, Holds;
      forall ref | Exists(s', ref)
        ensures OnList(s', ref) && Settled(s', ref)
      {
        assert OnList(s, ref) && Settled(s, ref);
      }
      forall c | c in s'.counters
        ensures ListOk(s', c, s'.counters[c].triglist)
      {
        assert ListOk(s, c, s.counters[c].triglist);
      }
    }
    AlarmEventCounts(s, s', e);
  }

  lemma DestroyAlarmKeeps(s: State, id: nat)
    requires Inv(s)
    ensures Inv(DestroyAlarmRequest(s, id).0)
  {
    if id in s.alarms {
      InvParts(s);
      SoundIsFirable(s);
      AlarmIsOk(s, id);
      var a := s.alarms[id];
      var loose := a.(trigger := a.trigger.(counter := NoCounter), state := Inactive);
      InactiveAlarmKeeps(s, id, loose);
      var s1 := Rebound(s, id, loose);
      assert s1 == State(Detach(s.counters, OfAlarm(id), a.trigger.counter), s.alarms[id := loose], s.awaits, s.ignored, s.log);
      DropLooseAlarm(s1, id, AlarmEvent(s, id, Destroyed));
      assert s.alarms[id := loose] - {id} == s.alarms - {id};
    }
  }

  // ---------- Counters ----------

  function WithNewCounter(s: State, id: nat, value: int): State {
    s.(counters := s.counters[id := Counter(value, [], false)])
  }

  lemma WithNewCounterKeeps(s: State, id: nat, value: int)
    requires Inv(s) && id !in s.counters && IsInt64(value)
    ensures Inv(WithNewCounter(s, id, value))
  {
    hide Blocked, ReleasedOnce;
    var s' := WithNewCounter(s, id, value);
    assert forall ref :: Exists(s', ref) <==> Exists(s, ref);
    assert forall ref | Exists(s, ref) :: TriggerOf(s', ref) == TriggerOf(s, ref);
    forall ref | Exists(s', ref)
      ensures OnList(s', ref) && Settled(s', ref)
    {
      assert OnList(s, ref) && Settled(s, ref);
    }
    forall c | c in s'.counters
      ensures ListOk(s', c, s'.counters[c].triglist)
    {
      if c in s.counters {
        assert ListOk(s, c, s.counters[c].triglist);
      }
    }
    SameClients(s, s');
  }

  /** ProcSyncSetCounter. */
  ghost function SetCounterRequest(s: State, c: nat, value: int): (State, Status)
    requires Inv(s)
  {
    if c !in s.counters then (s, BadCounter)
    else
      InvParts(s);
      SoundIsFirable(s);
      (CounterChanged(s, c, value), Success)
  }

  /** ProcSyncChangeCounter. */
  ghost function ChangeCounterRequest(s: State, c: nat, amount: int): (State, Status)
    requires Inv(s)
  {
    if c !in s.counters then (s, BadCounter)
    else if !IsInt64(s.counters[c].value + amount) then (s, BadValue)
    else SetCounterRequest(s, c, s.counters[c].value + amount)
  }

  lemma SetCounterKeeps(s: State, c: nat, value: int)
    requires Inv(s) && IsInt64(value)
    ensures Inv(SetCounterRequest(s, c, value).0)
  {
    hide Inv, CounterChanged;
    if c in s.counters {
      InvParts(s);
      SoundIsFirable(s);
      CounterChangedKeeps(s, c, value);
    }
  }

  // ---------- What one change of a counter fires ----------

  /** Each await appears on the list at most once. */
  predicate OncePerAwait(list: seq<TriggerRef>) {
    && NoDup(list)
    && forall i, j | 0 <= i < j < |list| && list[i].OfAwait? && list[j].OfAwait? :: list[i].id != list[j].id
  }

  /** Firing one trigger does not change whether another one is true, nor what it would do. */
  lemma FireFrame(s: State, ref: TriggerRef, other: TriggerRef, oldval: int)
    requires Firable(s) && Exists(s, ref) && Exists(s, other)
    requires TriggerOf(s, ref).testType.Comparison() ==> Triggered(s, ref, 0)
    requires other != ref && (ref.OfAwait? ==> !(other.OfAwait? && other.id == ref.id))
    ensures SameValues(s, Fire(s, ref))
    ensures Exists(Fire(s, ref), other) && Triggered(Fire(s, ref), other, oldval) == Triggered(s, other, oldval)
    ensures other.OfAlarm? ==> Fire(s, ref).alarms[other.id] == s.alarms[other.id]
    ensures other.OfAwait? ==> Fire(s, ref).awaits[other.id] == s.awaits[other.id]
  {
    hide AlarmAfter, AlarmEvent, Due, DueOf, CounterEvents, Holds;
  }

  /** What an alarm becomes when it goes off depends on it and on its counter's value only. */
  lemma AlarmAfterFrame(s: State, s': State, id: nat)
    requires Firable(s) && Firable(s') && id in s.alarms && id in s'.alarms && s'.alarms[id] == s.alarms[id]
    requires SameValues(s, s')
    requires s.alarms[id].trigger.testType.Comparison() ==> Triggered(s, OfAlarm(id), 0) && Triggered(s', OfAlarm(id), 0)
    ensures AlarmFired(s', id).alarms[id] == AlarmFired(s, id).alarms[id]
  {
    hide AlarmEvent;
  }

  /** The alarm goes off, by its own truth in state `s`, if it is on the list. */
  ghost predicate AlarmOutcome(s: State, list: seq<TriggerRef>, oldval: int, s': State, id: nat)
    requires Firable(s) && id in s.alarms
  {
    id in s'.alarms &&
    if OfAlarm(id) in list && Triggered(s, OfAlarm(id), oldval) then
      s'.alarms[id] == AlarmFired(s, id).alarms[id]
    else s'.alarms[id] == s.alarms[id]
  }

  ghost predicate Walkable(s: State, list: seq<TriggerRef>) {
    Firable(s) && OncePerAwait(list) && forall ref | ref in list :: Exists(s, ref)
  }

  /** The state after looking at the first trigger of the list. */
  function After(s: State, ref: TriggerRef, oldval: int): (s': State)
    requires Firable(s) && Exists(s, ref)
    ensures Firable(s')
  {
    if Triggered(s, ref, oldval) then Fire(s, ref) else s
  }

  lemma FireValues(s: State, ref: TriggerRef)
    requires Firable(s) && Exists(s, ref)
    requires TriggerOf(s, ref).testType.Comparison() ==> Triggered(s, ref, 0)
    ensures SameValues(s, Fire(s, ref))
  {
    hide AlarmAfter, AlarmEvent, Due, DueOf, CounterEvents, Holds;
  }

  lemma WalkOn(s: State, list: seq<TriggerRef>, oldval: int)
    requires Walkable(s, list) && list != []
    ensures Walkable(After(s, list[0], oldval), list[1..])
    ensures SameValues(s, After(s, list[0], oldval))
    ensures FireAll(s, list, oldval) == FireAll(After(s, list[0], oldval), list[1..], oldval)
  {
    var ref, rest := list[0], list[1..];
    assert list == [ref] + rest;
    hide Firable, Fire, Triggered;
    if Triggered(s, ref, oldval) {
      ComparisonIgnoresOld(s, ref, oldval, 0);
      FireValues(s, ref);
      forall r | r in rest
        ensures Exists(Fire(s, ref), r)
      {
        FireFrame(s, ref, r, oldval);
      }
    }
  }

  lemma OnceOnly(list: seq<TriggerRef>)
    requires OncePerAwait(list) && list != []
    ensures list[0] !in list[1..]
    ensures list[0].OfAwait? ==> forall r | r in list[1..] && r.OfAwait? :: r.id != list[0].id
  {}

  lemma AfterFrame(s: State, ref: TriggerRef, other: TriggerRef, oldval: int)
    requires Firable(s) && Exists(s, ref) && Exists(s, other)
    requires other != ref && (ref.OfAwait? ==> !(other.OfAwait? && other.id == ref.id))
    ensures var s1 := After(s, ref, oldval);
            && Exists(s1, other) && Triggered(s1, other, oldval) == Triggered(s, other, oldval)
            && (other.OfAlarm? ==> s1.alarms[other.id] == s.alarms[other.id])
            && (other.OfAwait? ==> s1.awaits[other.id] == s.awaits[other.id])
  {
    hide Firable, Fire, Triggered;
    if Triggered(s, ref, oldval) {
      ComparisonIgnoresOld(s, ref, oldval, 0);
      FireFrame(s, ref, other, oldval);
    }
  }

  /** One walk over a trigger list: an alarm goes off if and only if it is on the list and was true when the walk began. */
  lemma {:induction false} AlarmsFireExactly(s: State, list: seq<TriggerRef>, oldval: int, id: nat)
    requires Walkable(s, list) && id in s.alarms
    ensures AlarmOutcome(s, list, oldval, FireAll(s, list, oldval), id)
    decreases |list|
  {
    if list != [] {
      var ref, rest, me := list[0], list[1..], OfAlarm(id);
      assert list == [ref] + rest;
      var s1 := After(s, ref, oldval);
      WalkOn(s, list, oldval);
      hide FireAll, AlarmFired, Walkable, Holds;
      if ref == me {
        assert me !in rest && id in s1.alarms by { OnceOnly(list); }
        AlarmsFireExactly(s1, rest, oldval, id);
      } else {
        assert Exists(s1, me) && Triggered(s1, me, oldval) == Triggered(s, me, oldval) && s1.alarms[id] == s.alarms[id] by {
          AfterFrame(s, ref, me, oldval);
        }
        AlarmsFireExactly(s1, rest, oldval, id);
        if me in rest && Triggered(s, me, oldval) {
          ComparisonIgnoresOld(s, me, oldval, 0);
          ComparisonIgnoresOld(s1, me, oldval, 0);
          AlarmAfterFrame(s, s1, id);
        }
      }
    }
  }

  lemma AwaitStays(s: State, ref: TriggerRef, oldval: int, id: nat)
    requires Firable(s) && Exists(s, ref) && id in s.awaits && !(ref.OfAwait? && ref.id == id)
    ensures id in After(s, ref, oldval).awaits
  {}

  lemma {:induction false} AwaitStaysGone(s: State, list: seq<TriggerRef>, oldval: int, id: nat)
    requires Firable(s) && id !in s.awaits
    ensures id !in FireAll(s, list, oldval).awaits
    decreases |list|
  {
    if list != [] {
      hide Firable;
      if Exists(s, list[0]) && Triggered(s, list[0], oldval) {
        AwaitStaysGone(Fire(s, list[0]), list[1..], oldval, id);
      } else {
        AwaitStaysGone(s, list[1..], oldval, id);
      }
    }
  }

  /** An await on condition `ref` of the list is gone after the walk if and only if that condition was true when it began. */
  lemma {:induction false} AwaitsFireExactly(s: State, list: seq<TriggerRef>, oldval: int, id: nat)
    requires Walkable(s, list) && id in s.awaits
    ensures id in FireAll(s, list, oldval).awaits <==>
            forall ref | ref in list && ref.OfAwait? && ref.id == id :: !Triggered(s, ref, oldval)
    decreases |list|
  {
    if list != [] {
      var ref, rest := list[0], list[1..];
      assert list == [ref] + rest;
      var s1 := After(s, ref, oldval);
      WalkOn(s, list, oldval);
      OnceOnly(list);
      if ref.OfAwait? && ref.id == id {
        assert forall r | r in list && r.OfAwait? && r.id == id :: r == ref;
        hide Walkable, Holds, AwaitFired;
        if Triggered(s, ref, oldval) {
          AwaitGone(s, id);
          AwaitStaysGone(s1, rest, oldval, id);
        } else {
          AwaitsFireExactly(s1, rest, oldval, id);
        }
      } else {
        hide FireAll, Triggered, Fire, Firable;
        AwaitStays(s, ref, oldval, id);
        forall r | r in rest && r.OfAwait? && r.id == id
          ensures Triggered(s1, r, oldval) == Triggered(s, r, oldval)
        {
          AfterFrame(s, ref, r, oldval);
        }
        AwaitsFireExactly(s1, rest, oldval, id);
      }
    }
  }

  /** The lists of a server can be walked. */
  lemma ListsAreWalkable(s: State, c: nat, value: int)
    requires Inv(s) && c in s.counters && IsInt64(value)
    ensures Walkable(WithValue(s, c, value), s.counters[c].triglist)
  {
    WithValueKeeps(s, c, value);
    SoundIsFirable(WithValue(s, c, value));
    var list := s.counters[c].triglist;
    assert ListOk(s, c, list);
    assert forall id | id in s.awaits :: AwaitOk(s.awaits[id].conds);
    forall i, j | 0 <= i < j < |list| && list[i].OfAwait? && list[j].OfAwait?
      ensures list[i].id != list[j].id
    {
      assert list[i] in list && list[j] in list;
    }
  }

  // ---------- Runs ----------

  datatype Request =
    | CreateCounter(id: nat, value: int)
    | SetCounter(id: nat, value: int)
    | ChangeCounter(id: nat, amount: int)
    | DestroyCounter(id: nat)
    | AwaitConditions(client: nat, id: nat, conditions: seq<WaitCondition>)
    | CreateAlarm(id: nat, attributes: Attributes)
    | ChangeAlarm(id: nat, attributes: Attributes)
    | DestroyAlarm(id: nat)

  /** Values are INT64, new ids are new, an awaiting client is not blocked and names no counter twice. */
  ghost predicate InScope(s: State, r: Request) {
    match r
    case CreateCounter(id, value) => id !in s.counters && IsInt64(value)
    case SetCounter(_, value) => IsInt64(value)
    case AwaitConditions(client, id, conditions) => AwaitInScope(s, client, id, conditions)
    case CreateAlarm(id, attributes) => id !in s.alarms && AttributesOk(attributes)
    case ChangeAlarm(_, attributes) => AttributesOk(attributes)
    case _ => true
  }

  /** One request; None only for a ChangeAlarm that fails and breaks the invariant. */
  ghost function Step(s: State, r: Request): Option<State>
    requires Inv(s) && InScope(s, r)
  {
    match r
    case CreateCounter(id, value) => Some(WithNewCounter(s, id, value))
    case SetCounter(id, value) => Some(SetCounterRequest(s, id, value).0)
    case ChangeCounter(id, amount) => Some(ChangeCounterRequest(s, id, amount).0)
    case DestroyCounter(id) => Some(if id in s.counters then CounterDestroyed(s, id) else s)
    case AwaitConditions(client, id, conditions) => Some(AwaitRequest(s, client, id, conditions).0)
    case CreateAlarm(id, attributes) => Some(CreateAlarmRequest(s, id, attributes).0)
    case ChangeAlarm(id, attributes) => ChangeAlarmRequest(s, id, attributes).0
    case DestroyAlarm(id) => Some(DestroyAlarmRequest(s, id).0)
  }

  lemma StepKeeps(s: State, r: Request)
    requires Inv(s) && InScope(s, r)
    ensures Step(s, r).Some? ==> Inv(Step(s, r).value)
  {
    hide Inv, SetCounterRequest, CounterDestroyed, AwaitRequest, CreateAlarmRequest, ChangeAlarmRequest, DestroyAlarmRequest;
    match r
    case CreateCounter(id, value) => WithNewCounterKeeps(s, id, value);
    case SetCounter(id, value) => SetCounterKeeps(s, id, value);
    case ChangeCounter(id, amount) =>
      if id in s.counters && IsInt64(s.counters[id].value + amount) {
        SetCounterKeeps(s, id, s.counters[id].value + amount);
      }
    case DestroyCounter(id) =>
      if id in s.counters {
        CounterDestroyedKeeps(s, id);
      }
    case AwaitConditions(client, id, conditions) => AwaitRequestKeeps(s, client, id, conditions);
    case CreateAlarm(id, attributes) => CreateAlarmKeeps(s, id, attributes);
    case ChangeAlarm(id, attributes) => ChangeAlarmKeeps(s, id, attributes);
    case DestroyAlarm(id) => DestroyAlarmKeeps(s, id);
  }

  const EMPTY := State(map[], map[], map[], {}, [])

  /** A run of requests from state `s`; None when a request is out of scope or a failed ChangeAlarm breaks the invariant. */
  ghost function Run(s: State, requests: seq<Request>): (r: Option<State>)
    requires Inv(s)
    ensures r.Some? ==> Inv(r.value)
    decreases |requests|
  {
    if requests == [] then Some(s)
    else if !InScope(s, requests[0]) then None
    else
      StepKeeps(s, requests[0]);
      match Step(s, requests[0])
      case Some(s') => Run(s', requests[1..])
      case None => None
  }

  lemma EmptyIsInv()
    ensures Inv(EMPTY)
  {
    assert forall ref :: !Exists(EMPTY, ref);
  }

  /** A run of a server from its start. */
  ghost function ServerRun(requests: seq<Request>): (r: Option<State>)
    ensures r.Some? ==> Inv(r.value)
  {
    EmptyIsInv();
    Run(EMPTY, requests)
  }

  /** The trigger has a counter, is checked by its test type, and is not a comparison that is true at its current value. */
  ghost predicate Calm(s: State, t: Trigger) {
    && t.counter.On? && t.counter.id in s.counters && t.check == t.testType
    && (t.testType == PositiveComparison ==> s.counters[t.counter.id].value < t.testValue)
    && (t.testType == NegativeComparison ==> s.counters[t.counter.id].value > t.testValue)
  }

  /** Some await of the client is pending. */
  ghost predicate Waiting(s: State, client: nat) {
    exists id :: id in s.awaits && s.awaits[id].client == client
  }

  /** Quiescence over every run: no Active alarm, and no condition of a pending await, is left true. */
  lemma EveryRunIsQuiescent(requests: seq<Request>)
    requires ServerRun(requests).Some?
    ensures var s := ServerRun(requests).value;
            && (forall id | id in s.alarms && s.alarms[id].state == Active :: Calm(s, s.alarms[id].trigger))
            && (forall id, k: nat | id in s.awaits && k < |s.awaits[id].conds| :: Calm(s, s.awaits[id].conds[k].trigger))
  {
    var s := ServerRun(requests).value;
    forall id | id in s.alarms && s.alarms[id].state == Active
      ensures Calm(s, s.alarms[id].trigger)
    {
      assert Exists(s, OfAlarm(id)) && Settled(s, OfAlarm(id)) && OnList(s, OfAlarm(id));
    }
    forall id, k: nat | id in s.awaits && k < |s.awaits[id].conds|
      ensures Calm(s, s.awaits[id].conds[k].trigger)
    {
      assert Exists(s, OfAwait(id, k)) && Settled(s, OfAwait(id, k)) && OnList(s, OfAwait(id, k));
    }
  }

  /** Registration over every run: each list holds exactly the triggers pointing at its counter, once each. */
  lemma EveryRunIsRegistered(requests: seq<Request>)
    requires ServerRun(requests).Some?
    ensures var s := ServerRun(requests).value;
            && (forall c, ref | c in s.counters ::
                  ref in s.counters[c].triglist <==> Exists(s, ref) && TriggerOf(s, ref).counter == On(c))
            && (forall c | c in s.counters :: NoDup(s.counters[c].triglist))
  {
    var s := ServerRun(requests).value;
    forall c | c in s.counters
      ensures ListOk(s, c, s.counters[c].triglist)
    {}
    forall c, ref | c in s.counters && Exists(s, ref) && TriggerOf(s, ref).counter == On(c)
      ensures ref in s.counters[c].triglist
    {
      assert OnList(s, ref);
    }
  }

  /** Release over every run: each client was released once for each time it was blocked, but for the await it is blocked in now. */
  lemma EveryRunReleases(requests: seq<Request>, client: nat)
    requires ServerRun(requests).Some?
    ensures var s := ServerRun(requests).value;
            multiset(s.log)[IgnoreClient(client)] ==
            multiset(s.log)[AttendClient(client)] + if Waiting(s, client) then 1 else 0
  {
    var s := ServerRun(requests).value;
    assert Waiting(s, client) <==> client in s.ignored;
  }
}
