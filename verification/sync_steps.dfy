/** What one request does to the counters, alarms and awaits, step by step. */
module SyncSteps {
  import opened SyncModel

  /** Triggers can be checked: their counters exist and their alarms are in order. */
  ghost predicate Firable(s: State) {
    && (forall id | id in s.alarms ::
          AlarmOk(s.alarms[id]) && (s.alarms[id].trigger.counter.On? ==> s.alarms[id].trigger.counter.id in s.counters))
    && (forall id, i: nat | id in s.awaits && i < |s.awaits[id].conds| ::
          && s.awaits[id].conds[i].trigger.counter.On? && s.awaits[id].conds[i].trigger.counter.id in s.counters
          && InStep(s.awaits[id].conds[i].trigger))
  }

  /** CheckTrigger after the counter has moved from `oldval`; a trigger without a counter is true. */
  predicate Triggered(s: State, ref: TriggerRef, oldval: int)
    requires Exists(s, ref)
  {
    var t := TriggerOf(s, ref);
    t.counter.On? ==> t.counter.id in s.counters && Holds(t.check, t.testValue, oldval, s.counters[t.counter.id].value)
  }

  // ---------- Alarms ----------

  /** An alarm when it goes off: its new test value and state. */
  function AlarmAfter(s: State, id: nat): Alarm
    requires Firable(s) && id in s.alarms
    requires s.alarms[id].trigger.testType.Comparison() ==> Triggered(s, OfAlarm(id), 0)
  {
    var a := s.alarms[id];
    if a.trigger.counter.NoCounter? || (a.delta == 0 && a.trigger.testType.Comparison()) then
      a.(state := Inactive)
    else
      match Advanced(a.trigger.testType, a.trigger.testValue, a.delta, s.counters[a.trigger.counter.id].value)
      case Some(v) => a.(trigger := a.trigger.(testValue := v))
      case None => a.(state := Inactive)
  }

  /** The notification carries the new state but the old test value. */
  function AlarmEvent(s: State, id: nat, state: AlarmState): Event
    requires Firable(s) && id in s.alarms
  {
    var t := s.alarms[id].trigger;
    AlarmNotify(id, if t.counter.On? then s.counters[t.counter.id].value else 0, t.testValue, state)
  }

  /** SyncAlarmTriggerFired. */
  function AlarmFired(s: State, id: nat): State
    requires Firable(s) && id in s.alarms
    requires s.alarms[id].trigger.testType.Comparison() ==> Triggered(s, OfAlarm(id), 0)
  {
    if s.alarms[id].state != Active then s
    else
      var a := AlarmAfter(s, id);
      s.(alarms := s.alarms[id := a], log := s.log + [AlarmEvent(s, id, a.state)])
  }

  /** SyncAlarmCounterDestroyed. */
  function AlarmOrphaned(s: State, id: nat): State
    requires Firable(s) && id in s.alarms
  {
    var a := s.alarms[id];
    s.(alarms := s.alarms[id := a.(trigger := a.trigger.(counter := NoCounter), state := Inactive)],
       log := s.log + [AlarmEvent(s, id, Inactive)])
  }

  // ---------- Awaits ----------

  /** A CounterNotify is due for this condition. */
  predicate Due(s: State, cond: Condition)
    requires cond.trigger.counter.On? && cond.trigger.counter.id in s.counters
  {
    var c := s.counters[cond.trigger.counter.id];
    var diff := c.value - cond.trigger.testValue;
    c.beingDestroyed ||
    (IsInt64(diff) &&
     match cond.trigger.testType
     case PositiveComparison | PositiveTransition => diff >= cond.threshold
     case NegativeComparison | NegativeTransition => diff <= cond.threshold)
  }

  /** The conditions for which events are due, in order. */
  function DueOf(s: State, conds: seq<Condition>): (due: seq<Condition>)
    requires forall i | 0 <= i < |conds| :: conds[i].trigger.counter.On? && conds[i].trigger.counter.id in s.counters
    ensures forall i | 0 <= i < |due| :: due[i] in conds && due[i].trigger.counter.On? && due[i].trigger.counter.id in s.counters
  {
    if conds == [] then []
    else DueOf(s, conds[..|conds| - 1]) + if Due(s, conds[|conds| - 1]) then [conds[|conds| - 1]] else []
  }

  /** SyncSendCounterNotifyEvents: contiguous events, each with the number that still follow. */
  function CounterEvents(s: State, client: nat, due: seq<Condition>): (events: seq<Event>)
    requires forall i | 0 <= i < |due| :: due[i].trigger.counter.On? && due[i].trigger.counter.id in s.counters
    ensures forall e | e in events :: e.CounterNotify?
  {
    seq(|due|, i requires 0 <= i < |due| =>
      var t := due[i].trigger;
      CounterNotify(client, t.counter.id, t.testValue, s.counters[t.counter.id].value, |due| - i - 1,
                    s.counters[t.counter.id].beingDestroyed))
  }

  /** All lists but those of counters being destroyed, without the conditions of await `id`. */
  function StripAll(counters: map<nat, Counter>, id: nat): map<nat, Counter> {
    map c | c in counters :: if counters[c].beingDestroyed then counters[c]
                             else counters[c].(triglist := Strip(counters[c].triglist, id))
  }

  /** SyncAwaitTriggerFired: the client gets its events, is released, and the await is gone. */
  function AwaitFired(s: State, id: nat): State
    requires Firable(s) && id in s.awaits
  {
    var client := s.awaits[id].client;
    State(StripAll(s.counters, id), s.alarms, s.awaits - {id}, s.ignored - {client},
          s.log + CounterEvents(s, client, DueOf(s, s.awaits[id].conds)) + [AttendClient(client)])
  }

  // ---------- Changing a counter ----------

  /** TriggerFired of alarm and await triggers. */
  function Fire(s: State, ref: TriggerRef): (s': State)
    requires Firable(s) && Exists(s, ref)
    requires TriggerOf(s, ref).testType.Comparison() ==> Triggered(s, ref, 0)
    ensures Firable(s')
  {
    match ref
    case OfAlarm(id) => AlarmFired(s, id)
    case OfAwait(id, _) => AwaitFired(s, id)
  }

  /** The loop of SyncChangeCounter over the trigger list. */
  function FireAll(s: State, list: seq<TriggerRef>, oldval: int): State
    requires Firable(s)
    decreases |list|
  {
    if list == [] then s
    else if Exists(s, list[0]) && Triggered(s, list[0], oldval) then FireAll(Fire(s, list[0]), list[1..], oldval)
    else FireAll(s, list[1..], oldval)
  }

  function WithValue(s: State, c: nat, value: int): State
    requires c in s.counters
  {
    s.(counters := s.counters[c := s.counters[c].(value := value)])
  }

  /** SyncChangeCounter. */
  function CounterChanged(s: State, c: nat, value: int): State
    requires Firable(s) && c in s.counters
  {
    FireAll(WithValue(s, c, value), s.counters[c].triglist, s.counters[c].value)
  }

  // ---------- What firing keeps ----------

  lemma FirableNow(s: State)
    requires Registered(s) && AlarmsOk(s)
    ensures Firable(s)
  {
    forall id | id in s.alarms
      ensures s.alarms[id].trigger.counter.On? ==> s.alarms[id].trigger.counter.id in s.counters
    {
      assert Exists(s, OfAlarm(id));
    }
    forall id, i: nat | id in s.awaits && i < |s.awaits[id].conds|
      ensures s.awaits[id].conds[i].trigger.counter.On? && s.awaits[id].conds[i].trigger.counter.id in s.counters
    {
      assert Exists(s, OfAwait(id, i));
      assert AwaitOk(s.awaits[id].conds);
    }
  }

  /** Only the test value and the state of one alarm differ. */
  lemma AlarmFiredKeepsLists(s: State, id: nat)
    requires Firable(s) && id in s.alarms
    requires s.alarms[id].trigger.testType.Comparison() ==> Triggered(s, OfAlarm(id), 0)
    requires Registered(s)
    ensures Registered(AlarmFired(s, id))
  {
    hide Advanced, AlarmEvent, Holds;
    var s' := AlarmFired(s, id);
    assert forall ref :: Exists(s', ref) <==> Exists(s, ref);
    assert forall ref | Exists(s, ref) :: TriggerOf(s', ref).counter == TriggerOf(s, ref).counter;
    assert s'.counters == s.counters;
    forall ref | Exists(s', ref)
      ensures OnList(s', ref)
    {
      assert OnList(s, ref);
    }
    forall c | c in s'.counters
      ensures ListOk(s', c, s'.counters[c].triglist)
    {
      assert ListOk(s, c, s.counters[c].triglist);
    }
  }

  /** Going off leaves an alarm Inactive or with a trigger that is false, and touches no other trigger. */
  lemma AlarmFiredSettles(s: State, id: nat)
    requires Firable(s) && id in s.alarms
    requires s.alarms[id].trigger.testType.Comparison() ==> Triggered(s, OfAlarm(id), 0)
    ensures var s' := AlarmFired(s, id);
            && Settled(s', OfAlarm(id))
            && forall ref | Exists(s, ref) && ref != OfAlarm(id) :: Exists(s', ref) && Settled(s', ref) == Settled(s, ref)
  {
    var a := s.alarms[id];
    var t := a.trigger;
    if a.state == Active && t.counter.On? && t.testType.Comparison() && a.delta != 0 {
      var value := s.counters[t.counter.id].value;
      DeltasAreLeast(t.testType, t.testValue, a.delta, value, Deltas(t.testType, t.testValue, a.delta, value));
    }
  }

  /** A new test value that is in range is one. */
  lemma AlarmFiredKeepsAlarms(s: State, id: nat)
    requires Firable(s) && id in s.alarms
    requires s.alarms[id].trigger.testType.Comparison() ==> Triggered(s, OfAlarm(id), 0)
    requires AlarmsOk(s)
    ensures AlarmsOk(AlarmFired(s, id))
  {}

  lemma AlarmFiredKeepsClients(s: State, id: nat)
    requires Firable(s) && id in s.alarms
    requires s.alarms[id].trigger.testType.Comparison() ==> Triggered(s, OfAlarm(id), 0)
    requires Blocked(s) && ReleasedOnce(s)
    ensures Blocked(AlarmFired(s, id)) && ReleasedOnce(AlarmFired(s, id))
  {
    hide AlarmAfter, Triggered, Firable;
    var s' := AlarmFired(s, id);
    assert s'.awaits == s.awaits && s'.ignored == s.ignored;
    forall client: nat
      ensures multiset(s'.log)[IgnoreClient(client)] == multiset(s.log)[IgnoreClient(client)]
      ensures multiset(s'.log)[AttendClient(client)] == multiset(s.log)[AttendClient(client)]
    {}
  }

  /** All triggers but those of await `id` are on their lists, and no list that is being destroyed holds one of those. */
  ghost predicate ListedBut(s: State, id: nat) {
    && (forall ref | Exists(s, ref) && !(ref.OfAwait? && ref.id == id) :: OnList(s, ref))
    && (forall c, ref | c in s.counters && s.counters[c].beingDestroyed && ref in s.counters[c].triglist ::
          !(ref.OfAwait? && ref.id == id))
  }

  /** A fired await leaves no trigger on any list. */
  lemma AwaitFiredKeepsLists(s: State, id: nat)
    requires Firable(s) && id in s.awaits
    requires Lists(s) && ListedBut(s, id)
    ensures Lists(AwaitFired(s, id)) && Listed(AwaitFired(s, id))
    ensures forall c | c in s.counters ::
              c in AwaitFired(s, id).counters && AwaitFired(s, id).counters[c].beingDestroyed == s.counters[c].beingDestroyed
  {
    hide Due, Firable;
    var s' := AwaitFired(s, id);
    forall c | c in s'.counters
      ensures ListOk(s', c, s'.counters[c].triglist)
    {
      assert ListOk(s, c, s.counters[c].triglist);
      StripNoDup(s.counters[c].triglist, id);
      forall ref | ref in s'.counters[c].triglist
        ensures Exists(s', ref) && TriggerOf(s', ref).counter == On(c)
      {
        StripHolds(s.counters[c].triglist, id, ref);
      }
    }
    forall ref | Exists(s', ref)
      ensures OnList(s', ref)
    {
      assert Exists(s, ref) && OnList(s, ref) && TriggerOf(s', ref) == TriggerOf(s, ref);
      if TriggerOf(s, ref).counter.On? {
        StripHolds(s.counters[TriggerOf(s, ref).counter.id].triglist, id, ref);
      }
    }
  }

  lemma AwaitFiredKeepsTriggers(s: State, id: nat)
    requires Firable(s) && id in s.awaits
    ensures forall ref | Exists(AwaitFired(s, id), ref) :: Exists(s, ref) && Settled(AwaitFired(s, id), ref) == Settled(s, ref)
    ensures AlarmsOk(s) ==> AlarmsOk(AwaitFired(s, id))
  {
    hide Due, DueOf, CounterEvents, Holds, Firable;
    var s' := AwaitFired(s, id);
    assert forall c | c in s.counters :: c in s'.counters && s'.counters[c].value == s.counters[c].value;
    forall ref | Exists(s', ref)
      ensures Exists(s, ref) && Settled(s', ref) == Settled(s, ref)
    {
      assert TriggerOf(s', ref) == TriggerOf(s, ref);
    }
  }

  /** Events of other kinds do not change who was released how often. */
  lemma LogCounts(log: seq<Event>, events: seq<Event>, me: nat, client: nat)
    requires forall e | e in events :: e.CounterNotify?
    ensures var log' := log + events + [AttendClient(me)];
            && multiset(log')[IgnoreClient(client)] == multiset(log)[IgnoreClient(client)]
            && multiset(log')[AttendClient(client)] == multiset(log)[AttendClient(client)] + if client == me then 1 else 0
  {
    assert IgnoreClient(client) !in events && AttendClient(client) !in events;
    assert multiset(log + events + [AttendClient(me)]) == multiset(log) + multiset(events) + multiset{AttendClient(me)};
  }

  /** A fired await releases its client. */
  lemma AwaitFiredUnblocks(s: State, id: nat)
    requires Firable(s) && id in s.awaits
    requires Blocked(s)
    ensures Blocked(AwaitFired(s, id))
    ensures var client := s.awaits[id].client;
            client in s.ignored && client !in AwaitFired(s, id).ignored && id !in AwaitFired(s, id).awaits
  {
    hide Due, DueOf, StripAll, CounterEvents, Firable;
    var s' := AwaitFired(s, id);
    forall client | client in s'.ignored
      ensures exists i :: i in s'.awaits && s'.awaits[i].client == client
    {
      var i :| i in s.awaits && s.awaits[i].client == client;
      assert i in s'.awaits;
    }
  }

  /** A fired await releases its client once. */
  lemma AwaitFiredReleasesOnce(s: State, id: nat)
    requires Firable(s) && id in s.awaits
    requires Blocked(s) && ReleasedOnce(s)
    ensures ReleasedOnce(AwaitFired(s, id))
  {
    hide Due, StripAll;
    var s', me := AwaitFired(s, id), s.awaits[id].client;
    var events := CounterEvents(s, me, DueOf(s, s.awaits[id].conds));
    assert me in s.ignored && s'.ignored == s.ignored - {me};
    hide Blocked;
    forall client: nat
      ensures multiset(s'.log)[IgnoreClient(client)] ==
              multiset(s'.log)[AttendClient(client)] + if client in s'.ignored then 1 else 0
    {
      LogCounts(s.log, events, me, client);
    }
  }

  /** Everything that holds between requests but for quiescence. */
  ghost predicate Sound(s: State) {
    Registered(s) && AlarmsOk(s) && Blocked(s) && ReleasedOnce(s)
  }

  lemma SoundIsFirable(s: State)
    requires Sound(s)
    ensures Firable(s)
  {
    FirableNow(s);
  }

  lemma AllListed(s: State, id: nat)
    requires Registered(s)
    ensures ListedBut(s, id)
  {}

  lemma FireKeepsSound(s: State, ref: TriggerRef)
    requires Firable(s) && Exists(s, ref)
    requires TriggerOf(s, ref).testType.Comparison() ==> Triggered(s, ref, 0)
    requires Sound(s)
    ensures Sound(Fire(s, ref))
  {
    hide Lists, Listed, Blocked, ReleasedOnce, AlarmsOk, Firable, Triggered;
    match ref
    case OfAlarm(id) =>
      AlarmFiredKeepsLists(s, id);
      AlarmFiredKeepsAlarms(s, id);
      AlarmFiredKeepsClients(s, id);
    case OfAwait(id, _) =>
      assert ListedBut(s, id) by { AllListed(s, id); }
      AwaitFiredKeepsLists(s, id);
      AwaitFiredKeepsTriggers(s, id);
      AwaitFiredUnblocks(s, id);
      AwaitFiredReleasesOnce(s, id);
  }

  lemma AlarmFiredTriggers(s: State, id: nat)
    requires Firable(s) && id in s.alarms
    requires s.alarms[id].trigger.testType.Comparison() ==> Triggered(s, OfAlarm(id), 0)
    ensures forall ref :: Exists(AlarmFired(s, id), ref) <==> Exists(s, ref)
  {
    hide AlarmAfter, AlarmEvent;
  }

  lemma AwaitGone(s: State, id: nat)
    requires Firable(s) && id in s.awaits
    ensures forall ref :: Exists(AwaitFired(s, id), ref) <==> Exists(s, ref) && !(ref.OfAwait? && ref.id == id)
  {
    hide Due, DueOf, StripAll, CounterEvents, Firable;
  }

  lemma FireSettles(s: State, ref: TriggerRef, rest: seq<TriggerRef>)
    requires Firable(s) && Exists(s, ref)
    requires TriggerOf(s, ref).testType.Comparison() ==> Triggered(s, ref, 0)
    requires QuietBut(s, [ref] + rest)
    ensures QuietBut(Fire(s, ref), rest)
  {
    hide Settled, Firable, Triggered, AwaitFired, AlarmFired;
    match ref
    case OfAlarm(id) =>
      AlarmFiredSettles(s, id);
      AlarmFiredTriggers(s, id);
    case OfAwait(id, _) =>
      AwaitFiredKeepsTriggers(s, id);
      AwaitGone(s, id);
  }

  /** A trigger that is false is settled. */
  lemma FalseIsSettled(s: State, ref: TriggerRef, oldval: int)
    requires Exists(s, ref) && !Triggered(s, ref, oldval)
    ensures Settled(s, ref)
  {}

  lemma ComparisonIgnoresOld(s: State, ref: TriggerRef, oldval: int, other: int)
    requires Firable(s) && Exists(s, ref) && Triggered(s, ref, oldval)
    ensures TriggerOf(s, ref).testType.Comparison() ==> Triggered(s, ref, other)
  {}

  /** Checking every trigger of a list keeps all invariants and leaves none of them true. */
  lemma {:induction false} FireAllKeeps(s: State, list: seq<TriggerRef>, oldval: int)
    requires Firable(s) && Sound(s) && QuietBut(s, list)
    ensures Sound(FireAll(s, list, oldval)) && QuietBut(FireAll(s, list, oldval), [])
    decreases |list|
  {
    hide Sound, Firable, Settled, Fire;
    if list != [] {
      var ref, rest := list[0], list[1..];
      assert list == [ref] + rest;
      if Exists(s, ref) && Triggered(s, ref, oldval) {
        ComparisonIgnoresOld(s, ref, oldval, 0);
        FireKeepsSound(s, ref);
        FireSettles(s, ref, rest);
        FireAllKeeps(Fire(s, ref), rest, oldval);
      } else {
        if Exists(s, ref) {
          FalseIsSettled(s, ref, oldval);
        }
        FireAllKeeps(s, rest, oldval);
      }
    }
  }

  /** Moving a counter can only make triggers on its own list true. */
  lemma WithValueKeeps(s: State, c: nat, value: int)
    requires Inv(s) && c in s.counters && IsInt64(value)
    ensures Sound(WithValue(s, c, value)) && QuietBut(WithValue(s, c, value), s.counters[c].triglist)
  {
    var s' := WithValue(s, c, value);
    assert forall ref :: Exists(s', ref) <==> Exists(s, ref);
    assert forall ref | Exists(s, ref) :: TriggerOf(s', ref) == TriggerOf(s, ref);
    assert Registered(s') by {
      hide Settled, Blocked, ReleasedOnce, AlarmsOk;
      forall ref | Exists(s', ref)
        ensures OnList(s', ref)
      {
        assert OnList(s, ref);
      }
      forall d | d in s'.counters
        ensures ListOk(s', d, s'.counters[d].triglist)
      {
        assert ListOk(s, d, s.counters[d].triglist);
      }
    }
    forall ref | Exists(s', ref) && ref !in s.counters[c].triglist
      ensures Settled(s', ref)
    {
      assert OnList(s, ref) && Settled(s, ref);
    }
  }

  lemma SoundQuiet(s: State)
    requires Sound(s) && QuietBut(s, [])
    ensures Inv(s)
  {}

  /** Changing a counter keeps every invariant, quiescence among them. */
  lemma CounterChangedKeeps(s: State, c: nat, value: int)
    requires Firable(s) && Inv(s) && c in s.counters && IsInt64(value)
    ensures Inv(CounterChanged(s, c, value))
  {
    WithValueKeeps(s, c, value);
    hide Sound, QuietBut, FireAll;
    SoundIsFirable(WithValue(s, c, value));
    FireAllKeeps(WithValue(s, c, value), s.counters[c].triglist, s.counters[c].value);
    SoundQuiet(CounterChanged(s, c, value));
  }
}
