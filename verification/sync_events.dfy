/** What the clients of the SYNC extension get to see: which events are sent, and what the requests mean for when. */
module SyncEvents {
  import opened SyncModel
  import opened SyncSteps
  import opened SyncRequests
  import opened SyncDestroy
  import opened SyncRuns

  // ---------- One alarm ----------

  /** The trigger of the alarm would still be true after `k` deltas. */
  predicate StillTrue(a: Alarm, value: int, k: nat) {
    match a.trigger.check
    case PositiveComparison => value >= a.trigger.testValue + k * a.delta
    case NegativeComparison => value <= a.trigger.testValue + k * a.delta
    case _ => false
  }

  ghost predicate FirstFalse(a: Alarm, value: int, k: nat) {
    k >= 1 && !StillTrue(a, value, k) && forall j: nat | 1 <= j < k :: StillTrue(a, value, j)
  }

  /** The alarm has no counter, or its delta leads nowhere. */
  predicate Stuck(a: Alarm) {
    || a.trigger.counter.NoCounter?
    || (a.delta == 0 && (a.trigger.testType == PositiveComparison || a.trigger.testType == NegativeComparison))
  }

  /**
    * An alarm that goes off advances by the first number of deltas that makes it false. It becomes Inactive, and
    * keeps its test value, if it is stuck or if that is no INT64.
    */
  ghost predicate Advances(a: Alarm, value: int, a': Alarm) {
    if a'.state == Active then
      !Stuck(a) && exists k: nat ::
        FirstFalse(a, value, k) && IsInt64(a.trigger.testValue + k * a.delta)
        && a' == a.(trigger := a.trigger.(testValue := a.trigger.testValue + k * a.delta))
    else
      && a' == a.(state := Inactive)
      && (Stuck(a) || forall k: nat | FirstFalse(a, value, k) :: !IsInt64(a.trigger.testValue + k * a.delta))
  }

  /**
    * What the firing of alarm `id` changes. An Active alarm sends one event, with the value of its counter, the test
    * value that it had and the state that it has now.
    */
  ghost predicate WentOff(s: State, s': State, id: nat)
    requires id in s.alarms
  {
    && id in s'.alarms && s' == s.(alarms := s.alarms[id := s'.alarms[id]], log := s'.log)
    && var a, a' := s.alarms[id], s'.alarms[id];
       if a.state != Active then a' == a && s'.log == s.log
       else
         && (a.trigger.counter.On? ==> a.trigger.counter.id in s.counters)
         && var value := if a.trigger.counter.On? then s.counters[a.trigger.counter.id].value else 0;
            Advances(a, value, a') && s'.log == s.log + [AlarmNotify(id, value, a.trigger.testValue, a'.state)]
  }

  lemma OneDelta(a: Alarm, value: int)
    requires AlarmOk(a) && !Stuck(a)
    requires a.trigger.check.Comparison() ==> Holds(a.trigger.check, a.trigger.testValue, a.trigger.testValue, value)
    ensures Deltas(a.trigger.testType, a.trigger.testValue, a.delta, value) >= 1
  {}

  lemma FirstFalseIs(a: Alarm, value: int)
    requires AlarmOk(a) && !Stuck(a)
    requires a.trigger.check.Comparison() ==> Holds(a.trigger.check, a.trigger.testValue, a.trigger.testValue, value)
    ensures forall k: nat :: FirstFalse(a, value, k) <==> k == Deltas(a.trigger.testType, a.trigger.testValue, a.delta, value)
  {
    var t := a.trigger;
    var last := Deltas(t.testType, t.testValue, a.delta, value);
    forall k: nat
      ensures StillTrue(a, value, k) <==> t.testType.Comparison() && k < last
    {
      if t.testType.Comparison() {
        DeltasAreLeast(t.testType, t.testValue, a.delta, value, k);
      }
    }
    hide StillTrue, Deltas, Stuck, AlarmOk;
    assert last >= 1 by { OneDelta(a, value); }
    forall k: nat
      ensures FirstFalse(a, value, k) <==> k == last
    {
      if k > last && last >= 1 {
        assert !StillTrue(a, value, last);
      }
    }
  }

  lemma AdvancesIs(s: State, id: nat)
    requires Firable(s) && id in s.alarms
    requires s.alarms[id].trigger.testType.Comparison() ==> Triggered(s, OfAlarm(id), 0)
    requires s.alarms[id].state == Active
    ensures var a := s.alarms[id];
            Advances(a, if a.trigger.counter.On? then s.counters[a.trigger.counter.id].value else 0, AlarmAfter(s, id))
  {
    var a := s.alarms[id];
    if !Stuck(a) {
      var value := s.counters[a.trigger.counter.id].value;
      FirstFalseIs(a, value);
      hide FirstFalse, Deltas;
      var k := Deltas(a.trigger.testType, a.trigger.testValue, a.delta, value);
      assert FirstFalse(a, value, k);
    }
  }

  /** Firing an alarm does that. */
  lemma AlarmFiredMeans(s: State, id: nat)
    requires Firable(s) && id in s.alarms
    requires s.alarms[id].trigger.testType.Comparison() ==> Triggered(s, OfAlarm(id), 0)
    ensures WentOff(s, AlarmFired(s, id), id)
  {
    if s.alarms[id].state == Active {
      AdvancesIs(s, id);
      hide Advances;
    } else {
      assert s.alarms[id := s.alarms[id]] == s.alarms;
    }
  }

  // ---------- One await ----------

  /** The difference is at least, or at most, the threshold; it counts only if it is an INT64. */
  predicate DueNow(c: Counter, cond: Condition) {
    || c.beingDestroyed
    || (IsInt64(c.value - cond.trigger.testValue) &&
        if cond.trigger.testType == PositiveComparison || cond.trigger.testType == PositiveTransition
        then c.value >= cond.trigger.testValue + cond.threshold
        else c.value <= cond.trigger.testValue + cond.threshold)
  }

  predicate Increasing(at: seq<nat>) {
    forall i, j | 0 <= i < j < |at| :: at[i] < at[j]
  }

  ghost predicate DueAt(counters: map<nat, Counter>, conds: seq<Condition>, i: nat)
    requires i < |conds|
  {
    var t := conds[i].trigger;
    t.counter.On? && t.counter.id in counters && DueNow(counters[t.counter.id], conds[i])
  }

  /** The notifications are those of the due conditions, in order, each with the number of those that still follow. */
  ghost predicate NotesOf(counters: map<nat, Counter>, a: Await, at: seq<nat>, notes: seq<Event>) {
    && |at| == |notes| && Increasing(at)
    && (forall i | i in at :: i < |a.conds| && DueAt(counters, a.conds, i))
    && (forall i: nat | i < |a.conds| && DueAt(counters, a.conds, i) :: i in at)
    && forall j | 0 <= j < |at| ::
         at[j] < |a.conds| && DueAt(counters, a.conds, at[j]) &&
         var t := a.conds[at[j]].trigger;
         var c := counters[t.counter.id];
         notes[j] == CounterNotify(a.client, t.counter.id, t.testValue, c.value, |notes| - 1 - j, c.beingDestroyed)
  }

  /** The conditions of await `id` have left all lists but those of counters that are being destroyed. */
  ghost predicate OffLists(before: map<nat, Counter>, after: map<nat, Counter>, id: nat) {
    && after.Keys == before.Keys
    && (forall c | c in before :: after[c] == before[c].(triglist := after[c].triglist))
    && forall c, ref | c in before ::
         ref in after[c].triglist <==>
         ref in before[c].triglist && (before[c].beingDestroyed || !(ref.OfAwait? && ref.id == id))
  }

  /** Its client gets the notifications, and is attended to. */
  ghost predicate Told(s: State, a: Await, log: seq<Event>) {
    exists at: seq<nat>, notes: seq<Event> ::
      NotesOf(s.counters, a, at, notes) && log == s.log + notes + [AttendClient(a.client)]
  }

  /** What the firing of await `id` changes. */
  ghost predicate Unblocked(s: State, s': State, id: nat)
    requires id in s.awaits
  {
    && s'.alarms == s.alarms && s'.awaits == s.awaits - {id} && s'.ignored == s.ignored - {s.awaits[id].client}
    && OffLists(s.counters, s'.counters, id) && Told(s, s.awaits[id], s'.log)
  }

  /** The places of the due conditions. */
  ghost function DuePlaces(counters: map<nat, Counter>, conds: seq<Condition>): (at: seq<nat>)
    ensures forall i | i in at :: i < |conds|
  {
    if conds == [] then []
    else DuePlaces(counters, conds[..|conds| - 1]) + if DueAt(counters, conds, |conds| - 1) then [|conds| - 1] else []
  }

  /** `at` are the places of the due conditions, and `due` these. */
  ghost predicate PlacesOf(counters: map<nat, Counter>, conds: seq<Condition>, at: seq<nat>, due: seq<Condition>) {
    && |at| == |due| && Increasing(at)
    && (forall j | 0 <= j < |at| :: at[j] < |conds| && due[j] == conds[at[j]] && DueAt(counters, conds, at[j]))
    && (forall i: nat | i < |conds| && DueAt(counters, conds, i) :: i in at)
  }

  lemma OneMorePlace(counters: map<nat, Counter>, conds: seq<Condition>, at: seq<nat>, due: seq<Condition>)
    requires conds != [] && PlacesOf(counters, conds[..|conds| - 1], at, due)
    ensures var n := |conds| - 1;
            if DueAt(counters, conds, n) then PlacesOf(counters, conds, at + [n], due + [conds[n]]) else PlacesOf(counters, conds, at, due)
  {
    var n, rest := |conds| - 1, conds[..|conds| - 1];
    assert forall i: nat | i < n :: rest[i] == conds[i];
    assert forall i: nat | i < n :: DueAt(counters, conds, i) == DueAt(counters, rest, i);
    hide DueAt;
  }

  lemma {:induction false} DuePlacesAre(s: State, conds: seq<Condition>)
    requires forall i | 0 <= i < |conds| :: conds[i].trigger.counter.On? && conds[i].trigger.counter.id in s.counters
    ensures PlacesOf(s.counters, conds, DuePlaces(s.counters, conds), DueOf(s, conds))
  {
    if conds != [] {
      var n, rest := |conds| - 1, conds[..|conds| - 1];
      assert Due(s, conds[n]) == DueAt(s.counters, conds, n);
      hide DueAt, Due, PlacesOf;
      DuePlacesAre(s, rest);
      OneMorePlace(s.counters, conds, DuePlaces(s.counters, rest), DueOf(s, rest));
      assert DuePlaces(s.counters, rest) + [] == DuePlaces(s.counters, rest) && DueOf(s, rest) + [] == DueOf(s, rest);
    }
  }

  lemma NotesAre(s: State, id: nat)
    requires Firable(s) && id in s.awaits
    ensures var a := s.awaits[id];
            NotesOf(s.counters, a, DuePlaces(s.counters, a.conds), CounterEvents(s, a.client, DueOf(s, a.conds)))
  {
    DuePlacesAre(s, s.awaits[id].conds);
    hide DueOf, DuePlaces, DueNow, Increasing, Firable;
  }

  lemma ListsStripped(counters: map<nat, Counter>, id: nat)
    ensures OffLists(counters, StripAll(counters, id), id)
  {
    forall c, ref | c in counters
      ensures ref in Strip(counters[c].triglist, id) <==> ref in counters[c].triglist && !(ref.OfAwait? && ref.id == id)
    {
      StripHolds(counters[c].triglist, id, ref);
    }
  }

  /** Firing an await does that. */
  lemma AwaitFiredMeans(s: State, id: nat)
    requires Firable(s) && id in s.awaits
    ensures Unblocked(s, AwaitFired(s, id), id)
  {
    ListsStripped(s.counters, id);
    NotesAre(s, id);
    var a, s' := s.awaits[id], AwaitFired(s, id);
    hide NotesOf, CounterEvents, DueOf, DuePlaces, StripAll, Firable, OffLists;
    assert Told(s, a, s'.log);
  }

  // ---------- One change of a counter ----------

  /** How many events of alarm `id` have been sent. */
  function Heard(log: seq<Event>, id: nat): nat {
    if log == [] then 0
    else Heard(log[..|log| - 1], id) + if log[|log| - 1].AlarmNotify? && log[|log| - 1].alarm == id then 1 else 0
  }

  lemma {:induction false} HeardBoth(a: seq<Event>, b: seq<Event>, id: nat)
    ensures Heard(a + b, id) == Heard(a, id) + Heard(b, id)
  {
    if b == [] {
      assert a + b == a;
    } else {
      assert (a + b)[..|a + b| - 1] == a + b[..|b| - 1];
      HeardBoth(a, b[..|b| - 1], id);
    }
  }

  lemma {:induction false} NotHeard(log: seq<Event>, id: nat)
    requires forall e | e in log :: !(e.AlarmNotify? && e.alarm == id)
    ensures Heard(log, id) == 0
  {
    if log != [] {
      NotHeard(log[..|log| - 1], id);
    }
  }

  /** Whether alarm `id` sends an event when trigger `ref` is looked at. */
  predicate Sends(s: State, ref: TriggerRef, oldval: int, id: nat) {
    ref == OfAlarm(id) && id in s.alarms && s.alarms[id].state == Active && Triggered(s, ref, oldval)
  }

  lemma AfterIsHeard(s: State, ref: TriggerRef, oldval: int, id: nat)
    requires Firable(s) && Exists(s, ref)
    ensures Heard(After(s, ref, oldval).log, id) == Heard(s.log, id) + if Sends(s, ref, oldval, id) then 1 else 0
    ensures s.log <= After(s, ref, oldval).log
  {
    if Triggered(s, ref, oldval) {
      ComparisonIgnoresOld(s, ref, oldval, 0);
      match ref {
        case OfAlarm(i) =>
          AlarmFiredMeans(s, i);
          hide Advances;
          if s.alarms[i].state == Active {
            var e := AlarmFired(s, i).log[|s.log|];
            HeardBoth(s.log, [e], id);
            assert [e][..0] == [];
          }
        case OfAwait(i, _) =>
          var notes := CounterEvents(s, s.awaits[i].client, DueOf(s, s.awaits[i].conds));
          var client := s.awaits[i].client;
          assert AwaitFired(s, i).log == s.log + (notes + [AttendClient(client)]);
          NotHeard(notes + [AttendClient(client)], id);
          HeardBoth(s.log, notes + [AttendClient(client)], id);
      }
    }
  }

  lemma OnlyOnce(list: seq<TriggerRef>, id: nat)
    requires OncePerAwait(list) && list != []
    ensures OfAlarm(id) in list <==> list[0] == OfAlarm(id) || OfAlarm(id) in list[1..]
    ensures list[0] == OfAlarm(id) ==> OfAlarm(id) !in list[1..]
  {
    assert list == [list[0]] + list[1..];
    OnceOnly(list);
  }

  /** The event of alarm `id`, as things are in state `s`, announcing `state`. */
  function EventWith(s: State, id: nat, state: AlarmState): Event
    requires id in s.alarms
  {
    var t := s.alarms[id].trigger;
    AlarmNotify(id, if t.counter.On? && t.counter.id in s.counters then s.counters[t.counter.id].value else 0, t.testValue, state)
  }

  lemma Looked(s: State, ref: TriggerRef, oldval: int, id: nat)
    requires Firable(s) && Exists(s, ref) && id in s.alarms
    ensures var s1 := After(s, ref, oldval);
            && id in s1.alarms
            && if ref == OfAlarm(id) then
                 Sends(s, ref, oldval, id) ==> s1.log == s.log + [EventWith(s, id, s1.alarms[id].state)]
               else
                 && !Sends(s, ref, oldval, id) && s1.alarms[id] == s.alarms[id]
                 && Sends(s1, OfAlarm(id), oldval, id) == Sends(s, OfAlarm(id), oldval, id)
  {
    if ref == OfAlarm(id) {
      if Triggered(s, ref, oldval) {
        ComparisonIgnoresOld(s, ref, oldval, 0);
        AlarmFiredMeans(s, id);
        hide Advances;
      }
    } else {
      AfterFrame(s, ref, OfAlarm(id), oldval);
    }
  }

  /** One walk over a trigger list: each Active alarm of the list that was true sends one event, and no other alarm any. */
  lemma {:induction false} OneEventEach(s: State, list: seq<TriggerRef>, oldval: int, id: nat)
    requires Walkable(s, list) && id in s.alarms
    ensures Heard(FireAll(s, list, oldval).log, id)
            == Heard(s.log, id) + if OfAlarm(id) in list && Sends(s, OfAlarm(id), oldval, id) then 1 else 0
    ensures s.log <= FireAll(s, list, oldval).log
    decreases |list|
  {
    if list != [] {
      var ref, rest := list[0], list[1..];
      var s1 := After(s, ref, oldval);
      WalkOn(s, list, oldval);
      OnlyOnce(list, id);
      assert ref in list;
      Looked(s, ref, oldval, id);
      hide FireAll, Sends, Firable, Triggered, Fire, OncePerAwait;
      AfterIsHeard(s, ref, oldval, id);
      OneEventEach(s1, rest, oldval, id);
    }
  }

  lemma SameEvent(s: State, s1: State, id: nat, state: AlarmState)
    requires SameValues(s, s1) && id in s.alarms && id in s1.alarms && s1.alarms[id] == s.alarms[id]
    ensures EventWith(s1, id, state) == EventWith(s, id, state)
  {}

  /** It announces the state that the alarm has after the walk. */
  lemma {:induction false} EventIsSent(s: State, list: seq<TriggerRef>, oldval: int, id: nat)
    requires Walkable(s, list) && id in s.alarms && OfAlarm(id) in list && Sends(s, OfAlarm(id), oldval, id)
    ensures var s' := FireAll(s, list, oldval);
            && s.log <= s'.log && id in s'.alarms
            && EventWith(s, id, s'.alarms[id].state) in s'.log[|s.log|..]
    decreases |list|
  {
    var ref, rest := list[0], list[1..];
    var s1, s' := After(s, ref, oldval), FireAll(s, list, oldval);
    WalkOn(s, list, oldval);
    OnlyOnce(list, id);
    assert ref in list;
    Looked(s, ref, oldval, id);
    AfterIsHeard(s, ref, oldval, id);
    hide FireAll, Sends, Firable, Triggered, Fire, OncePerAwait, EventWith;
    OneEventEach(s1, rest, oldval, id);
    if ref == OfAlarm(id) {
      AlarmsFireExactly(s1, rest, oldval, id);
      assert s'.log[|s.log|] == EventWith(s, id, s1.alarms[id].state);
    } else {
      EventIsSent(s1, rest, oldval, id);
      SameEvent(s, s1, id, s'.alarms[id].state);
      assert forall e | e in s'.log[|s1.log|..] :: e in s'.log[|s.log|..];
    }
  }

  /** The test of the trigger, when its counter goes from one value to another. */
  predicate Meets(t: Trigger, oldval: int, value: int) {
    match t.testType
    case PositiveComparison => t.testValue <= value
    case NegativeComparison => value <= t.testValue
    case PositiveTransition => oldval < t.testValue && t.testValue <= value
    case NegativeTransition => value <= t.testValue && t.testValue < oldval
  }

  /** An alarm reacts to a change of counter `c` if it is Active, watches it, and its test is met. */
  predicate GoesOff(s: State, c: nat, value: int, id: nat)
    requires c in s.counters && id in s.alarms
  {
    var a := s.alarms[id];
    a.state == Active && a.trigger.counter == On(c) && Meets(a.trigger, s.counters[c].value, value)
  }

  /** Then it advances and sends one event, with the new value, its old test value and its new state; else nothing happens to it. */
  ghost predicate AlarmReacts(s: State, s': State, c: nat, value: int, id: nat)
    requires c in s.counters && id in s.alarms
  {
    && id in s'.alarms && s.log <= s'.log
    && var a, a' := s.alarms[id], s'.alarms[id];
       if GoesOff(s, c, value, id) then
         && Advances(a, value, a')
         && Heard(s'.log, id) == Heard(s.log, id) + 1
         && AlarmNotify(id, value, a.trigger.testValue, a'.state) in s'.log[|s.log|..]
       else a' == a && Heard(s'.log, id) == Heard(s.log, id)
  }

  /** An await is gone exactly if the test of one of its conditions on counter `c` is met. */
  ghost predicate AwaitReacts(s: State, s': State, c: nat, value: int, id: nat)
    requires c in s.counters && id in s.awaits
  {
    var conds := s.awaits[id].conds;
    id in s'.awaits <==>
    forall k: nat | k < |conds| && conds[k].trigger.counter == On(c) :: !Meets(conds[k].trigger, s.counters[c].value, value)
  }

  /** What a change of counter `c` to `value` does. */
  ghost predicate Reacts(s: State, s': State, c: nat, value: int)
    requires c in s.counters
  {
    && s'.counters.Keys == s.counters.Keys
    && (forall d | d in s.counters :: s'.counters[d].value == if d == c then value else s.counters[d].value)
    && (forall id | id in s.alarms :: AlarmReacts(s, s', c, value, id))
    && (forall id | id in s.awaits :: AwaitReacts(s, s', c, value, id))
  }

  lemma ListIs(s: State, c: nat, ref: TriggerRef)
    requires Inv(s) && c in s.counters
    ensures ref in s.counters[c].triglist <==> Exists(s, ref) && TriggerOf(s, ref).counter == On(c)
    ensures Exists(s, ref) ==> InStep(TriggerOf(s, ref))
  {
    assert ListOk(s, c, s.counters[c].triglist);
    if Exists(s, ref) {
      assert OnList(s, ref);
      match ref
      case OfAlarm(id) => assert AlarmOk(s.alarms[id]);
      case OfAwait(id, k) => assert AwaitOk(s.awaits[id].conds);
    }
  }

  lemma TriggeredMeans(s: State, c: nat, value: int, ref: TriggerRef)
    requires Inv(s) && c in s.counters && Exists(s, ref) && TriggerOf(s, ref).counter == On(c)
    ensures var t := WithValue(s, c, value);
            Exists(t, ref) && (Triggered(t, ref, s.counters[c].value) <==> Meets(TriggerOf(s, ref), s.counters[c].value, value))
  {
    ListIs(s, c, ref);
  }

  lemma AlarmDoes(s: State, c: nat, value: int, id: nat)
    requires Inv(s) && Firable(s) && c in s.counters && IsInt64(value) && id in s.alarms
    ensures AlarmReacts(s, CounterChanged(s, c, value), c, value, id)
  {
    var t, list, oldval, me := WithValue(s, c, value), s.counters[c].triglist, s.counters[c].value, OfAlarm(id);
    ListsAreWalkable(s, c, value);
    ListIs(s, c, me);
    AlarmsFireExactly(t, list, oldval, id);
    OneEventEach(t, list, oldval, id);
    var goes := me in list && Sends(t, me, oldval, id);
    assert goes <==> GoesOff(s, c, value, id) by {
      if s.alarms[id].trigger.counter == On(c) {
        TriggeredMeans(s, c, value, me);
      }
    }
    if me in list && Triggered(t, me, oldval) {
      ComparisonIgnoresOld(t, me, oldval, 0);
      AlarmFiredMeans(t, id);
    }
    if goes {
      EventIsSent(t, list, oldval, id);
    }
    hide Inv, FireAll, Triggered, Advances, Heard, Meets, Walkable, Firable;
  }

  lemma AwaitDoes(s: State, c: nat, value: int, id: nat)
    requires Inv(s) && Firable(s) && c in s.counters && IsInt64(value) && id in s.awaits
    ensures AwaitReacts(s, CounterChanged(s, c, value), c, value, id)
  {
    var t, list, oldval := WithValue(s, c, value), s.counters[c].triglist, s.counters[c].value;
    var conds := s.awaits[id].conds;
    ListsAreWalkable(s, c, value);
    AwaitsFireExactly(t, list, oldval, id);
    forall k: nat | k < |conds|
      ensures OfAwait(id, k) in list <==> conds[k].trigger.counter == On(c)
      ensures OfAwait(id, k) in list ==> (Triggered(t, OfAwait(id, k), oldval) <==> Meets(conds[k].trigger, oldval, value))
    {
      ListIs(s, c, OfAwait(id, k));
      if conds[k].trigger.counter == On(c) {
        TriggeredMeans(s, c, value, OfAwait(id, k));
      }
    }
    forall ref | ref in list && ref.OfAwait? && ref.id == id
      ensures ref.k < |conds| && ref == OfAwait(id, ref.k)
    {
      ListIs(s, c, ref);
    }
    hide Inv, FireAll, Triggered, Meets, Walkable, Firable;
  }

  lemma {:induction false} ValuesStay(s: State, list: seq<TriggerRef>, oldval: int)
    requires Walkable(s, list)
    ensures SameValues(s, FireAll(s, list, oldval))
    decreases |list|
  {
    if list != [] {
      WalkOn(s, list, oldval);
      hide FireAll, Walkable;
      ValuesStay(After(s, list[0], oldval), list[1..], oldval);
    }
  }

  /** Every change of a counter. */
  lemma ChangeReacts(s: State, c: nat, value: int)
    requires Inv(s) && Firable(s) && c in s.counters && IsInt64(value)
    ensures Reacts(s, CounterChanged(s, c, value), c, value)
  {
    ListsAreWalkable(s, c, value);
    ValuesStay(WithValue(s, c, value), s.counters[c].triglist, s.counters[c].value);
    var s' := CounterChanged(s, c, value);
    hide Inv, Firable, CounterChanged, AlarmReacts, AwaitReacts, Walkable;
    forall id | id in s.alarms
      ensures AlarmReacts(s, s', c, value, id)
    {
      AlarmDoes(s, c, value, id);
    }
    forall id | id in s.awaits
      ensures AwaitReacts(s, s', c, value, id)
    {
      AwaitDoes(s, c, value, id);
    }
  }

  // ---------- What the requests mean ----------

  /** A trigger that starts on a counter at `value` is true from the start; a transition never is. */
  predicate TrueAtOnce(valueType: ValueType, waitValue: int, testType: TestType, value: int) {
    match testType
    case PositiveComparison => waitValue <= if valueType == Relative then 0 else value
    case NegativeComparison => waitValue >= if valueType == Relative then 0 else value
    case _ => false
  }

  /** A trigger that was set up when its counter was at `start` becomes true as the counter goes from `oldval` to `value`. */
  predicate ComesTrue(valueType: ValueType, waitValue: int, testType: TestType, start: int, oldval: int, value: int) {
    var before, after := if valueType == Relative then oldval - start else oldval, if valueType == Relative then value - start else value;
    match testType
    case PositiveComparison => after >= waitValue
    case NegativeComparison => after <= waitValue
    case PositiveTransition => before < waitValue <= after
    case NegativeTransition => before > waitValue >= after
  }

  predicate SumFits(s: State, w: WaitCondition) {
    w.counter.On? && w.counter.id in s.counters
    && (w.valueType == Relative ==> IsInt64(s.counters[w.counter.id].value + w.waitValue))
  }

  /** The wait conditions that are accepted, and what becomes of them. */
  lemma ConditionMeans(s: State, w: WaitCondition)
    ensures ConditionOk(s, w) <==> SumFits(s, w)
    ensures ConditionOk(s, w) ==>
              ConditionFor(s, w) ==
              Condition(Trigger(w.counter, w.valueType, w.waitValue, w.testType,
                                if w.valueType == Relative then s.counters[w.counter.id].value + w.waitValue else w.waitValue,
                                w.testType), w.threshold)
  {}

  lemma WaitingConditions(s: State, client: nat, id: nat, ws: seq<WaitCondition>)
    requires Inv(s) && AwaitInScope(s, client, id, ws) && forall i | 0 <= i < |ws| :: ConditionOk(s, ws[i])
    ensures var b := Awaiting(s, client, id, ws);
            && b.awaits[id] == Await(client, ConditionsFor(s, ws)) && b.counters.Keys == s.counters.Keys
            && forall c | c in s.counters :: b.counters[c].value == s.counters[c].value
  {
    hide Inv, ConditionOk;
    AddConditionsFrame(s, id, client, ConditionsFor(s, ws));
  }

  /** Condition `i` is the first with an error: its counter is not known, or the sum is no INT64. */
  ghost predicate FaultAt(s: State, ws: seq<WaitCondition>, i: nat, status: Status) {
    && i < |ws| && !SumFits(s, ws[i]) && (forall j | 0 <= j < i :: SumFits(s, ws[j]))
    && status == if ws[i].counter.On? && ws[i].counter.id in s.counters then BadValue else BadCounter
  }

  /** The answer to an Await: the first condition with an error decides. */
  ghost predicate AwaitAnswer(s: State, ws: seq<WaitCondition>, status: Status) {
    if ws == [] then status == BadValue
    else if forall i | 0 <= i < |ws| :: SumFits(s, ws[i]) then status == Success
    else exists i: nat :: FaultAt(s, ws, i, status)
  }

  lemma FaultLater(s: State, ws: seq<WaitCondition>, i: nat, status: Status)
    requires ws != [] && SumFits(s, ws[0]) && FaultAt(s, ws[1..], i, status)
    ensures FaultAt(s, ws, i + 1, status)
  {
    hide SumFits;
    assert ws[i + 1] == ws[1..][i];
    forall j | 0 <= j < i + 1
      ensures SumFits(s, ws[j])
    {
      assert j > 0 ==> ws[j] == ws[1..][j - 1];
    }
  }

  lemma {:induction false} FirstFault(s: State, ws: seq<WaitCondition>, k: nat)
    requires k < |ws| && !ConditionOk(s, ws[k])
    ensures exists i: nat :: FaultAt(s, ws, i, AwaitError(s, ws))
  {
    ConditionMeans(s, ws[0]);
    hide ConditionOk, SumFits;
    if ConditionOk(s, ws[0]) {
      assert ws[1..][k - 1] == ws[k];
      FirstFault(s, ws[1..], k - 1);
      hide FaultAt;
      var i: nat :| FaultAt(s, ws[1..], i, AwaitError(s, ws[1..]));
      FaultLater(s, ws, i, AwaitError(s, ws[1..]));
    } else {
      assert FaultAt(s, ws, 0, AwaitError(s, ws));
    }
  }

  lemma AwaitAnswerIs(s: State, client: nat, id: nat, ws: seq<WaitCondition>)
    requires Inv(s) && AwaitInScope(s, client, id, ws)
    ensures AwaitAnswer(s, ws, AwaitRequest(s, client, id, ws).1)
  {
    hide Inv, ConditionOk, SumFits, AwaitError, Awaiting, AwaitFired, SomeTrue, AwaitInScope;
    forall i | 0 <= i < |ws|
      ensures ConditionOk(s, ws[i]) <==> SumFits(s, ws[i])
    {
      ConditionMeans(s, ws[i]);
    }
    if i: nat :| i < |ws| && !ConditionOk(s, ws[i]) {
      FirstFault(s, ws, i);
    }
  }

  lemma AllAccepted(s: State, ws: seq<WaitCondition>)
    requires forall i | 0 <= i < |ws| :: SumFits(s, ws[i])
    ensures forall i | 0 <= i < |ws| :: ConditionOk(s, ws[i])
  {
    forall i | 0 <= i < |ws|
      ensures ConditionOk(s, ws[i])
    {
      ConditionMeans(s, ws[i]);
    }
  }

  lemma StartsTrue(s: State, client: nat, id: nat, ws: seq<WaitCondition>, i: nat)
    requires Inv(s) && AwaitInScope(s, client, id, ws) && i < |ws| && forall j | 0 <= j < |ws| :: ConditionOk(s, ws[j])
    ensures var b := Awaiting(s, client, id, ws);
            && i < |b.awaits[id].conds| == |ws|
            && (Triggered(b, OfAwait(id, i), CurrentValue(b, OfAwait(id, i))) <==>
                TrueAtOnce(ws[i].valueType, ws[i].waitValue, ws[i].testType, s.counters[ws[i].counter.id].value))
  {
    WaitingConditions(s, client, id, ws);
    ConditionMeans(s, ws[i]);
    hide Inv, Awaiting, AwaitInScope, TestValue;
  }

  /** An accepted await fires at once if and only if one of its conditions is true from the start. */
  lemma AwaitFiresAtOnceIff(s: State, client: nat, id: nat, ws: seq<WaitCondition>)
    requires Inv(s) && AwaitInScope(s, client, id, ws) && |ws| > 0 && forall i | 0 <= i < |ws| :: SumFits(s, ws[i])
    ensures AwaitRequest(s, client, id, ws).1 == Success
    ensures id in AwaitRequest(s, client, id, ws).0.awaits <==>
            forall i | 0 <= i < |ws| ::
              !TrueAtOnce(ws[i].valueType, ws[i].waitValue, ws[i].testType, s.counters[ws[i].counter.id].value)
  {
    assert id !in s.awaits;
    hide Inv, ConditionOk, Awaiting, Triggered, CurrentValue, TrueAtOnce, AwaitInScope, SumFits, Sound, Firable, ConditionsFor;
    AllAccepted(s, ws);
    AwaitingKeeps(s, client, id, ws);
    var b := Awaiting(s, client, id, ws);
    forall i: nat | i < |ws|
      ensures i < |b.awaits[id].conds| == |ws|
      ensures Triggered(b, OfAwait(id, i), CurrentValue(b, OfAwait(id, i))) <==>
              TrueAtOnce(ws[i].valueType, ws[i].waitValue, ws[i].testType, s.counters[ws[i].counter.id].value)
    {
      StartsTrue(s, client, id, ws, i);
    }
  }

  /** The value of its counter when the condition is set up. */
  ghost function StartOf(s: State, w: WaitCondition): int {
    if w.counter.On? && w.counter.id in s.counters then s.counters[w.counter.id].value else 0
  }

  ghost predicate SetUp(s: State, w: WaitCondition, cond: Condition) {
    cond == Condition(Trigger(w.counter, w.valueType, w.waitValue, w.testType,
                              if w.valueType == Relative then StartOf(s, w) + w.waitValue else w.waitValue, w.testType), w.threshold)
  }

  /** The await waits: its client is ignored, and its conditions have their test values. */
  ghost predicate AwaitWaiting(s: State, b: State, client: nat, id: nat, ws: seq<WaitCondition>) {
    && b.alarms == s.alarms && b.ignored == s.ignored + {client} && b.log == s.log + [IgnoreClient(client)] && SameValues(s, b)
    && id in b.awaits && b.awaits == s.awaits[id := b.awaits[id]] && b.awaits[id].client == client && |b.awaits[id].conds| == |ws|
    && forall i | 0 <= i < |ws| :: SetUp(s, ws[i], b.awaits[id].conds[i])
  }

  ghost predicate OneTrueAtOnce(s: State, ws: seq<WaitCondition>) {
    exists i | 0 <= i < |ws| :: TrueAtOnce(ws[i].valueType, ws[i].waitValue, ws[i].testType, StartOf(s, ws[i]))
  }

  /** What an Await that is accepted does: it waits, or if one of its conditions is true from the start, it fires after that. */
  ghost predicate AwaitDone(s: State, s': State, client: nat, id: nat, ws: seq<WaitCondition>) {
    if OneTrueAtOnce(s, ws) then exists b :: AwaitWaiting(s, b, client, id, ws) && Unblocked(b, s', id)
    else AwaitWaiting(s, s', client, id, ws)
  }

  lemma WaitingIs(s: State, client: nat, id: nat, ws: seq<WaitCondition>)
    requires Inv(s) && AwaitInScope(s, client, id, ws) && forall i | 0 <= i < |ws| :: ConditionOk(s, ws[i])
    ensures AwaitWaiting(s, Awaiting(s, client, id, ws), client, id, ws)
  {
    assert id !in s.awaits;
    hide Inv, ConditionOk, AddConditions, AwaitInScope;
    AddConditionsFrame(s, id, client, ConditionsFor(s, ws));
    forall i | 0 <= i < |ws|
      ensures SetUp(s, ws[i], ConditionsFor(s, ws)[i])
    {
      ConditionMeans(s, ws[i]);
    }
  }

  lemma SomeTrueIs(s: State, client: nat, id: nat, ws: seq<WaitCondition>)
    requires Inv(s) && AwaitInScope(s, client, id, ws) && forall i | 0 <= i < |ws| :: ConditionOk(s, ws[i])
    ensures SomeTrue(Awaiting(s, client, id, ws), id) <==> OneTrueAtOnce(s, ws)
  {
    assert id !in s.awaits && forall i | 0 <= i < |ws| :: ws[i].counter.On? && ws[i].counter.id in s.counters;
    hide Inv, ConditionOk, Awaiting, Triggered, CurrentValue, TrueAtOnce, AwaitInScope, Sound, Firable;
    AwaitingKeeps(s, client, id, ws);
    var b := Awaiting(s, client, id, ws);
    forall i: nat | i < |ws|
      ensures i < |b.awaits[id].conds| == |ws|
      ensures Triggered(b, OfAwait(id, i), CurrentValue(b, OfAwait(id, i))) <==>
              TrueAtOnce(ws[i].valueType, ws[i].waitValue, ws[i].testType, StartOf(s, ws[i]))
    {
      StartsTrue(s, client, id, ws, i);
    }
  }

  lemma FreshId(s: State, client: nat, id: nat, ws: seq<WaitCondition>)
    requires AwaitInScope(s, client, id, ws)
    ensures id !in s.awaits
  {}

  lemma AwaitDoneIs(s: State, client: nat, id: nat, ws: seq<WaitCondition>)
    requires Inv(s) && AwaitInScope(s, client, id, ws) && |ws| > 0 && forall i | 0 <= i < |ws| :: SumFits(s, ws[i])
    ensures AwaitDone(s, AwaitRequest(s, client, id, ws).0, client, id, ws)
  {
    hide Inv, ConditionOk, Awaiting, SomeTrue, OneTrueAtOnce, AwaitInScope, SumFits, Sound, Firable, ConditionsFor, AwaitWaiting,
         Unblocked, AwaitFired, Triggered, CurrentValue;
    assert id !in s.awaits by { FreshId(s, client, id, ws); }
    AllAccepted(s, ws);
    AwaitingKeeps(s, client, id, ws);
    WaitingIs(s, client, id, ws);
    SomeTrueIs(s, client, id, ws);
    AwaitFiredMeans(Awaiting(s, client, id, ws), id);
  }

  lemma SuccessIsDone(s: State, client: nat, id: nat, ws: seq<WaitCondition>)
    requires Inv(s) && AwaitInScope(s, client, id, ws)
    ensures var (s', status) := AwaitRequest(s, client, id, ws);
            if status == Success then AwaitDone(s, s', client, id, ws) else s' == s
  {
    hide Inv, ConditionOk, SumFits, AwaitDone, AwaitInScope, Awaiting, SomeTrue, AwaitFired, AwaitAnswer;
    if |ws| > 0 && forall i | 0 <= i < |ws| :: ConditionOk(s, ws[i]) {
      forall i | 0 <= i < |ws|
        ensures SumFits(s, ws[i])
      {
        ConditionMeans(s, ws[i]);
      }
      AwaitDoneIs(s, client, id, ws);
    }
  }

  lemma GoneOnce(b: State, id: nat)
    requires Firable(b) && id in b.awaits
    ensures id !in AwaitFired(b, id).awaits
  {}

  lemma RequestIs(s: State, client: nat, id: nat, ws: seq<WaitCondition>)
    requires Inv(s) && AwaitInScope(s, client, id, ws) && ws != [] && forall i | 0 <= i < |ws| :: ConditionOk(s, ws[i])
    requires id in AwaitRequest(s, client, id, ws).0.awaits
    ensures AwaitRequest(s, client, id, ws).0 == Awaiting(s, client, id, ws)
  {
    assert id !in s.awaits;
    hide Inv, ConditionOk, Awaiting, AwaitFired, SomeTrue, AwaitInScope, Firable, Sound;
    AwaitingKeeps(s, client, id, ws);
    GoneOnce(Awaiting(s, client, id, ws), id);
  }

  lemma StillWaiting(s: State, client: nat, id: nat, ws: seq<WaitCondition>)
    requires Inv(s) && AwaitInScope(s, client, id, ws) && ws != [] && forall i | 0 <= i < |ws| :: ConditionOk(s, ws[i])
    requires id in AwaitRequest(s, client, id, ws).0.awaits
    ensures var s' := AwaitRequest(s, client, id, ws).0;
            && Inv(s') && Firable(s') && s'.awaits[id] == Await(client, ConditionsFor(s, ws)) && s'.counters.Keys == s.counters.Keys
            && forall c | c in s.counters :: s'.counters[c].value == s.counters[c].value
  {
    hide Inv, ConditionOk, Awaiting, ConditionsFor, AwaitInScope, Firable, Sound, AwaitRequest;
    AwaitRequestKeeps(s, client, id, ws);
    RequestIs(s, client, id, ws);
    WaitingConditions(s, client, id, ws);
    InvParts(AwaitRequest(s, client, id, ws).0);
    SoundIsFirable(AwaitRequest(s, client, id, ws).0);
  }

  lemma OnlyCondition(s: State, ws: seq<WaitCondition>, k: nat, i: nat)
    requires k < |ws| && i < |ws| && forall j | 0 <= j < |ws| :: ConditionOk(s, ws[j])
    requires forall i, j | 0 <= i < j < |ws| :: ws[i].counter != ws[j].counter
    ensures ConditionsFor(s, ws)[i].trigger.counter == ws[k].counter <==> i == k
  {
    ConditionMeans(s, ws[i]);
    assert i < k ==> ws[i].counter != ws[k].counter;
    assert k < i ==> ws[k].counter != ws[i].counter;
  }

  lemma MeetsIs(s: State, w: WaitCondition, oldval: int, value: int)
    requires ConditionOk(s, w)
    ensures Meets(ConditionFor(s, w).trigger, oldval, value) <==>
            ComesTrue(w.valueType, w.waitValue, w.testType, s.counters[w.counter.id].value, oldval, value)
  {
    ConditionMeans(s, w);
  }

  lemma OnlyOneReacts(s: State, s': State, c: nat, value: int, id: nat, k: nat)
    requires c in s.counters && id in s.awaits && AwaitReacts(s, s', c, value, id) && k < |s.awaits[id].conds|
    requires forall i: nat | i < |s.awaits[id].conds| :: s.awaits[id].conds[i].trigger.counter == On(c) <==> i == k
    ensures id in s'.awaits <==> !Meets(s.awaits[id].conds[k].trigger, s.counters[c].value, value)
  {
    hide Meets;
  }

  /** An await that waits fires when one of its conditions comes true. */
  lemma AwaitFiresLaterIff(s: State, client: nat, id: nat, ws: seq<WaitCondition>, k: nat, value: int)
    requires Inv(s) && AwaitInScope(s, client, id, ws) && k < |ws| && forall i | 0 <= i < |ws| :: SumFits(s, ws[i])
    requires id in AwaitRequest(s, client, id, ws).0.awaits && IsInt64(value)
    ensures var s', c, w := AwaitRequest(s, client, id, ws).0, ws[k].counter.id, ws[k];
            && Firable(s') && c in s'.counters
            && (id in CounterChanged(s', c, value).awaits <==>
                !ComesTrue(w.valueType, w.waitValue, w.testType, s.counters[c].value, s.counters[c].value, value))
  {
    assert SumFits(s, ws[k]);
    hide Inv, ConditionOk, CounterChanged, Meets, ComesTrue, AwaitRequest, ConditionFor, Firable, AwaitReacts;
    AllAccepted(s, ws);
    StillWaiting(s, client, id, ws);
    var s', c, conds := AwaitRequest(s, client, id, ws).0, ws[k].counter.id, ConditionsFor(s, ws);
    assert ws[k].counter == On(c) && c in s.counters;
    hide SumFits;
    MeetsIs(s, ws[k], s.counters[c].value, value);
    AwaitDoes(s', c, value, id);
    forall i: nat | i < |conds|
      ensures conds[i].trigger.counter == On(c) <==> i == k
    {
      OnlyCondition(s, ws, k, i);
    }
    OnlyOneReacts(s', CounterChanged(s', c, value), c, value, id, k);
  }

  /** The alarm that a request asks for: what it names, and otherwise what the alarm has. */
  ghost function Asked(s: State, a: Alarm, attrs: Attributes): Alarm {
    var t := a.trigger;
    var counter := if attrs.counter.Some? then attrs.counter.value else t.counter;
    var valueType := if attrs.valueType.Some? then attrs.valueType.value else t.valueType;
    var waitValue := if attrs.value.Some? then attrs.value.value else t.waitValue;
    var testType := if attrs.testType.Some? then attrs.testType.value else t.testType;
    var start := if counter.On? && counter.id in s.counters then s.counters[counter.id].value else 0;
    var testValue := if attrs.valueType.None? && attrs.value.None? then t.testValue
                     else if valueType == Relative then start + waitValue else waitValue;
    Alarm(Trigger(counter, valueType, waitValue, testType, testValue, testType),
          if attrs.delta.Some? then attrs.delta.value else a.delta, Active)
  }

  /** The error of the request, found in this order. */
  ghost predicate WrongSign(a: Alarm, attrs: Attributes) {
    var testType := if attrs.testType.Some? then attrs.testType.value else a.trigger.testType;
    var delta := if attrs.delta.Some? then attrs.delta.value else a.delta;
    && (attrs.delta.Some? || attrs.testType.Some?)
    && if testType == PositiveComparison || testType == PositiveTransition then delta < 0 else delta > 0
  }

  ghost function StatusOf(s: State, a: Alarm, attrs: Attributes): Status {
    var t := Asked(s, a, attrs).trigger;
    if WrongSign(a, attrs) then BadMatch
    else if attrs.counter.Some? && t.counter.On? && t.counter.id !in s.counters then BadCounter
    else if (attrs.valueType.None? && attrs.value.None?) || t.valueType == Absolute then Success
    else if t.counter.NoCounter? then BadMatch
    else if t.counter.id in s.counters && IsInt64(t.testValue) then Success else BadValue
  }

  /** What SyncInitTrigger makes of the trigger of an alarm: the test value is absolute, or relative to the counter as it is. */
  ghost predicate TriggerSetUp(s: State, s': State, id: nat, changed: Option<CounterRef>, setsType: bool, setsValue: bool, status: Status)
    requires id in s.alarms
  {
    var t := s.alarms[id].trigger;
    var counter := if changed.Some? then changed.value else t.counter;
    var known := counter.On? && counter.id in s.counters;
    && status == (if changed.Some? && counter.On? && !known then BadCounter
                  else if !setsValue || t.valueType == Absolute then Success
                  else if counter.NoCounter? then BadMatch
                  else if known && IsInt64(s.counters[counter.id].value + t.waitValue) then Success else BadValue)
    && s'.alarms.Keys == s.alarms.Keys
    && (status == Success ==>
          && s'.alarms[id].trigger == Trigger(counter, t.valueType, t.waitValue, t.testType,
                                              if !setsValue then t.testValue
                                              else if t.valueType == Relative then s.counters[counter.id].value + t.waitValue
                                              else t.waitValue,
                                              if setsType then t.testType else t.check)
          && (known && counter != t.counter ==> counter.id in s'.counters && OfAlarm(id) in s'.counters[counter.id].triglist))
  }

  lemma TriggerSetUpIs(s: State, id: nat, changed: Option<CounterRef>, setsType: bool, setsValue: bool)
    requires id in s.alarms
    ensures TriggerSetUp(s, InitState(s, id, changed, setsType, setsValue), id, changed, setsType, setsValue,
                         Initialized(s, s.alarms[id].trigger, changed, setsType, setsValue).1)
  {
    hide Remove, FailedValue;
  }

  /** What a request for an alarm comes to, and the errors in the order in which they are found. */
  lemma ChangedMeans(s: State, a: Alarm, attrs: Attributes)
    requires AttributesOk(attrs) && AlarmOk(a)
    ensures var (a', status) := Changed(s, a, attrs);
            status == StatusOf(s, a, attrs) && (status == Success ==> a' == Asked(s, a, attrs))
  {}

  lemma CheckedMeans(m: State, id: nat)
    requires Firable(m) && id in m.alarms && m.alarms[id].state == Active
    ensures var a, s' := m.alarms[id], CheckedAlarm(m, id);
            var t := a.trigger;
            if t.counter.NoCounter? then
              s' == m.(alarms := m.alarms[id := a.(state := Inactive)], log := m.log + [AlarmNotify(id, 0, t.testValue, Inactive)])
            else
              t.counter.id in m.counters &&
              var value := m.counters[t.counter.id].value;
              if Meets(t, value, value) then
                && id in s'.alarms && Advances(a, value, s'.alarms[id])
                && s' == m.(alarms := m.alarms[id := s'.alarms[id]],
                            log := m.log + [AlarmNotify(id, value, t.testValue, s'.alarms[id].state)])
              else s' == m
  {
    var now := CurrentValue(m, OfAlarm(id));
    if Triggered(m, OfAlarm(id), now) {
      ComparisonIgnoresOld(m, OfAlarm(id), now, 0);
      AlarmFiredMeans(m, id);
      hide AlarmFired, FirstFalse;
    }
  }

  lemma ReboundIs(s: State, id: nat, a: Alarm)
    requires id in s.alarms
    ensures var m := Rebound(s, id, a);
            m.alarms == s.alarms[id := a] && m.log == s.log && m.awaits == s.awaits && m.ignored == s.ignored && SameValues(s, m)
  {
    hide Remove;
  }

  /** Nothing but alarm `id`, and what is sent and on the lists, differs. */
  ghost predicate OnlyAlarm(s: State, s': State, id: nat) {
    && s'.awaits == s.awaits && s'.ignored == s.ignored && SameValues(s, s')
    && s'.alarms.Keys == s.alarms.Keys + {id} && forall i | i in s.alarms && i != id :: s'.alarms[i] == s.alarms[i]
  }

  /** What a successful ChangeAlarm does: the alarm is as asked for, and goes off if it has no counter or is true now. */
  ghost predicate AlarmChanged(s: State, s': State, id: nat, attrs: Attributes)
    requires id in s.alarms
  {
    var a := Asked(s, s.alarms[id], attrs);
    var t := a.trigger;
    && id in s'.alarms && OnlyAlarm(s, s', id)
    && if t.counter.NoCounter? then
         s'.alarms[id] == a.(state := Inactive) && s'.log == s.log + [AlarmNotify(id, 0, t.testValue, Inactive)]
       else
         t.counter.id in s.counters &&
         var value := s.counters[t.counter.id].value;
         if Meets(t, value, value) then
           && Advances(a, value, s'.alarms[id])
           && s'.log == s.log + [AlarmNotify(id, value, t.testValue, s'.alarms[id].state)]
         else s'.alarms[id] == a && s'.log == s.log
  }

  lemma ChangeAlarmMeans(s: State, id: nat, attrs: Attributes)
    requires Inv(s) && AttributesOk(attrs) && id in s.alarms && ChangeAlarmRequest(s, id, attrs).1 == Success
    ensures ChangeAlarmRequest(s, id, attrs).0.Some?
    ensures AlarmChanged(s, ChangeAlarmRequest(s, id, attrs).0.value, id, attrs)
  {
    AlarmIsOk(s, id);
    ChangedMeans(s, s.alarms[id], attrs);
    var a := Asked(s, s.alarms[id], attrs);
    assert Changed(s, s.alarms[id], attrs) == (a, Success);
    ChangedCounter(s, id, attrs);
    ReboundAlarmKeeps(s, id, a);
    hide Inv, Firable, Changed, Asked, AttributesOk, AlarmOk, CheckedAlarm, Rebound, Meets, Advances;
    ReboundIs(s, id, a);
    CheckedMeans(Rebound(s, id, a), id);
  }

  lemma AskedAnew(s: State, c: nat, attrs: Attributes)
    requires AttributesOk(attrs) && attrs.counter == Some(On(c)) && c in s.counters && AlarmOk(NEW_ALARM)
    requires Changed(s, NEW_ALARM, attrs).1 == Success
    ensures var t, value := Asked(s, NEW_ALARM, attrs).trigger, s.counters[c].value;
            && (Meets(t, value, value) <==> TrueAtOnce(t.valueType, t.waitValue, t.testType, value))
            && forall v :: Meets(t, value, v) <==> ComesTrue(t.valueType, t.waitValue, t.testType, value, value, v)
  {}

  /** Without attributes an alarm has no counter, and is to wait for a value of at least 0 and then in steps of 1. */
  ghost predicate Defaults(a: Alarm, attrs: Attributes) {
    && (attrs.counter.None? ==> a.trigger.counter == NoCounter)
    && (attrs.valueType.None? ==> a.trigger.valueType == Absolute)
    && (attrs.value.None? ==> a.trigger.waitValue == 0)
    && (attrs.valueType.None? && attrs.value.None? ==> a.trigger.testValue == 0)
    && (attrs.testType.None? ==> a.trigger.testType == PositiveComparison)
    && (attrs.delta.None? ==> a.delta == 1)
  }

  /** A new alarm goes off at once if and only if its trigger is true from the start; without a counter it stays Inactive. */
  ghost predicate AlarmCreated(s: State, s': State, id: nat, attrs: Attributes) {
    var a := Asked(s, NEW_ALARM, attrs);
    var t := a.trigger;
    && id in s'.alarms && OnlyAlarm(s, s', id) && Defaults(a, attrs)
    && if t.counter.NoCounter? then s'.alarms[id] == a.(state := Inactive) && s'.log == s.log
       else
         t.counter.id in s.counters &&
         var value := s.counters[t.counter.id].value;
         if TrueAtOnce(t.valueType, t.waitValue, t.testType, value) then
           && Advances(a, value, s'.alarms[id])
           && s'.log == s.log + [AlarmNotify(id, value, t.testValue, s'.alarms[id].state)]
         else s'.alarms[id] == a && s'.log == s.log
  }

  lemma NewIsOk()
    ensures AlarmOk(NEW_ALARM)
  {}

  lemma SameChange(s: State, id: nat, attrs: Attributes)
    requires AttributesOk(attrs) && AlarmOk(NEW_ALARM)
    ensures Changed(WithNewAlarm(s, id), NEW_ALARM, attrs).1 == Changed(s, NEW_ALARM, attrs).1
    ensures Asked(WithNewAlarm(s, id), NEW_ALARM, attrs) == Asked(s, NEW_ALARM, attrs)
    ensures Defaults(Asked(s, NEW_ALARM, attrs), attrs)
    ensures var c := Asked(s, NEW_ALARM, attrs).trigger.counter; c.On? ==> attrs.counter == Some(c)
    ensures StatusOf(WithNewAlarm(s, id), NEW_ALARM, attrs) == StatusOf(s, NEW_ALARM, attrs)
  {}

  lemma CreateAlarmMeans(s: State, id: nat, attrs: Attributes)
    requires Inv(s) && AttributesOk(attrs) && id !in s.alarms && CreateAlarmRequest(s, id, attrs).1 == Success
    ensures AlarmCreated(s, CreateAlarmRequest(s, id, attrs).0, id, attrs)
  {
    hide Inv, Firable, Changed, Asked, AttributesOk, AlarmOk, CheckedAlarm, Rebound, Meets, Advances, TrueAtOnce, Defaults, StatusOf;
    var s0 := WithNewAlarm(s, id);
    WithNewAlarmKeeps(s, id);
    AlarmIsOk(s0, id);
    SameChange(s, id, attrs);
    ChangedMeans(s0, NEW_ALARM, attrs);
    var a := Asked(s0, NEW_ALARM, attrs);
    assert Changed(s0, NEW_ALARM, attrs) == (a, Success);
    ChangedCounter(s0, id, attrs);
    if a.trigger.counter.On? {
      AskedAnew(s0, a.trigger.counter.id, attrs);
    }
    ReboundAlarmKeeps(s0, id, a);
    ReboundIs(s0, id, a);
    ReboundIs(s0, id, a.(state := Inactive));
    CheckedMeans(Rebound(s0, id, a), id);
  }

  /** And then when it comes true. */
  lemma AlarmGoesOffLaterIff(s: State, id: nat, attrs: Attributes, c: nat, value: int)
    requires Inv(s) && AttributesOk(attrs) && id !in s.alarms && CreateAlarmRequest(s, id, attrs).1 == Success
    requires attrs.counter == Some(On(c)) && c in s.counters && IsInt64(value)
    ensures var t, start, s' := Asked(s, NEW_ALARM, attrs).trigger, s.counters[c].value, CreateAlarmRequest(s, id, attrs).0;
            && Inv(s') && Firable(s') && c in s'.counters && id in s'.alarms
            && (!TrueAtOnce(t.valueType, t.waitValue, t.testType, start) ==>
                  AlarmReacts(s', CounterChanged(s', c, value), c, value, id)
                  && (GoesOff(s', c, value, id) <==> ComesTrue(t.valueType, t.waitValue, t.testType, start, start, value)))
  {
    var s', a := CreateAlarmRequest(s, id, attrs).0, Asked(s, NEW_ALARM, attrs);
    CreateAlarmKeeps(s, id, attrs);
    CreateAlarmMeans(s, id, attrs);
    NewIsOk();
    assert Changed(s, NEW_ALARM, attrs).1 == Success by { SameChange(s, id, attrs); }
    AskedAnew(s, c, attrs);
    assert a.trigger.counter == On(c) && a.state == Active;
    hide Inv, Firable, CreateAlarmRequest, Asked, CounterChanged, AlarmReacts, Meets, ComesTrue, TrueAtOnce, Changed;
    InvParts(s');
    SoundIsFirable(s');
    AlarmDoes(s', c, value, id);
  }

  /**
    * What a ChangeAlarm that fails leaves: the value type, the wait value, the test type and the delta are stored
    * in any case; the counter and the test value only if the error is in the value, and then the test value is the
    * sum modulo 2^64.
    */
  ghost predicate AlarmLeft(s: State, s': State, id: nat, attrs: Attributes)
    requires id in s.alarms
  {
    var a, b := s.alarms[id], Asked(s, s.alarms[id], attrs);
    var unknown := attrs.counter.Some? && b.trigger.counter.On? && b.trigger.counter.id !in s.counters;
    && s'.alarms.Keys == s.alarms.Keys && (forall i | i in s.alarms && i != id :: s'.alarms[i] == s.alarms[i])
    && s'.awaits == s.awaits && s'.ignored == s.ignored && s'.log == s.log
    && s'.alarms[id].delta == b.delta && s'.alarms[id].state == a.state
    && var t := s'.alarms[id].trigger;
       && t.valueType == b.trigger.valueType && t.waitValue == b.trigger.waitValue && t.testType == b.trigger.testType
       && if WrongSign(a, attrs) || unknown then
            t.counter == a.trigger.counter && t.testValue == a.trigger.testValue && t.check == a.trigger.check
          else
            && t.counter == b.trigger.counter && t.check == b.trigger.testType
            && if t.counter.On? && t.counter.id in s.counters
               then (t.testValue - b.trigger.testValue) % 0x1_0000_0000_0000_0000 == 0 && IsInt64(t.testValue)
               else t.testValue == a.trigger.testValue
  }

  lemma FailureMeans(s: State, id: nat, attrs: Attributes)
    requires id in s.alarms && AttributesOk(attrs) && AlarmOk(s.alarms[id]) && Changed(s, s.alarms[id], attrs).1 != Success
    ensures AlarmLeft(s, HalfChanged(s, id, attrs), id, attrs)
  {
    ChangedMeans(s, s.alarms[id], attrs);
  }

  /** ChangeAlarm, whether or not it succeeds. */
  lemma ChangeMeans(s: State, id: nat, attrs: Attributes)
    requires Inv(s) && AttributesOk(attrs) && id in s.alarms && AlarmOk(s.alarms[id])
    ensures ChangeAlarmRequest(s, id, attrs).1 == StatusOf(s, s.alarms[id], attrs) == Changed(s, s.alarms[id], attrs).1
    ensures var (s', status) := ChangeAlarmRequest(s, id, attrs);
            if status == Success then s'.Some? && AlarmChanged(s, s'.value, id, attrs)
            else AlarmLeft(s, HalfChanged(s, id, attrs), id, attrs) && (s'.Some? ==> s'.value == HalfChanged(s, id, attrs))
  {
    hide Inv, Changed, AlarmOk, AlarmChanged, AlarmLeft, Asked, StatusOf, Rebound, CheckedAlarm, FailsHarmlessly, AttributesOk;
    ChangedMeans(s, s.alarms[id], attrs);
    if Changed(s, s.alarms[id], attrs).1 == Success {
      ChangeAlarmMeans(s, id, attrs);
    } else {
      FailureMeans(s, id, attrs);
    }
  }

  /** CreateAlarm, whether or not it succeeds. */
  lemma CreateMeans(s: State, id: nat, attrs: Attributes)
    requires Inv(s) && AttributesOk(attrs) && id !in s.alarms
    ensures var (s', status) := CreateAlarmRequest(s, id, attrs);
            && status == StatusOf(s, NEW_ALARM, attrs) && if status == Success then AlarmCreated(s, s', id, attrs) else s' == s
  {
    hide Inv, Changed, AlarmOk, AlarmCreated, Asked, StatusOf, Rebound, CheckedAlarm, AttributesOk;
    NewIsOk();
    SameChange(s, id, attrs);
    ChangedMeans(s, NEW_ALARM, attrs);
    if CreateAlarmRequest(s, id, attrs).1 == Success {
      CreateAlarmMeans(s, id, attrs);
    }
  }

  // ---------- The end of a counter, and of an alarm ----------

  /** The first node of the list of counter `c` is freed: its alarm loses the counter and says so, or its await is told. */
  ghost predicate NodeFreed(s: State, s': State, c: nat)
    requires c in s.counters && s.counters[c].triglist != [] && Exists(s, s.counters[c].triglist[0])
  {
    var popped := s.(counters := s.counters[c := s.counters[c].(triglist := s.counters[c].triglist[1..])]);
    match s.counters[c].triglist[0]
    case OfAlarm(id) =>
      var t := s.alarms[id].trigger;
      && (t.counter.On? ==> t.counter.id in s.counters)
      && s' == popped.(alarms := s.alarms[id := s.alarms[id].(trigger := t.(counter := NoCounter), state := Inactive)],
                       log := s.log + [AlarmNotify(id, if t.counter.On? then s.counters[t.counter.id].value else 0, t.testValue, Inactive)])
    case OfAwait(id, _) => Unblocked(popped, s', id)
  }

  lemma NodeFreedIs(s: State, c: nat)
    requires Firable(s) && c in s.counters && s.counters[c].triglist != [] && Exists(s, s.counters[c].triglist[0])
    requires s.counters[c].beingDestroyed
    ensures NodeFreed(s, DestroyedOne(s, c), c)
  {
    assert Firable(PopHead(s, c));
    match s.counters[c].triglist[0]
    case OfAlarm(id) =>
    case OfAwait(id, _) => AwaitFiredMeans(PopHead(s, c), id);
  }

  /** An alarm of counter `c` loses it, is Inactive, and sends one event about that; nothing happens to any other. */
  ghost predicate AlarmLoses(s: State, s': State, c: nat, id: nat)
    requires c in s.counters && id in s.alarms
  {
    && id in s'.alarms && s.log <= s'.log
    && var a := s.alarms[id];
       if a.trigger.counter == On(c) then
         && s'.alarms[id] == a.(trigger := a.trigger.(counter := NoCounter), state := Inactive)
         && Heard(s'.log, id) == Heard(s.log, id) + 1
         && AlarmNotify(id, s.counters[c].value, a.trigger.testValue, Inactive) in s'.log[|s.log|..]
       else s'.alarms[id] == a && Heard(s'.log, id) == Heard(s.log, id)
  }

  /** The events tell the client of await `a` that the counter of condition `k` has been destroyed. */
  ghost predicate ToldOfEnd(events: seq<Event>, a: Await, k: nat, c: nat, value: int) {
    k < |a.conds| && exists count: nat :: CounterNotify(a.client, c, a.conds[k].trigger.testValue, value, count, true) in events
  }

  /** An await is gone exactly if it waits for counter `c`; its client is told that this one has been destroyed. */
  ghost predicate AwaitLoses(s: State, s': State, c: nat, id: nat)
    requires c in s.counters && id in s.awaits
  {
    var a := s.awaits[id];
    && s.log <= s'.log
    && (id in s'.awaits <==> forall k: nat | k < |a.conds| :: a.conds[k].trigger.counter != On(c))
    && forall k: nat | k < |a.conds| && a.conds[k].trigger.counter == On(c) ::
         ToldOfEnd(s'.log[|s.log|..], a, k, c, s.counters[c].value)
  }

  /** What the destruction of counter `c` does. */
  ghost predicate CounterGone(s: State, s': State, c: nat)
    requires c in s.counters
  {
    && s'.counters.Keys == s.counters.Keys - {c}
    && (forall d | d in s'.counters :: s'.counters[d].value == s.counters[d].value)
    && (forall id | id in s.alarms :: AlarmLoses(s, s', c, id))
    && (forall id | id in s.awaits :: AwaitLoses(s, s', c, id))
  }

  lemma ToldEvents(s: State, a: Await, log: seq<Event>, id: nat)
    requires Told(s, a, log)
    ensures s.log <= log && Heard(log, id) == Heard(s.log, id)
  {
    var at, notes :| NotesOf(s.counters, a, at, notes) && log == s.log + notes + [AttendClient(a.client)];
    assert log == s.log + (notes + [AttendClient(a.client)]);
    assert forall e | e in notes :: e.CounterNotify?;
    hide NotesOf;
    HeardBoth(s.log, notes + [AttendClient(a.client)], id);
    NotHeard(notes + [AttendClient(a.client)], id);
  }

  lemma FreedEvents(s: State, s': State, c: nat, id: nat)
    requires c in s.counters && s.counters[c].triglist != [] && Exists(s, s.counters[c].triglist[0]) && NodeFreed(s, s', c)
    requires TriggerOf(s, s.counters[c].triglist[0]).counter == On(c)
    ensures SameValues(s, s') && s.log <= s'.log
    ensures Heard(s'.log, id) == Heard(s.log, id) + if s.counters[c].triglist[0] == OfAlarm(id) then 1 else 0
    ensures id in s.alarms && s.counters[c].triglist[0] == OfAlarm(id) ==>
              s'.log == s.log + [AlarmNotify(id, s.counters[c].value, s.alarms[id].trigger.testValue, Inactive)]
  {
    hide Told;
    match s.counters[c].triglist[0]
    case OfAlarm(i) =>
      var e := s'.log[|s.log|];
      HeardBoth(s.log, [e], id);
      assert [e][..0] == [];
    case OfAwait(i, _) =>
      ToldEvents(PopHead(s, c), s.awaits[i], s'.log, id);
  }

  lemma LaterToo(a: seq<Event>, b: seq<Event>, c: seq<Event>, e: Event)
    requires a <= b <= c && (e in b[|a|..] || e in c[|b|..])
    ensures e in c[|a|..]
  {
    assert c[|a|..] == c[|a|..|b|] + c[|b|..];
    assert c[|a|..|b|] == b[|a|..];
  }

  /** One step of the loop of FreeCounter. */
  lemma OneFreed(s: State, c: nat)
    requires Dying(s, c) && s.counters[c].triglist != []
    ensures Firable(s) && Exists(s, s.counters[c].triglist[0]) && s.counters[c].beingDestroyed
    ensures TriggerOf(s, s.counters[c].triglist[0]).counter == On(c)
    ensures var s1, head := DestroyedOne(s, c), s.counters[c].triglist[0];
            && Dying(s1, c) && NodeFreed(s, s1, c) && DestroyAll(s, c) == DestroyAll(s1, c)
            && s1.counters[c].triglist == s.counters[c].triglist[1..] && s1.counters[c].value == s.counters[c].value
            && s1.alarms == (if head.OfAlarm? then s.alarms[head.id := Orphaned(s.alarms[head.id])] else s.alarms)
            && s1.awaits == (if head.OfAwait? then s.awaits - {head.id} else s.awaits)
  {
    DyingIsFirable(s, c);
    DyingFlag(s, c);
    DestroyedOneKeeps(s, c);
    DestroyedOneExactly(s, c);
    NodeFreedIs(s, c);
    hide Dying, Firable, NodeFreed, AlarmOrphaned, AwaitFired;
  }

  lemma {:induction false} LogGrows(s: State, c: nat)
    requires Dying(s, c)
    ensures s.log <= DestroyAll(s, c).log && SameValues(s, DestroyAll(s, c))
    decreases if c in s.counters then |s.counters[c].triglist| else 0
  {
    if s.counters[c].triglist != [] {
      OneFreed(s, c);
      FreedEvents(s, DestroyedOne(s, c), c, 0);
      hide Dying, Firable, DestroyedOne, NodeFreed, Heard, Exists, TriggerOf;
      LogGrows(DestroyedOne(s, c), c);
    }
  }

  lemma {:induction false} OrphanIsTold(s: State, c: nat, id: nat)
    requires Dying(s, c) && id in s.alarms
    ensures AlarmLoses(s, DestroyAll(s, c), c, id)
    decreases if c in s.counters then |s.counters[c].triglist| else 0
  {
    hide Dying, Firable, DestroyedOne, NodeFreed, Heard;
    DyingFlag(s, c);
    if s.counters[c].triglist == [] {
      EmptyListMeansNone(s, c);
    } else {
      OneFreed(s, c);
      hide DestroyAll;
      var s1, s', head := DestroyedOne(s, c), DestroyAll(s, c), s.counters[c].triglist[0];
      FreedEvents(s, s1, c, id);
      OrphanIsTold(s1, c, id);
      var e := AlarmNotify(id, s.counters[c].value, s.alarms[id].trigger.testValue, Inactive);
      if s.alarms[id].trigger.counter == On(c) {
        assert head == OfAlarm(id) ==> s1.log[|s.log|..] == [e];
        LaterToo(s.log, s1.log, s'.log, e);
      }
    }
  }

  lemma HeadIsTold(s: State, s': State, c: nat, k: nat)
    requires c in s.counters && s.counters[c].triglist != [] && Exists(s, s.counters[c].triglist[0]) && NodeFreed(s, s', c)
    requires s.counters[c].triglist[0].OfAwait? && s.counters[c].beingDestroyed
    requires var a := s.awaits[s.counters[c].triglist[0].id]; k < |a.conds| && a.conds[k].trigger.counter == On(c)
    ensures s.log <= s'.log
    ensures ToldOfEnd(s'.log[|s.log|..], s.awaits[s.counters[c].triglist[0].id], k, c, s.counters[c].value)
  {
    var popped, a := PopHead(s, c), s.awaits[s.counters[c].triglist[0].id];
    var at, notes :| NotesOf(popped.counters, a, at, notes) && s'.log == s.log + notes + [AttendClient(a.client)];
    assert DueAt(popped.counters, a.conds, k);
    var j :| 0 <= j < |at| && at[j] == k;
    var e := CounterNotify(a.client, c, a.conds[k].trigger.testValue, s.counters[c].value, |notes| - 1 - j, true);
    assert notes[j] == e && s'.log[|s.log|..][j] == e;
  }

  lemma StillTold(a: seq<Event>, b: seq<Event>, c: seq<Event>, await: Await, k: nat, d: nat, value: int)
    requires a <= b <= c && (ToldOfEnd(b[|a|..], await, k, d, value) || ToldOfEnd(c[|b|..], await, k, d, value))
    ensures ToldOfEnd(c[|a|..], await, k, d, value)
  {
    assert c[|a|..] == c[|a|..|b|] + c[|b|..];
    assert c[|a|..|b|] == b[|a|..];
  }

  lemma StillWaitedFor(s: State, c: nat, id: nat, k: nat)
    requires Dying(s, c) && id in s.awaits && k < |s.awaits[id].conds| && s.awaits[id].conds[k].trigger.counter == On(c)
    ensures c in s.counters && s.counters[c].beingDestroyed && s.counters[c].triglist != []
  {
    assert Exists(s, OfAwait(id, k)) && OnList(s, OfAwait(id, k));
  }

  lemma {:induction false} WaiterIsTold(s: State, c: nat, id: nat, k: nat)
    requires Dying(s, c) && id in s.awaits && k < |s.awaits[id].conds| && s.awaits[id].conds[k].trigger.counter == On(c)
    ensures s.log <= DestroyAll(s, c).log
    ensures ToldOfEnd(DestroyAll(s, c).log[|s.log|..], s.awaits[id], k, c, s.counters[c].value)
    decreases if c in s.counters then |s.counters[c].triglist| else 0
  {
    hide Dying, Firable, DestroyedOne, NodeFreed, Heard, ToldOfEnd, DestroyAll, SameValues;
    StillWaitedFor(s, c, id, k);
    OneFreed(s, c);
    var s1, s', head := DestroyedOne(s, c), DestroyAll(s, c), s.counters[c].triglist[0];
    FreedEvents(s, s1, c, id);
    LogGrows(s1, c);
    if head.OfAwait? && head.id == id {
      HeadIsTold(s, s1, c, k);
    } else {
      WaiterIsTold(s1, c, id, k);
    }
    StillTold(s.log, s1.log, s'.log, s.awaits[id], k, c, s.counters[c].value);
  }

  lemma AwaitLosesIs(s: State, c: nat, id: nat)
    requires Dying(s, c) && id in s.awaits
    ensures AwaitLoses(s, DestroyAll(s, c), c, id)
  {
    DestroyAllExactly(s, c);
    LogGrows(s, c);
    hide Dying, DestroyAll, ToldOfEnd;
    forall k: nat | k < |s.awaits[id].conds| && s.awaits[id].conds[k].trigger.counter == On(c)
      ensures ToldOfEnd(DestroyAll(s, c).log[|s.log|..], s.awaits[id], k, c, s.counters[c].value)
    {
      WaiterIsTold(s, c, id, k);
    }
  }

  lemma SameLosses(s: State, dying: State, s': State, c: nat, id: nat)
    requires c in s.counters && c in dying.counters && dying.counters[c].value == s.counters[c].value
    requires dying.alarms == s.alarms && dying.awaits == s.awaits && dying.log == s.log
    ensures id in s.alarms && AlarmLoses(dying, s', c, id) ==> AlarmLoses(s, WithoutCounter(s', c), c, id)
    ensures id in s.awaits && AwaitLoses(dying, s', c, id) ==> AwaitLoses(s, WithoutCounter(s', c), c, id)
  {
    hide Heard, ToldOfEnd;
  }

  /** The destruction of a counter: each of its alarms says so once, and each client that waits for it is told. */
  lemma CounterGoneIs(s: State, c: nat)
    requires Inv(s) && c in s.counters
    ensures CounterGone(s, CounterDestroyed(s, c), c)
  {
    hide Inv, Dying, DestroyAll, AlarmLoses, AwaitLoses;
    var dying := MarkDying(s, c);
    MarkDyingKeeps(s, c);
    var s', all := CounterDestroyed(s, c), DestroyAll(dying, c);
    assert s' == WithoutCounter(all, c);
    LogGrows(dying, c);
    hide CounterDestroyed;
    forall id | id in s.alarms
      ensures AlarmLoses(s, s', c, id)
    {
      OrphanIsTold(dying, c, id);
      SameLosses(s, dying, all, c, id);
    }
    forall id | id in s.awaits
      ensures AwaitLoses(s, s', c, id)
    {
      AwaitLosesIs(dying, c, id);
      SameLosses(s, dying, all, c, id);
    }
  }

  /** A destroyed alarm says so, with the value of its counter; no other alarm and no await changes. */
  ghost predicate AlarmGone(s: State, s': State, id: nat)
    requires id in s.alarms
  {
    var t := s.alarms[id].trigger;
    && s'.alarms == s.alarms - {id} && s'.awaits == s.awaits && s'.ignored == s.ignored && SameValues(s, s')
    && (t.counter.On? ==> t.counter.id in s.counters)
    && s'.log == s.log + [AlarmNotify(id, if t.counter.On? then s.counters[t.counter.id].value else 0, t.testValue, Destroyed)]
  }

  lemma AlarmGoneIs(s: State, id: nat)
    requires Inv(s) && id in s.alarms
    ensures AlarmGone(s, DestroyAlarmRequest(s, id).0, id)
  {
    assert Exists(s, OfAlarm(id)) && OnList(s, OfAlarm(id));
    hide Inv, Remove;
  }
}
