/** The SYNC requests as the server carries them out, updating its tables in place. */
module SyncServer {
  import opened SyncModel
  import opened SyncSteps
  import opened SyncRequests
  import opened SyncDestroy
  import opened SyncRuns
  import opened SyncEvents

  lemma {:induction false} RemoveAt(list: seq<TriggerRef>, ref: TriggerRef, i: nat)
    requires i <= |list| && ref !in list[..i] && (i < |list| ==> list[i] == ref)
    ensures Remove(list, ref) == if i < |list| then list[..i] + list[i + 1..] else list
  {
    if i > 0 {
      assert list[0] == list[..i][0];
      assert list[1..][..i - 1] == list[..i][1..];
      RemoveAt(list[1..], ref, i - 1);
    }
  }

  /** The test value after `k` deltas. */
  function At(testValue: int, delta: int, k: nat): int {
    testValue + k * delta
  }

  lemma AtNext(testValue: int, delta: int, k: nat)
    ensures At(testValue, delta, 0) == testValue && At(testValue, delta, k + 1) == At(testValue, delta, k) + delta
  {}

  /** On the way to the advanced value there is no overflow unless it overflows itself. */
  lemma NoEarlierOverflow(testValue: int, delta: int, k: nat, last: nat)
    requires k <= last && IsInt64(testValue) && IsInt64(At(testValue, delta, last))
    ensures IsInt64(At(testValue, delta, k))
  {
    if delta >= 0 {
      MulOrder(k, last, delta);
    } else {
      MulOrder(k, last, -delta);
      assert k * delta == -(k * -delta) && last * delta == -(last * -delta);
    }
  }

  lemma Stops(testType: TestType, testValue: int, delta: int, value: int, k: nat)
    requires testType.Comparison() ==> Holds(testType, testValue, testValue, value) && GoodDelta(testType, delta) && delta != 0
    requires 1 <= k <= Deltas(testType, testValue, delta, value)
    ensures Holds(testType, At(testValue, delta, k), value, value) <==> k < Deltas(testType, testValue, delta, value)
  {
    if testType.Comparison() {
      DeltasAreLeast(testType, testValue, delta, value, k);
    }
  }

  lemma AdvancedIs(testType: TestType, testValue: int, delta: int, value: int)
    requires testType.Comparison() ==> Holds(testType, testValue, testValue, value) && GoodDelta(testType, delta) && delta != 0
    ensures var v := At(testValue, delta, Deltas(testType, testValue, delta, value));
            Advanced(testType, testValue, delta, value) == if IsInt64(v) then Some(v) else None
    ensures Deltas(testType, testValue, delta, value) >= 1
  {}

  /** The loop of SyncAlarmTriggerFired: deltas are added until an overflow or a false trigger. */
  method Advance(testType: TestType, testValue: int, delta: int, value: int) returns (newValue: int, overflow: bool)
    requires IsInt64(testValue) && IsInt64(delta)
    requires testType.Comparison() ==> Holds(testType, testValue, testValue, value) && GoodDelta(testType, delta) && delta != 0
    ensures overflow == Advanced(testType, testValue, delta, value).None?
    ensures !overflow ==> newValue == Advanced(testType, testValue, delta, value).value
  {
    hide At, Deltas, Advanced, Holds;
    ghost var last, k := Deltas(testType, testValue, delta, value), 1;
    AdvancedIs(testType, testValue, delta, value);
    newValue := testValue + delta;
    overflow := !IsInt64(newValue);
    AtNext(testValue, delta, 0);
    Stops(testType, testValue, delta, value, 1);
    while !overflow && Holds(testType, newValue, value, value)
      invariant 1 <= k <= last && newValue == At(testValue, delta, k)
      invariant overflow == !IsInt64(newValue)
      invariant Holds(testType, newValue, value, value) <==> k < last
      decreases last - k
    {
      AtNext(testValue, delta, k);
      k := k + 1;
      newValue := newValue + delta;
      overflow := !IsInt64(newValue);
      Stops(testType, testValue, delta, value, k);
    }
    if overflow && IsInt64(At(testValue, delta, last)) {
      NoEarlierOverflow(testValue, delta, k, last);
    }
  }

  // ---------- Freeing an await ----------

  /** One of the first `k` conditions is on counter `c`. */
  predicate NamedBefore(conds: seq<Condition>, k: nat, c: nat)
    requires k <= |conds|
  {
    exists j | 0 <= j < k :: conds[j].trigger.counter == On(c)
  }

  /** The lists of the counters that the first `k` conditions name have lost await `id`. */
  ghost predicate Freed(before: map<nat, Counter>, now: map<nat, Counter>, id: nat, conds: seq<Condition>, k: nat)
    requires k <= |conds|
  {
    && now.Keys == before.Keys
    && forall c | c in before ::
         now[c] == if !before[c].beingDestroyed && NamedBefore(conds, k, c)
                   then before[c].(triglist := Strip(before[c].triglist, id)) else before[c]
  }

  lemma FreedStep(s: State, now: map<nat, Counter>, id: nat, k: nat)
    requires Lists(s) && id in s.awaits && k < |s.awaits[id].conds|
    requires Freed(s.counters, now, id, s.awaits[id].conds, k)
    requires s.awaits[id].conds[k].trigger.counter.On? && s.awaits[id].conds[k].trigger.counter.id in s.counters
    ensures var conds := s.awaits[id].conds;
            var counter := conds[k].trigger.counter;
            Freed(s.counters, if s.counters[counter.id].beingDestroyed then now else Detach(now, OfAwait(id, k), counter), id, conds, k + 1)
  {
    var conds := s.awaits[id].conds;
    var d := conds[k].trigger.counter.id;
    assert AwaitOk(conds);
    assert !NamedBefore(conds, k, d);
    assert forall c :: NamedBefore(conds, k + 1, c) <==> NamedBefore(conds, k, c) || c == d;
    var list := s.counters[d].triglist;
    assert ListOk(s, d, list);
    forall r | r in list && r.OfAwait? && r.id == id
      ensures r.k == k
    {
      assert conds[r.k].trigger.counter == On(d);
    }
    RemoveIsStrip(list, id, k);
  }

  lemma FreedAll(s: State, now: map<nat, Counter>, id: nat)
    requires Lists(s) && id in s.awaits && Freed(s.counters, now, id, s.awaits[id].conds, |s.awaits[id].conds|)
    ensures now == StripAll(s.counters, id)
  {
    forall c | c in s.counters && !NamedBefore(s.awaits[id].conds, |s.awaits[id].conds|, c)
      ensures Strip(s.counters[c].triglist, id) == s.counters[c].triglist
    {
      assert ListOk(s, c, s.counters[c].triglist);
      StripNothing(s.counters[c].triglist, id);
    }
  }

  lemma SameButClients(s: State, s': State)
    requires Lists(s) && Firable(s) && s'.counters == s.counters && s'.alarms == s.alarms && s'.awaits == s.awaits
    ensures Lists(s') && Firable(s')
  {
    assert forall ref :: Exists(s', ref) <==> Exists(s, ref);
    assert forall ref | Exists(s, ref) :: TriggerOf(s', ref) == TriggerOf(s, ref);
    forall c | c in s'.counters
      ensures ListOk(s', c, s'.counters[c].triglist)
    {
      assert ListOk(s, c, s.counters[c].triglist);
    }
  }

  lemma CondsFirable(s: State, id: nat)
    requires Firable(s) && id in s.awaits
    ensures forall i | 0 <= i < |s.awaits[id].conds| ::
              s.awaits[id].conds[i].trigger.counter.On? && s.awaits[id].conds[i].trigger.counter.id in s.counters
  {}

  lemma FreedNone(counters: map<nat, Counter>, id: nat, conds: seq<Condition>)
    ensures Freed(counters, counters, id, conds, 0)
  {}

  lemma FreedFlags(before: map<nat, Counter>, now: map<nat, Counter>, id: nat, conds: seq<Condition>, k: nat, c: nat)
    requires k <= |conds| && Freed(before, now, id, conds, k) && c in before
    ensures c in now && now[c].beingDestroyed == before[c].beingDestroyed
  {}

  /** The triggers of the rest of the walk point at the counter, and are still on its list. */
  ghost predicate StillOn(s: State, c: nat, rest: seq<TriggerRef>) {
    c in s.counters && forall r | r in rest :: Exists(s, r) && TriggerOf(s, r).counter == On(c) && r in s.counters[c].triglist
  }

  lemma StillListed(s: State, c: nat, value: int)
    requires Inv(s) && c in s.counters
    ensures StillOn(WithValue(s, c, value), c, s.counters[c].triglist)
  {
    assert ListOk(s, c, s.counters[c].triglist);
    var s' := WithValue(s, c, value);
    assert forall ref :: Exists(s', ref) <==> Exists(s, ref);
    assert forall ref | Exists(s, ref) :: TriggerOf(s', ref) == TriggerOf(s, ref);
  }

  lemma StaysOn(s: State, c: nat, rest: seq<TriggerRef>, oldval: int)
    requires Sound(s) && Walkable(s, rest) && rest != [] && StillOn(s, c, rest)
    ensures StillOn(After(s, rest[0], oldval), c, rest[1..])
  {
    hide Firable, Fire, Triggered, Lists, Blocked, ReleasedOnce, AlarmsOk;
    var ref, s' := rest[0], After(s, rest[0], oldval);
    OnceOnly(rest);
    if Triggered(s, ref, oldval) {
      ComparisonIgnoresOld(s, ref, oldval, 0);
      FireKeepsSound(s, ref);
    }
    forall r | r in rest[1..]
      ensures Exists(s', r) && TriggerOf(s', r).counter == On(c) && OnList(s', r)
    {
      AfterFrame(s, ref, r, oldval);
    }
    WalkOn(s, rest, oldval);
  }

  lemma HeadExists(s: State, rest: seq<TriggerRef>)
    requires Walkable(s, rest) && rest != []
    ensures Exists(s, rest[0])
  {}

  lemma EmptyWalk(s: State, oldval: int)
    requires Firable(s)
    ensures FireAll(s, [], oldval) == s
  {}

  lemma CounterDestroyedIs(s: State, c: nat)
    requires Inv(s) && c in s.counters && Dying(MarkDying(s, c), c)
    ensures CounterDestroyed(s, c) == WithoutCounter(DestroyAll(MarkDying(s, c), c), c)
  {}

  lemma SoundLists(s: State)
    requires Sound(s)
    ensures Lists(s) && Firable(s)
  {
    SoundIsFirable(s);
  }

  /** Registering conditions does not change what a further condition comes to. */
  lemma SameConditions(s: State, s': State, id: nat, client: nat, conds: seq<Condition>, w: WaitCondition)
    requires Extends(s, s', id, client, conds)
    ensures ConditionOk(s', w) == ConditionOk(s, w)
    ensures ConditionOk(s, w) ==> ConditionFor(s', w) == ConditionFor(s, w)
    ensures s'.alarms == s.alarms && s'.ignored == s.ignored && s'.log == s.log && s'.counters.Keys == s.counters.Keys
  {}

  lemma {:induction false} FirstError(s: State, ws: seq<WaitCondition>, i: nat)
    requires i < |ws| && !ConditionOk(s, ws[i]) && forall j | 0 <= j < i :: ConditionOk(s, ws[j])
    ensures AwaitError(s, ws) == if ws[i].counter.On? && ws[i].counter.id in s.counters then BadValue else BadCounter
  {
    hide ConditionOk;
    if i > 0 {
      assert ws[1..][i - 1] == ws[i];
      FirstError(s, ws[1..], i - 1);
    }
  }

  lemma PrefixRegistered(s: State, client: nat, id: nat, ws: seq<WaitCondition>, i: nat)
    requires Inv(s) && AwaitInScope(s, client, id, ws) && i <= |ws|
    requires forall j | 0 <= j < i :: ConditionOk(s, ws[j])
    ensures var s' := AddConditions(s, id, client, ConditionsFor(s, ws[..i])); Lists(s') && Firable(s')
    ensures Registered(s)
  {
    ConditionsAreOk(s, ws[..i]);
    AddConditionsKeeps(s, id, client, ConditionsFor(s, ws[..i]));
    FirableNow(AddConditions(s, id, client, ConditionsFor(s, ws[..i])));
  }

  lemma DetachKeepsValues(counters: map<nat, Counter>, ref: TriggerRef, counter: CounterRef)
    ensures Detach(counters, ref, counter).Keys == counters.Keys
    ensures forall c | c in counters :: Detach(counters, ref, counter)[c].value == counters[c].value
  {}

  lemma SameTestValue(s: State, s': State, t: Trigger, ref: TriggerRef, counter: CounterRef)
    requires s'.counters == s.counters || s'.counters == Detach(s.counters, ref, counter)
    ensures TestValue(s', t) == TestValue(s, t) && FailedValue(s', t) == FailedValue(s, t)
  {
    DetachKeepsValues(s.counters, ref, counter);
  }

  class Server {
    var counters: map<nat, Counter>
    var alarms: map<nat, Alarm>
    var awaits: map<nat, Await>
    var ignored: set<nat>
    var log: seq<Event>

    ghost function St(): State
      reads this
    {
      State(counters, alarms, awaits, ignored, log)
    }

    constructor ()
      ensures St() == EMPTY && Inv(St())
    {
      counters, alarms, awaits, ignored, log := map[], map[], map[], {}, [];
      new;
      EmptyIsInv();
    }

    // ---------- Trigger lists ----------

    method DeleteTriggerFromCounter(ref: TriggerRef, counter: CounterRef)
      modifies `counters
      ensures counters == Detach(old(counters), ref, counter)
    {
      if counter.NoCounter? || counter.id !in counters {
        return;
      }
      var list, i := counters[counter.id].triglist, 0;
      while i < |list| && list[i] != ref
        invariant i <= |list| && ref !in list[..i]
      {
        i := i + 1;
      }
      RemoveAt(list, ref, i);
      if i < |list| {
        counters := counters[counter.id := counters[counter.id].(triglist := list[..i] + list[i + 1..])];
      }
    }

    method AddTriggerToCounter(ref: TriggerRef, counter: CounterRef)
      modifies `counters
      ensures counters == Attach(old(counters), ref, counter)
    {
      if counter.NoCounter? || counter.id !in counters {
        return;
      }
      var list := counters[counter.id].triglist;
      for i := 0 to |list|
        invariant ref !in list[..i]
      {
        if list[i] == ref {
          return;
        }
      }
      counters := counters[counter.id := counters[counter.id].(triglist := [ref] + list)];
    }

    // ---------- Firing ----------

    method AlarmTriggerFired(id: nat)
      requires Firable(St()) && id in alarms
      requires alarms[id].trigger.testType.Comparison() ==> Triggered(St(), OfAlarm(id), 0)
      modifies `alarms, `log
      ensures St() == AlarmFired(old(St()), id)
      ensures WentOff(old(St()), St(), id)
    {
      AlarmFiredMeans(St(), id);
      if alarms[id].state != Active {
        return;
      }
      ghost var s := St();
      var t := alarms[id].trigger;
      if t.counter.NoCounter? || (alarms[id].delta == 0 && t.testType.Comparison()) {
        alarms := alarms[id := alarms[id].(state := Inactive)];
      }
      var newTestValue := t.testValue;
      if alarms[id].state == Active {
        var overflow;
        newTestValue, overflow := Advance(t.testType, t.testValue, alarms[id].delta, counters[t.counter.id].value);
        if overflow {
          newTestValue := t.testValue;
          alarms := alarms[id := alarms[id].(state := Inactive)];
        }
      }
      // the event has the new state but the old test value
      log := log + [AlarmNotify(id, if t.counter.On? then counters[t.counter.id].value else 0, t.testValue, alarms[id].state)];
      alarms := alarms[id := alarms[id].(trigger := t.(testValue := newTestValue))];
      assert alarms == s.alarms[id := AlarmAfter(s, id)];
    }

    /** FreeAwait: its triggers are removed, but the list of a counter being destroyed is left to FreeCounter. */
    method FreeAwait(id: nat)
      requires Lists(St()) && Firable(St()) && id in awaits
      modifies `counters, `awaits
      ensures counters == StripAll(old(counters), id) && awaits == old(awaits) - {id}
    {
      hide Lists, Firable, Freed, Detach;
      ghost var s := St();
      var conds := awaits[id].conds;
      assert forall i | 0 <= i < |conds| :: conds[i].trigger.counter.On? && conds[i].trigger.counter.id in s.counters by {
        CondsFirable(s, id);
      }
      FreedNone(counters, id, conds);
      for k := 0 to |conds|
        invariant Freed(s.counters, counters, id, conds, k)
        invariant awaits == s.awaits
      {
        var counter := conds[k].trigger.counter;
        FreedStep(s, counters, id, k);
        FreedFlags(s.counters, counters, id, conds, k, counter.id);
        if !counters[counter.id].beingDestroyed {
          DeleteTriggerFromCounter(OfAwait(id, k), counter);
        }
      }
      FreedAll(s, counters, id);
      awaits := awaits - {id};
    }

    /** SyncAwaitTriggerFired. */
    method AwaitTriggerFired(id: nat)
      requires Lists(St()) && Firable(St()) && id in awaits
      modifies this
      ensures St() == AwaitFired(old(St()), id)
      ensures Unblocked(old(St()), St(), id)
    {
      hide Lists, Due, Strip, StripAll, OffLists, Told;
      AwaitFiredMeans(St(), id);
      ghost var s := St();
      var client, conds := awaits[id].client, awaits[id].conds;
      var due: seq<Condition> := [];
      for k := 0 to |conds|
        invariant due == DueOf(s, conds[..k])
      {
        assert conds[..k + 1][..k] == conds[..k];
        if Due(State(counters, alarms, awaits, ignored, log), conds[k]) {
          due := due + [conds[k]];
        }
      }
      assert conds[..|conds|] == conds;
      log := log + CounterEvents(State(counters, alarms, awaits, ignored, log), client, due) + [AttendClient(client)];
      ignored := ignored - {client};
      assert Lists(St()) && Firable(St()) by { SameButClients(s, St()); }
      FreeAwait(id);
    }

    // ---------- Counters ----------

    /** The trigger's TriggerFired function. */
    method TriggerFired(ref: TriggerRef)
      requires Firable(St()) && Exists(St(), ref) && Sound(St())
      requires TriggerOf(St(), ref).testType.Comparison() ==> Triggered(St(), ref, 0)
      modifies this
      ensures St() == Fire(old(St()), ref)
    {
      hide Triggered, Firable;
      match ref
      case OfAlarm(id) => AlarmTriggerFired(id);
      case OfAwait(id, _) => AwaitTriggerFired(id);
    }

    /** SyncChangeCounter; the node after the current one stays on the list while the current trigger fires. */
    method SyncChangeCounter(c: nat, newval: int)
      requires Inv(St()) && Firable(St()) && c in counters && IsInt64(newval)
      modifies this
      ensures St() == CounterChanged(old(St()), c, newval)
      ensures Reacts(old(St()), St(), c, newval)
    {
      hide Reacts, Inv, Firable, Sound, Walkable, FireAll, Triggered, Fire, TriggerOf;
      var oldval := counters[c].value;
      var list := counters[c].triglist;
      ChangeReacts(St(), c, newval);
      ListsAreWalkable(St(), c, newval);
      WithValueKeeps(St(), c, newval);
      StillListed(St(), c, newval);
      counters := counters[c := counters[c].(value := newval)];
      ghost var s1 := St();
      assert list[0..] == list;
      for i := 0 to |list|
        invariant Sound(St()) && Walkable(St(), list[i..]) && Firable(St())
        invariant FireAll(s1, list, oldval) == FireAll(St(), list[i..], oldval)
        invariant StillOn(St(), c, list[i..])
      {
        var ref := list[i];
        assert list[i..][0] == ref && list[i..][1..] == list[i + 1..];
        ghost var s := St();
        WalkOn(s, list[i..], oldval);
        StaysOn(s, c, list[i..], oldval);
        HeadExists(s, list[i..]);
        var fires := Triggered(State(counters, alarms, awaits, ignored, log), ref, oldval);
        if fires {
          ComparisonIgnoresOld(s, ref, oldval, 0);
          FireKeepsSound(s, ref);
          TriggerFired(ref);
        }
        assert St() == After(s, ref, oldval);
        SoundIsFirable(St());
      }
      EmptyWalk(St(), oldval);
    }

    method SetCounter(c: nat, value: int) returns (status: Status)
      requires Inv(St()) && IsInt64(value)
      modifies this
      ensures (St(), status) == SetCounterRequest(old(St()), c, value)
      ensures status == if c in old(counters) then Success else BadCounter
      ensures if status == Success then Reacts(old(St()), St(), c, value) else St() == old(St())
      ensures Inv(St())
    {
      hide Inv, CounterChanged, Reacts;
      SetCounterKeeps(St(), c, value);
      if c !in counters {
        return BadCounter;
      }
      InvParts(St());
      SoundIsFirable(St());
      SyncChangeCounter(c, value);
      return Success;
    }

    method ChangeCounter(c: nat, amount: int) returns (status: Status)
      requires Inv(St())
      modifies this
      ensures (St(), status) == ChangeCounterRequest(old(St()), c, amount)
      ensures status == if c !in old(counters) then BadCounter
                        else if IsInt64(old(counters[c].value) + amount) then Success else BadValue
      ensures if status == Success then Reacts(old(St()), St(), c, old(counters[c].value) + amount) else St() == old(St())
      ensures Inv(St())
    {
      hide Inv, SetCounterRequest, Reacts;
      if c !in counters {
        return BadCounter;
      }
      var newvalue := counters[c].value + amount;
      if !IsInt64(newvalue) {
        return BadValue;
      }
      status := SetCounter(c, newvalue);
    }

    method CreateCounter(id: nat, value: int)
      requires Inv(St()) && id !in counters && IsInt64(value)
      modifies this
      ensures St() == WithNewCounter(old(St()), id, value)
      ensures counters == old(counters)[id := Counter(value, [], false)]
      ensures Inv(St())
    {
      hide Inv;
      WithNewCounterKeeps(St(), id, value);
      counters := counters[id := Counter(value, [], false)];
    }

    /** CounterDestroyed of the first trigger; its node is freed. */
    method FreeFirst(c: nat)
      requires Firable(St()) && c in counters && Dying(St(), c)
      requires counters[c].triglist != [] && Exists(St(), counters[c].triglist[0]) && counters[c].beingDestroyed
      modifies this
      ensures St() == DestroyedOne(old(St()), c)
      ensures NodeFreed(old(St()), St(), c)
    {
      hide Dying, Firable, NodeFreed;
      NodeFreedIs(St(), c);
      Popped(St(), c);
      var ref := counters[c].triglist[0];
      counters := counters[c := counters[c].(triglist := counters[c].triglist[1..])];
      match ref
      case OfAlarm(id) =>
        var a := alarms[id];
        log := log + [AlarmEvent(State(counters, alarms, awaits, ignored, log), id, Inactive)];
        alarms := alarms[id := a.(trigger := a.trigger.(counter := NoCounter), state := Inactive)];
      case OfAwait(id, _) =>
        AwaitTriggerFired(id);
    }

    /** ProcSyncDestroyCounter with FreeCounter. */
    method DestroyCounter(c: nat) returns (status: Status)
      requires Inv(St())
      modifies this
      ensures if c in old(counters) then status == Success && St() == CounterDestroyed(old(St()), c)
              else status == BadCounter && St() == old(St())
      ensures c in old(counters) ==> CounterGone(old(St()), St(), c)
      ensures Inv(St())
    {
      hide Inv, Dying, DestroyedOne, Firable, CounterDestroyed, CounterGone, NodeFreed;
      if c !in counters {
        return BadCounter;
      }
      ghost var s := St();
      CounterDestroyedKeeps(s, c);
      MarkDyingKeeps(s, c);
      CounterDestroyedIs(s, c);
      CounterGoneIs(s, c);
      counters := counters[c := counters[c].(beingDestroyed := true)];
      ghost var all := DestroyAll(St(), c);
      while counters[c].triglist != []
        invariant c in counters && Dying(St(), c) && DestroyAll(St(), c) == all
        decreases |counters[c].triglist|
      {
        DyingIsFirable(St(), c);
        DyingFlag(St(), c);
        DestroyedOneKeeps(St(), c);
        FreeFirst(c);
      }
      counters := counters - {c};
      return Success;
    }

    // ---------- Await ----------

    /** The last loop of ProcSyncAwait: the first condition that is true already fires the await; once is enough. */
    method CheckConditions(id: nat)
      requires Sound(St()) && Firable(St()) && id in awaits
      modifies this
      ensures St() == if SomeTrue(old(St()), id) then AwaitFired(old(St()), id) else old(St())
    {
      hide Firable, Triggered, Sound;
      ghost var b := St();
      var items := |awaits[id].conds|;
      for i := 0 to items
        invariant St() == b
        invariant forall j: nat | j < i :: !Triggered(b, OfAwait(id, j), CurrentValue(b, OfAwait(id, j)))
      {
        var now := State(counters, alarms, awaits, ignored, log);
        if Triggered(now, OfAwait(id, i), CurrentValue(now, OfAwait(id, i))) {
          SoundLists(b);
          AwaitTriggerFired(id);
          return;
        }
      }
    }

    /** SyncInitTrigger for one wait condition. */
    method RegisterCondition(id: nat, w: WaitCondition) returns (status: Status)
      requires id in awaits
      modifies this
      ensures if ConditionOk(old(St()), w) then
                status == Success && St() == AddCondition(old(St()), id, ConditionFor(old(St()), w))
              else
                && status == (if w.counter.On? && w.counter.id in old(counters) then BadValue else BadCounter)
                && St() == old(St())
      ensures status == Success <==> SumFits(old(St()), w)
      ensures status == Success ==> var k := old(|awaits[id].conds|);
              && id in awaits && |awaits[id].conds| == k + 1 && SetUp(old(St()), w, awaits[id].conds[k])
              && w.counter.id in counters && OfAwait(id, k) in counters[w.counter.id].triglist
    {
      ConditionMeans(St(), w);
      var now := State(counters, alarms, awaits, ignored, log);
      if !ConditionOk(now, w) {
        return if w.counter.On? && w.counter.id in counters then BadValue else BadCounter;
      }
      var cond := ConditionFor(now, w);
      AddTriggerToCounter(OfAwait(id, |awaits[id].conds|), cond.trigger.counter);
      awaits := awaits[id := awaits[id].(conds := awaits[id].conds + [cond])];
      status := Success;
    }

    /** FreeResource on a half-registered await. */
    method RemoveConditions(ghost s: State, ghost client: nat, id: nat, ghost ws: seq<WaitCondition>, ghost i: nat)
      requires Inv(s) && AwaitInScope(s, client, id, ws) && i <= |ws|
      requires forall j | 0 <= j < i :: ConditionOk(s, ws[j])
      requires St() == AddConditions(s, id, client, ConditionsFor(s, ws[..i]))
      modifies this
      ensures St() == s
    {
      hide Inv, Registered, Lists, Firable, ConditionOk, StripAll, AddConditions, ConditionsFor, AwaitInScope;
      assert id !in s.awaits by { FreshId(s, client, id, ws); }
      ghost var done := ConditionsFor(s, ws[..i]);
      PrefixRegistered(s, client, id, ws, i);
      AwaitUndone(s, id, client, done);
      AddConditionsFrame(s, id, client, done);
      FreeAwait(id);
    }

    /** The first half of ProcSyncAwait: the conditions are registered, or all of them removed again after an error. */
    method RegisterConditions(client: nat, id: nat, ws: seq<WaitCondition>) returns (status: Status)
      requires Inv(St()) && AwaitInScope(St(), client, id, ws) && |ws| > 0
      modifies this
      ensures if forall i | 0 <= i < |ws| :: ConditionOk(old(St()), ws[i]) then
                status == Success && St() == AddConditions(old(St()), id, client, ConditionsFor(old(St()), ws))
              else status == AwaitError(old(St()), ws) && St() == old(St())
    {
      hide Inv, ConditionOk, AddCondition, Extends, ConditionFor;
      ghost var s := St();
      awaits := awaits[id := SyncModel.Await(client, [])];
      for i := 0 to |ws|
        invariant forall j | 0 <= j < i :: ConditionOk(s, ws[j])
        invariant St() == AddConditions(s, id, client, ConditionsFor(s, ws[..i]))
      {
        ghost var done := ConditionsFor(s, ws[..i]);
        AddConditionsFrame(s, id, client, done);
        SameConditions(s, St(), id, client, done, ws[i]);
        status := RegisterCondition(id, ws[i]);
        if status != Success {
          FirstError(s, ws, i);
          RemoveConditions(s, client, id, ws, i);
          return;
        }
        assert ConditionsFor(s, ws[..i + 1]) == done + [ConditionFor(s, ws[i])];
        assert (done + [ConditionFor(s, ws[i])])[..|done|] == done;
      }
      assert ws[..|ws|] == ws;
      status := Success;
    }

    /** ProcSyncAwait. */
    method Await(client: nat, id: nat, ws: seq<WaitCondition>) returns (status: Status)
      requires Inv(St()) && AwaitInScope(St(), client, id, ws)
      modifies this
      ensures (St(), status) == AwaitRequest(old(St()), client, id, ws)
      ensures AwaitAnswer(old(St()), ws, status)
      ensures if status == Success then AwaitDone(old(St()), St(), client, id, ws) else St() == old(St())
      ensures Inv(St())
    {
      hide AwaitAnswer, AwaitDone, Inv, ConditionOk, AddConditions, SomeTrue, AwaitFired, ConditionsFor, AwaitError, Sound;
      ghost var s := St();
      AwaitRequestKeeps(s, client, id, ws);
      AwaitAnswerIs(s, client, id, ws);
      SuccessIsDone(s, client, id, ws);
      if |ws| == 0 {
        return BadValue;
      }
      status := RegisterConditions(client, id, ws);
      if status == Success {
        AwaitingKeeps(s, client, id, ws);
        ignored := ignored + {client};
        log := log + [IgnoreClient(client)];
        assert St() == Awaiting(s, client, id, ws);
        CheckConditions(id);
      }
    }

    // ---------- Alarm requests ----------

    /**
     * SyncInitTrigger on the trigger of an alarm: `changed` is the counter, if the
     * mask names one, `setsType` tells whether it names a test type, and `setsValue`
     * whether it names a value or value type. An error after the counter has changed leaves the trigger off every list.
     */
    method InitTrigger(id: nat, changed: Option<CounterRef>, setsType: bool, setsValue: bool) returns (status: Status)
      requires id in alarms
      modifies `alarms, `counters
      ensures status == Initialized(old(St()), old(alarms)[id].trigger, changed, setsType, setsValue).1
      ensures St() == InitState(old(St()), id, changed, setsType, setsValue)
      ensures TriggerSetUp(old(St()), St(), id, changed, setsType, setsValue, status)
    {
      TriggerSetUpIs(St(), id, changed, setsType, setsValue);
      hide TriggerSetUp, Attach, Detach, TestValue, FailedValue, SameValues;
      ghost var s := St();
      var t := alarms[id].trigger;
      var before := t.counter;
      if changed.Some? && changed.value.On? && changed.value.id !in counters {
        assert alarms[id := alarms[id].(trigger := t)] == alarms;
        return BadCounter;
      }
      t := t.(counter := Or(changed, before));
      if t.counter != before {
        DeleteTriggerFromCounter(OfAlarm(id), before);
      }
      if setsType {
        t := t.(check := t.testType);
      }
      if setsValue {
        SameTestValue(s, St(), t, OfAlarm(id), before);
        var now := State(counters, alarms, awaits, ignored, log);
        var v := TestValue(now, t);
        if v.None? {
          alarms := alarms[id := alarms[id].(trigger := t.(testValue := FailedValue(now, t)))];
          return if t.counter.On? then BadValue else BadMatch;
        }
        t := t.(testValue := v.value);
      }
      alarms := alarms[id := alarms[id].(trigger := t)];
      if t.counter != before {
        AddTriggerToCounter(OfAlarm(id), t.counter);
      }
      status := Success;
    }

    /** SyncChangeAlarmAttributes; an error may leave the alarm with part of the attributes stored. */
    method ChangeAlarmAttributes(id: nat, attrs: Attributes) returns (status: Status)
      requires id in alarms && AttributesOk(attrs) && AlarmOk(alarms[id])
      modifies `alarms, `counters
      ensures status == Changed(old(St()), old(alarms[id]), attrs).1
      ensures status == Success ==> St() == Rebound(old(St()), id, Changed(old(St()), old(alarms[id]), attrs).0)
      ensures id in alarms && alarms == old(alarms)[id := alarms[id]]
      ensures status != Success ==> St() == HalfChanged(old(St()), id, attrs)
    {
      StepsOfChange(St(), id, attrs);
      hide AlarmOk, GoodDelta, AttributesOk, HalfChanged, Changed, Rebound, Initialized, Relisted;
      var a := alarms[id];
      alarms := alarms[id := StoredAlarm(a, attrs)];
      if BadSign(a, attrs) {
        return BadMatch;
      }
      status := InitTrigger(id, attrs.counter, attrs.testType.Some?, attrs.valueType.Some? || attrs.value.Some?);
      if status == Success {
        alarms := alarms[id := alarms[id].(state := Active)];
      }
    }

    /** An alarm whose trigger is true already goes off. */
    method CheckAlarm(id: nat)
      requires Firable(St()) && id in alarms
      modifies `alarms, `log
      ensures St() == CheckedAlarm(old(St()), id)
    {
      hide Firable, AlarmFired;
      var now := State(counters, alarms, awaits, ignored, log);
      if Triggered(now, OfAlarm(id), CurrentValue(now, OfAlarm(id))) {
        ComparisonIgnoresOld(now, OfAlarm(id), CurrentValue(now, OfAlarm(id)), 0);
        AlarmTriggerFired(id);
      }
    }

    /** ProcSyncChangeAlarm. */
    method ChangeAlarm(id: nat, attrs: Attributes) returns (status: Status)
      requires Inv(St()) && AttributesOk(attrs)
      modifies this
      ensures status == ChangeAlarmRequest(old(St()), id, attrs).1
      ensures ChangeAlarmRequest(old(St()), id, attrs).0.Some? ==>
                St() == ChangeAlarmRequest(old(St()), id, attrs).0.value && Inv(St())
      ensures ChangeAlarmRequest(old(St()), id, attrs).0.None? ==> St() == HalfChanged(old(St()), id, attrs)
      ensures if id !in old(alarms) then status == BadAlarm && St() == old(St())
              else
                && status == StatusOf(old(St()), old(alarms[id]), attrs)
                && if status == Success then AlarmChanged(old(St()), St(), id, attrs) else AlarmLeft(old(St()), St(), id, attrs)
    {
      hide AlarmChanged, AlarmLeft, StatusOf, Inv, AlarmOk, Rebound, TestValue, GoodDelta, Triggered, AlarmFired, HalfChanged, FailsHarmlessly;
      ghost var s := St();
      if id !in alarms {
        return BadAlarm;
      }
      AlarmIsOk(s, id);
      ChangeAlarmKeeps(s, id, attrs);
      ChangeMeans(s, id, attrs);
      status := ChangeAlarmAttributes(id, attrs);
      if status == Success {
        ChangedCounter(s, id, attrs);
        ReboundAlarmKeeps(s, id, Changed(s, s.alarms[id], attrs).0);
        CheckAlarm(id);
      }
    }

    /** ProcSyncCreateAlarm. */
    method CreateAlarm(id: nat, attrs: Attributes) returns (status: Status)
      requires Inv(St()) && AttributesOk(attrs) && id !in alarms
      modifies this
      ensures status == CreateAlarmRequest(old(St()), id, attrs).1
      ensures status == Success ==> St() == CreateAlarmRequest(old(St()), id, attrs).0
      ensures status != Success ==> alarms == old(alarms) && counters == old(counters)
      ensures status == StatusOf(old(St()), NEW_ALARM, attrs)
      ensures if status == Success then AlarmCreated(old(St()), St(), id, attrs) else St() == old(St())
      ensures Inv(St())
    {
      hide AlarmCreated, StatusOf, Inv, AlarmOk, TestValue, GoodDelta, Triggered, AlarmFired, Attach, CheckedAlarm;
      ghost var s := St();
      CreateAlarmKeeps(s, id, attrs);
      CreateMeans(s, id, attrs);
      WithNewAlarmKeeps(s, id);
      alarms := alarms[id := NEW_ALARM];
      ghost var s0 := St();
      AlarmIsOk(s0, id);
      status := ChangeAlarmAttributes(id, attrs);
      if status != Success {
        alarms := alarms - {id};
        return;
      }
      ghost var a := Changed(s0, NEW_ALARM, attrs).0;
      ChangedCounter(s0, id, attrs);
      if alarms[id].trigger.counter.NoCounter? {
        alarms := alarms[id := alarms[id].(state := Inactive)];
      } else {
        ReboundAlarmKeeps(s0, id, a);
        CheckAlarm(id);
      }
    }

    /** ProcSyncDestroyAlarm with FreeAlarm. */
    method DestroyAlarm(id: nat) returns (status: Status)
      requires Inv(St())
      modifies this
      ensures (St(), status) == DestroyAlarmRequest(old(St()), id)
      ensures if id in old(alarms) then status == Success && AlarmGone(old(St()), St(), id)
              else status == BadAlarm && St() == old(St())
      ensures Inv(St())
    {
      hide AlarmGone, Inv, Detach;
      ghost var s := St();
      DestroyAlarmKeeps(s, id);
      if id !in alarms {
        return BadAlarm;
      }
      InvParts(s);
      SoundIsFirable(s);
      AlarmGoneIs(s, id);
      log := log + [AlarmEvent(State(counters, alarms, awaits, ignored, log), id, Destroyed)];
      DeleteTriggerFromCounter(OfAlarm(id), alarms[id].trigger.counter);
      alarms := alarms - {id};
      return Success;
    }
  }
}
