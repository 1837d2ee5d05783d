/** The requests of the SYNC extension, and what every run of them keeps. */
module SyncRequests {
  import opened SyncModel
  import opened SyncSteps

  datatype Status = Success | BadAlarm | BadCounter | BadMatch | BadValue

  // ---------- Registration of one trigger ----------

  /** SyncDeleteTriggerFromCounter. */
  function Detach(counters: map<nat, Counter>, ref: TriggerRef, counter: CounterRef): map<nat, Counter> {
    if counter.On? && counter.id in counters then
      counters[counter.id := counters[counter.id].(triglist := Remove(counters[counter.id].triglist, ref))]
    else counters
  }

  /** SyncAddTriggerToCounter: nothing happens when it is already there. */
  function Attach(counters: map<nat, Counter>, ref: TriggerRef, counter: CounterRef): map<nat, Counter> {
    if counter.On? && counter.id in counters && ref !in counters[counter.id].triglist then
      counters[counter.id := counters[counter.id].(triglist := [ref] + counters[counter.id].triglist)]
    else counters
  }

  /** The test value that SyncInitTrigger computes, or the error. */
  function TestValue(s: State, t: Trigger): Option<int> {
    if t.valueType == Absolute then Some(t.waitValue)
    else if t.counter.On? && t.counter.id in s.counters && IsInt64(s.counters[t.counter.id].value + t.waitValue) then
      Some(s.counters[t.counter.id].value + t.waitValue)
    else None
  }

  /** What is left as the test value when there is none to compute: the sum is stored although it has overflowed. */
  function FailedValue(s: State, t: Trigger): int {
    if t.counter.On? && t.counter.id in s.counters then Wrap64(s.counters[t.counter.id].value + t.waitValue) else t.testValue
  }

  // ---------- Await ----------

  datatype WaitCondition = WaitCondition(counter: CounterRef, valueType: ValueType, waitValue: int, testType: TestType, threshold: int)

  /** SyncInitTrigger for one wait condition. */
  predicate ConditionOk(s: State, w: WaitCondition) {
    && w.counter.On? && w.counter.id in s.counters
    && TestValue(s, Trigger(w.counter, w.valueType, w.waitValue, w.testType, 0, w.testType)).Some?
  }

  function ConditionFor(s: State, w: WaitCondition): Condition
    requires ConditionOk(s, w)
  {
    var t := Trigger(w.counter, w.valueType, w.waitValue, w.testType, 0, w.testType);
    Condition(t.(testValue := TestValue(s, t).value), w.threshold)
  }

  /** One more condition of await `id` is registered. */
  function AddCondition(s: State, id: nat, cond: Condition): State
    requires id in s.awaits
  {
    var a := s.awaits[id];
    s.(awaits := s.awaits[id := a.(conds := a.conds + [cond])],
       counters := Attach(s.counters, OfAwait(id, |a.conds|), cond.trigger.counter))
  }

  /** The await as far as its first conditions have been registered. */
  function AddConditions(s: State, id: nat, client: nat, conds: seq<Condition>): (s': State)
    requires id !in s.awaits
    ensures id in s'.awaits && s'.awaits[id] == Await(client, conds)
  {
    if conds == [] then s.(awaits := s.awaits[id := Await(client, [])])
    else AddCondition(AddConditions(s, id, client, conds[..|conds| - 1]), id, conds[|conds| - 1])
  }

  function ConditionsFor(s: State, ws: seq<WaitCondition>): (conds: seq<Condition>)
    requires forall i | 0 <= i < |ws| :: ConditionOk(s, ws[i])
    ensures |conds| == |ws|
    ensures forall i | 0 <= i < |ws| :: conds[i] == ConditionFor(s, ws[i])
  {
    seq(|ws|, i requires 0 <= i < |ws| => ConditionFor(s, ws[i]))
  }

  /** The client is ignored from now on. */
  function Block(s: State, client: nat): State {
    s.(ignored := s.ignored + {client}, log := s.log + [IgnoreClient(client)])
  }

  function CurrentValue(s: State, ref: TriggerRef): int
    requires Exists(s, ref)
  {
    var t := TriggerOf(s, ref);
    if t.counter.On? && t.counter.id in s.counters then s.counters[t.counter.id].value else 0
  }

  /** Some condition of the await is true already. */
  predicate SomeTrue(s: State, id: nat)
    requires id in s.awaits
  {
    exists i: nat | i < |s.awaits[id].conds| :: Triggered(s, OfAwait(id, i), CurrentValue(s, OfAwait(id, i)))
  }

  /** The await is registered and its client is blocked. */
  function Awaiting(s: State, client: nat, id: nat, ws: seq<WaitCondition>): (s': State)
    requires id !in s.awaits && forall i | 0 <= i < |ws| :: ConditionOk(s, ws[i])
    ensures id in s'.awaits
  {
    Block(AddConditions(s, id, client, ConditionsFor(s, ws)), client)
  }

  /** The trigger references of await `id`. */
  function AwaitRefs(id: nat, n: nat): (refs: seq<TriggerRef>)
    ensures forall ref :: ref in refs <==> ref.OfAwait? && ref.id == id && ref.k < n
  {
    var refs := seq(n, k requires 0 <= k < n => OfAwait(id, k));
    assert forall ref: TriggerRef | ref.OfAwait? && ref.id == id && ref.k < n :: refs[ref.k] == ref;
    refs
  }

  /** Counters as they are while an await is being registered. */
  ghost predicate Registering(s: State, id: nat) {
    && id in s.awaits && Registered(s) && AlarmsOk(s)
    && QuietBut(s, AwaitRefs(id, |s.awaits[id].conds|))
  }

  lemma AddConditionKeepsLists(s: State, id: nat, cond: Condition)
    requires id in s.awaits && Registered(s)
    requires cond.trigger.counter.On? && cond.trigger.counter.id in s.counters
    requires AwaitOk(s.awaits[id].conds + [cond])
    ensures Registered(AddCondition(s, id, cond))
  {
    var s', n := AddCondition(s, id, cond), |s.awaits[id].conds|;
    var me, d := OfAwait(id, n), cond.trigger.counter.id;
    assert forall ref :: Exists(s', ref) <==> Exists(s, ref) || ref == me;
    assert forall ref | Exists(s, ref) :: TriggerOf(s', ref) == TriggerOf(s, ref);
    assert ListOk(s, d, s.counters[d].triglist);
    forall ref | Exists(s', ref)
      ensures OnList(s', ref)
    {
      if ref != me {
        assert OnList(s, ref);
      }
    }
    forall c | c in s'.counters
      ensures ListOk(s', c, s'.counters[c].triglist)
    {
      assert ListOk(s, c, s.counters[c].triglist);
    }
    forall i | i in s'.awaits
      ensures AwaitOk(s'.awaits[i].conds)
    {
      assert i != id ==> AwaitOk(s.awaits[i].conds);
    }
  }

  lemma AddConditionKeepsQuiet(s: State, id: nat, cond: Condition)
    requires id in s.awaits && AlarmsOk(s) && QuietBut(s, AwaitRefs(id, |s.awaits[id].conds|))
    ensures AlarmsOk(AddCondition(s, id, cond))
    ensures var s' := AddCondition(s, id, cond); QuietBut(s', AwaitRefs(id, |s'.awaits[id].conds|))
  {
    var s' := AddCondition(s, id, cond);
    assert forall c | c in s'.counters :: c in s.counters && s'.counters[c].value == s.counters[c].value;
    forall ref | Exists(s', ref) && ref !in AwaitRefs(id, |s'.awaits[id].conds|)
      ensures Settled(s', ref)
    {
      assert Exists(s, ref) && Settled(s, ref);
    }
  }

  lemma AddConditionKeeps(s: State, id: nat, cond: Condition)
    requires Registering(s, id)
    requires cond.trigger.counter.On? && cond.trigger.counter.id in s.counters
    requires AwaitOk(s.awaits[id].conds + [cond])
    ensures Registering(AddCondition(s, id, cond), id)
  {
    AddConditionKeepsLists(s, id, cond);
    AddConditionKeepsQuiet(s, id, cond);
  }

  lemma AwaitOkPrefix(conds: seq<Condition>, n: nat)
    requires AwaitOk(conds) && n <= |conds|
    ensures AwaitOk(conds[..n])
  {}

  lemma StartAwait(s: State, id: nat, client: nat)
    requires Inv(s) && id !in s.awaits
    ensures Registering(AddConditions(s, id, client, []), id)
  {
    var s' := AddConditions(s, id, client, []);
    assert forall ref :: Exists(s', ref) <==> Exists(s, ref);
    assert forall ref | Exists(s, ref) :: TriggerOf(s', ref) == TriggerOf(s, ref);
    forall ref | Exists(s', ref)
      ensures OnList(s', ref) && Settled(s', ref)
    {
      assert OnList(s, ref) && Settled(s, ref);
    }
    forall c | c in s'.counters
      ensures ListOk(s', c, s'.counters[c].triglist)
    {
      assert ListOk(s, c, s.counters[c].triglist);
    }
  }

  /** `s'` is `s` with await `id` on top; only trigger lists differ otherwise. */
  ghost predicate Extends(s: State, s': State, id: nat, client: nat, conds: seq<Condition>) {
    && s'.alarms == s.alarms && s'.ignored == s.ignored && s'.log == s.log
    && s'.awaits == s.awaits[id := Await(client, conds)]
    && s'.counters.Keys == s.counters.Keys
    && forall c | c in s.counters :: s'.counters[c] == s.counters[c].(triglist := s'.counters[c].triglist)
  }

  lemma ExtendsStep(s: State, m: State, id: nat, client: nat, conds: seq<Condition>, cond: Condition)
    requires Extends(s, m, id, client, conds)
    ensures Extends(s, AddCondition(m, id, cond), id, client, conds + [cond])
  {}

  lemma {:induction false} AddConditionsFrame(s: State, id: nat, client: nat, conds: seq<Condition>)
    requires id !in s.awaits
    ensures Extends(s, AddConditions(s, id, client, conds), id, client, conds)
  {
    if conds != [] {
      hide Extends, AddCondition;
      var n := |conds| - 1;
      AddConditionsFrame(s, id, client, conds[..n]);
      assert conds[..n] + [conds[n]] == conds;
      ExtendsStep(s, AddConditions(s, id, client, conds[..n]), id, client, conds[..n], conds[n]);
    }
  }

  lemma LastCondition(s: State, m: State, id: nat, client: nat, conds: seq<Condition>)
    requires conds != [] && AwaitOk(conds) && forall i | 0 <= i < |conds| :: conds[i].trigger.counter.id in s.counters
    requires Extends(s, m, id, client, conds[..|conds| - 1]) && Registering(m, id)
    ensures Registering(AddCondition(m, id, conds[|conds| - 1]), id)
  {
    hide Registering;
    var n := |conds| - 1;
    assert m.awaits[id].conds + [conds[n]] == conds;
    AddConditionKeeps(m, id, conds[n]);
  }

  lemma {:induction false} AddConditionsKeeps(s: State, id: nat, client: nat, conds: seq<Condition>)
    requires Inv(s) && id !in s.awaits
    requires AwaitOk(conds) && forall i | 0 <= i < |conds| :: conds[i].trigger.counter.id in s.counters
    ensures Registering(AddConditions(s, id, client, conds), id)
  {
    hide Inv, Registering;
    if conds == [] {
      StartAwait(s, id, client);
    } else {
      hide AddCondition, Extends;
      var n := |conds| - 1;
      AwaitOkPrefix(conds, n);
      AddConditionsKeeps(s, id, client, conds[..n]);
      AddConditionsFrame(s, id, client, conds[..n]);
      LastCondition(s, AddConditions(s, id, client, conds[..n]), id, client, conds);
    }
  }

  lemma StripAttached(counters: map<nat, Counter>, id: nat, k: nat, counter: CounterRef)
    requires forall c | c in counters :: !counters[c].beingDestroyed
    ensures StripAll(Attach(counters, OfAwait(id, k), counter), id) == StripAll(counters, id)
  {
    if counter.On? && counter.id in counters {
      var list := counters[counter.id].triglist;
      assert Strip([OfAwait(id, k)] + list, id) == Strip(list, id);
    }
  }

  /** Registering and then removing an await leaves no trace: a failed request undoes itself. */
  lemma {:induction false} AwaitUndone(s: State, id: nat, client: nat, conds: seq<Condition>)
    requires Registered(s) && id !in s.awaits
    ensures var s' := AddConditions(s, id, client, conds);
            StripAll(s'.counters, id) == s.counters && s'.awaits - {id} == s.awaits
  {
    AddConditionsFrame(s, id, client, conds);
    if conds == [] {
      forall c | c in s.counters
        ensures Strip(s.counters[c].triglist, id) == s.counters[c].triglist
      {
        assert ListOk(s, c, s.counters[c].triglist);
        StripNothing(s.counters[c].triglist, id);
      }
    } else {
      hide Attach, StripAll, Lists, Listed;
      var n := |conds| - 1;
      AwaitUndone(s, id, client, conds[..n]);
      AddConditionsFrame(s, id, client, conds[..n]);
      StripAttached(AddConditions(s, id, client, conds[..n]).counters, id, n, conds[n].trigger.counter);
    }
  }

  /** What the source assumes of an Await: its own id is new, its client is not blocked, and no counter is named twice. */
  predicate AwaitInScope(s: State, client: nat, id: nat, ws: seq<WaitCondition>) {
    && id !in s.awaits && client !in s.ignored
    && forall i, j | 0 <= i < j < |ws| :: ws[i].counter != ws[j].counter
  }

  lemma ConditionsAreOk(s: State, ws: seq<WaitCondition>)
    requires forall i | 0 <= i < |ws| :: ConditionOk(s, ws[i])
    requires forall i, j | 0 <= i < j < |ws| :: ws[i].counter != ws[j].counter
    ensures AwaitOk(ConditionsFor(s, ws))
    ensures forall i | 0 <= i < |ws| :: ConditionsFor(s, ws)[i].trigger.counter.id in s.counters
  {}

  lemma InvParts(s: State)
    requires Inv(s)
    ensures Sound(s) && QuietBut(s, []) && Registered(s) && AlarmsOk(s) && Blocked(s) && ReleasedOnce(s)
  {}

  lemma BlockCounts(a: State, s: State, client: nat)
    requires ReleasedOnce(s) && client !in s.ignored
    requires a.ignored == s.ignored && a.log == s.log
    ensures ReleasedOnce(Block(a, client))
  {
    var b := Block(a, client);
    forall c: nat
      ensures multiset(b.log)[IgnoreClient(c)] == multiset(b.log)[AttendClient(c)] + if c in b.ignored then 1 else 0
    {
      assert multiset(b.log) == multiset(s.log) + multiset{IgnoreClient(client)};
    }
  }

  lemma BlockBlocks(a: State, s: State, client: nat, id: nat)
    requires Blocked(s) && id !in s.awaits && client !in s.ignored
    requires a.awaits.Keys == s.awaits.Keys + {id} && a.awaits[id].client == client
    requires forall i | i in s.awaits :: a.awaits[i] == s.awaits[i]
    requires a.ignored == s.ignored
    ensures Blocked(Block(a, client))
  {
    var b := Block(a, client);
    forall c | c in b.ignored
      ensures exists i :: i in b.awaits && b.awaits[i].client == c
    {
      if c == client {
        assert b.awaits[id].client == c;
      } else {
        var i :| i in s.awaits && s.awaits[i].client == c;
        assert b.awaits[i].client == c;
      }
    }
  }

  /** Registration and quiescence depend on the counters, the alarms and the awaits only. */
  lemma SameTables(a: State, b: State, rest: seq<TriggerRef>)
    requires Registered(a) && QuietBut(a, rest)
    requires b.counters == a.counters && b.alarms == a.alarms && b.awaits == a.awaits
    ensures Registered(b) && QuietBut(b, rest)
  {
    assert forall ref :: Exists(b, ref) <==> Exists(a, ref);
    forall ref | Exists(b, ref)
      ensures OnList(b, ref) && (ref !in rest ==> Settled(b, ref))
    {
      assert OnList(a, ref) && (ref !in rest ==> Settled(a, ref));
    }
    forall c | c in b.counters
      ensures ListOk(b, c, b.counters[c].triglist)
    {
      assert ListOk(a, c, a.counters[c].triglist);
    }
  }

  lemma BlockKeeps(a: State, s: State, client: nat, id: nat)
    requires Registering(a, id) && Blocked(s) && ReleasedOnce(s) && id !in s.awaits && client !in s.ignored
    requires a.awaits.Keys == s.awaits.Keys + {id} && a.awaits[id].client == client
    requires forall i | i in s.awaits :: a.awaits[i] == s.awaits[i]
    requires a.ignored == s.ignored && a.log == s.log
    ensures Sound(Block(a, client))
    ensures QuietBut(Block(a, client), AwaitRefs(id, |a.awaits[id].conds|))
  {
    hide Blocked, ReleasedOnce, Lists, Listed, QuietBut;
    SameTables(a, Block(a, client), AwaitRefs(id, |a.awaits[id].conds|));
    BlockBlocks(a, s, client, id);
    BlockCounts(a, s, client);
  }

  lemma AwaitingKeeps(s: State, client: nat, id: nat, ws: seq<WaitCondition>)
    requires Inv(s) && AwaitInScope(s, client, id, ws)
    requires forall i | 0 <= i < |ws| :: ConditionOk(s, ws[i])
    ensures Sound(Awaiting(s, client, id, ws)) && Firable(Awaiting(s, client, id, ws))
    ensures QuietBut(Awaiting(s, client, id, ws), AwaitRefs(id, |ws|))
    ensures |Awaiting(s, client, id, ws).awaits[id].conds| == |ws|
  {
    hide Sound, Firable, ConditionOk, Inv, QuietBut, Registering, Registered, Blocked, ReleasedOnce, AlarmsOk, AddConditions;
    ConditionsAreOk(s, ws);
    var conds := ConditionsFor(s, ws);
    AddConditionsKeeps(s, id, client, conds);
    AddConditionsFrame(s, id, client, conds);
    InvParts(s);
    BlockKeeps(AddConditions(s, id, client, conds), s, client, id);
    SoundIsFirable(Awaiting(s, client, id, ws));
  }

  /** The error of the first wait condition that has one. */
  function AwaitError(s: State, ws: seq<WaitCondition>): (e: Status)
    requires exists i :: 0 <= i < |ws| && !ConditionOk(s, ws[i])
    ensures e != Success
  {
    if !ConditionOk(s, ws[0]) then
      if ws[0].counter.On? && ws[0].counter.id in s.counters then BadValue else BadCounter
    else AwaitError(s, ws[1..])
  }

  /** ProcSyncAwait; after an error nothing has changed. */
  ghost function AwaitRequest(s: State, client: nat, id: nat, ws: seq<WaitCondition>): (State, Status)
    requires Inv(s) && AwaitInScope(s, client, id, ws)
  {
    if |ws| == 0 then (s, BadValue)
    else if forall i | 0 <= i < |ws| :: ConditionOk(s, ws[i]) then
      var b := Awaiting(s, client, id, ws);
      AwaitingKeeps(s, client, id, ws);
      (if SomeTrue(b, id) then AwaitFired(b, id) else b, Success)
    else (s, AwaitError(s, ws))
  }

  lemma FireKeepsSoundAwait(b: State, id: nat)
    requires Sound(b) && Firable(b) && id in b.awaits
    ensures Sound(AwaitFired(b, id))
  {
    hide Lists, Listed, Blocked, ReleasedOnce, AlarmsOk, Firable;
    AllListed(b, id);
    AwaitFiredKeepsLists(b, id);
    AwaitFiredKeepsTriggers(b, id);
    AwaitFiredUnblocks(b, id);
    AwaitFiredReleasesOnce(b, id);
  }

  lemma AwaitFires(b: State, id: nat, n: nat)
    requires Sound(b) && Firable(b) && id in b.awaits && n == |b.awaits[id].conds| > 0
    requires QuietBut(b, AwaitRefs(id, n))
    ensures Inv(AwaitFired(b, id))
  {
    hide Sound, AwaitFired, Firable, Settled, Inv;
    FireKeepsSoundAwait(b, id);
    AwaitGone(b, id);
    AwaitFiredKeepsTriggers(b, id);
    SoundQuiet(AwaitFired(b, id));
  }

  lemma AwaitWaits(b: State, id: nat, n: nat)
    requires Sound(b) && Firable(b) && id in b.awaits && n == |b.awaits[id].conds|
    requires QuietBut(b, AwaitRefs(id, n)) && !SomeTrue(b, id)
    ensures Inv(b)
  {
    hide Sound, Settled, Inv;
    forall ref | Exists(b, ref)
      ensures Settled(b, ref)
    {
      if ref in AwaitRefs(id, n) {
        FalseIsSettled(b, ref, CurrentValue(b, ref));
      }
    }
    SoundQuiet(b);
  }

  lemma AwaitAccepted(s: State, client: nat, id: nat, ws: seq<WaitCondition>)
    requires Inv(s) && AwaitInScope(s, client, id, ws)
    requires |ws| > 0 && forall i | 0 <= i < |ws| :: ConditionOk(s, ws[i])
    ensures var b := Awaiting(s, client, id, ws);
            Firable(b) && if SomeTrue(b, id) then Inv(AwaitFired(b, id)) else Inv(b)
  {
    hide Inv, Sound, QuietBut, AwaitFired, Awaiting, SomeTrue, Firable, ConditionOk;
    var b := Awaiting(s, client, id, ws);
    AwaitingKeeps(s, client, id, ws);
    if SomeTrue(b, id) {
      AwaitFires(b, id, |ws|);
    } else {
      AwaitWaits(b, id, |ws|);
    }
  }

  /** An await that is accepted keeps every invariant: it fires at once, or none of its comparisons is true. */
  lemma AwaitRequestKeeps(s: State, client: nat, id: nat, ws: seq<WaitCondition>)
    requires Inv(s) && AwaitInScope(s, client, id, ws)
    ensures Inv(AwaitRequest(s, client, id, ws).0)
  {
    hide Inv, Sound, QuietBut, AwaitFired, Awaiting, SomeTrue, Firable, ConditionOk, AwaitInScope;
    if |ws| > 0 && forall i | 0 <= i < |ws| :: ConditionOk(s, ws[i]) {
      AwaitAccepted(s, client, id, ws);
    }
  }

  // ---------- Alarms ----------

  /** The attributes that a request names; Some where its mask has the bit. */
  datatype Attributes = Attributes(counter: Option<CounterRef>, valueType: Option<ValueType>, value: Option<int>,
                                   testType: Option<TestType>, delta: Option<int>)

  predicate AttributesOk(attrs: Attributes) {
    && (attrs.value.Some? ==> IsInt64(attrs.value.value))
    && (attrs.delta.Some? ==> IsInt64(attrs.delta.value))
  }

  function Or<T>(o: Option<T>, default: T): T {
    if o.Some? then o.value else default
  }

  /** The trigger with the attributes stored, before SyncInitTrigger; it is still checked as before. */
  function Stored(t: Trigger, attrs: Attributes): Trigger {
    t.(valueType := Or(attrs.valueType, t.valueType), waitValue := Or(attrs.value, t.waitValue),
       testType := Or(attrs.testType, t.testType))
  }

  /** The alarm that SyncChangeAlarmAttributes makes of `a`, or the error. */
  function Changed(s: State, a: Alarm, attrs: Attributes): (r: (Alarm, Status))
    requires AttributesOk(attrs) && AlarmOk(a)
    ensures r.1 == Success ==> AlarmOk(r.0) && r.0.state == Active
  {
    var t := Stored(a.trigger, attrs).(counter := Or(attrs.counter, a.trigger.counter), check := Or(attrs.testType, a.trigger.check));
    var delta := Or(attrs.delta, a.delta);
    if (attrs.delta.Some? || attrs.testType.Some?) && !GoodDelta(t.testType, delta) then (a, BadMatch)
    else if attrs.counter.Some? && t.counter.On? && t.counter.id !in s.counters then (a, BadCounter)
    else if attrs.valueType.None? && attrs.value.None? then (Alarm(t, delta, Active), Success)
    else match TestValue(s, t)
      case Some(v) => (Alarm(t.(testValue := v), delta, Active), Success)
      case None => (a, if t.counter.On? then BadValue else BadMatch)
  }

  /** The alarm is stored and its trigger moved to the list of its counter. */
  function Rebound(s: State, id: nat, a: Alarm): State
    requires id in s.alarms
  {
    var before := s.alarms[id].trigger.counter;
    s.(alarms := s.alarms[id := a],
       counters := if a.trigger.counter == before then s.counters
                   else Attach(Detach(s.counters, OfAlarm(id), before), OfAlarm(id), a.trigger.counter))
  }

  const NEW_ALARM := Alarm(Trigger(NoCounter, Absolute, 0, PositiveComparison, 0, PositiveComparison), 1, Inactive)

  lemma ReboundKeepsQuiet(s: State, id: nat, a: Alarm)
    requires QuietBut(s, []) && AlarmsOk(s) && id in s.alarms && AlarmOk(a)
    ensures QuietBut(Rebound(s, id, a), [OfAlarm(id)]) && AlarmsOk(Rebound(s, id, a))
  {
    hide AlarmOk;
    var s' := Rebound(s, id, a);
    assert forall c | c in s'.counters :: c in s.counters && s'.counters[c].value == s.counters[c].value;
    assert s'.counters.Keys == s.counters.Keys;
    forall ref | Exists(s', ref) && ref !in [OfAlarm(id)]
      ensures Settled(s', ref)
    {
      assert ref != OfAlarm(id);
      assert Exists(s, ref) && Settled(s, ref);
    }
  }

  lemma ReboundRest(s: State, id: nat, a: Alarm)
    requires id in s.alarms
    ensures var s' := Rebound(s, id, a);
            && s'.counters.Keys == s.counters.Keys && s'.awaits == s.awaits
            && (forall c | c in s.counters :: s'.counters[c].beingDestroyed == s.counters[c].beingDestroyed)
            && (forall ref :: Exists(s', ref) <==> Exists(s, ref))
            && (forall ref | Exists(s, ref) && ref != OfAlarm(id) :: TriggerOf(s', ref) == TriggerOf(s, ref))
            && Exists(s', OfAlarm(id)) && TriggerOf(s', OfAlarm(id)) == a.trigger
  {}

  /** The list of counter `c` after the move: as before, but for the alarm's own trigger. */
  lemma ReboundList(s: State, id: nat, a: Alarm, c: nat)
    requires Registered(s) && id in s.alarms && c in s.counters
    ensures c in Rebound(s, id, a).counters
    ensures var list := Rebound(s, id, a).counters[c].triglist;
            && NoDup(list)
            && forall ref :: ref in list <==>
                 if ref == OfAlarm(id) then a.trigger.counter == On(c) else ref in s.counters[c].triglist
  {
    var list, me := s.counters[c].triglist, OfAlarm(id);
    assert ListOk(s, c, list);
    assert Exists(s, me) && OnList(s, me);
    RemoveNoDup(list, me);
    forall ref
      ensures ref in Remove(list, me) <==> ref in list && ref != me
    {
      RemoveHolds(list, me, ref);
    }
  }

  lemma ReboundKeepsLists(s: State, id: nat, a: Alarm)
    requires Registered(s) && id in s.alarms
    requires a.trigger.counter.On? ==> a.trigger.counter.id in s.counters
    ensures Registered(Rebound(s, id, a))
  {
    hide Rebound;
    var s', me := Rebound(s, id, a), OfAlarm(id);
    ReboundRest(s, id, a);
    forall c | c in s'.counters
      ensures NoDup(s'.counters[c].triglist)
      ensures forall ref :: ref in s'.counters[c].triglist <==>
                if ref == me then a.trigger.counter == On(c) else ref in s.counters[c].triglist
    {
      ReboundList(s, id, a, c);
    }
    forall ref | Exists(s', ref)
      ensures OnList(s', ref)
    {
      if ref != me {
        assert OnList(s, ref);
      }
    }
    forall c | c in s'.counters
      ensures ListOk(s', c, s'.counters[c].triglist)
    {
      assert ListOk(s, c, s.counters[c].triglist);
    }
  }

  lemma ReboundKeeps(s: State, id: nat, a: Alarm)
    requires Inv(s) && id in s.alarms && AlarmOk(a)
    requires a.trigger.counter.On? ==> a.trigger.counter.id in s.counters
    ensures Sound(Rebound(s, id, a)) && QuietBut(Rebound(s, id, a), [OfAlarm(id)])
  {
    ReboundKeepsLists(s, id, a);
    ReboundKeepsQuiet(s, id, a);
    var s' := Rebound(s, id, a);
    assert s'.awaits == s.awaits && s'.ignored == s.ignored && s'.log == s.log;
    hide Rebound, Registered, QuietBut;
    assert Blocked(s');
    assert ReleasedOnce(s');
  }
}
