/**
 * Counters, alarms and awaits of the SYNC extension as values: what each step
 * of the server does to them, and what every step keeps.
 */
module SyncModel {
  datatype Option<T> = None | Some(value: T)

  // ---------- INT64 ----------

  const MAX_INT64: int := 0x7fff_ffff_ffff_ffff
  const MIN_INT64: int := -0x8000_0000_0000_0000

  predicate IsInt64(v: int) {
    MIN_INT64 <= v <= MAX_INT64
  }

  /** The sum that an overflowing addition stores. */
  function Wrap64(v: int): (r: int)
    ensures IsInt64(r) && (r - v) % 0x1_0000_0000_0000_0000 == 0
  {
    (v - MIN_INT64) % 0x1_0000_0000_0000_0000 + MIN_INT64
  }

  // ---------- Triggers ----------

  datatype TestType = PositiveTransition | NegativeTransition | PositiveComparison | NegativeComparison {
    predicate Comparison() {
      PositiveComparison? || NegativeComparison?
    }
  }

  datatype ValueType = Absolute | Relative

  /** The counter of a trigger; NoCounter is the protocol's None. */
  datatype CounterRef = NoCounter | On(id: nat)

  /** `check` tells which of the four procedures the trigger is checked with. */
  datatype Trigger = Trigger(counter: CounterRef, valueType: ValueType, waitValue: int, testType: TestType, testValue: int,
                             check: TestType)

  /** A trigger is checked by its own test type. */
  predicate InStep(t: Trigger) {
    t.check == t.testType
  }

  /** The four SyncCheckTrigger functions, for a trigger that has a counter. */
  predicate Holds(testType: TestType, testValue: int, oldval: int, value: int) {
    match testType
    case PositiveComparison => value >= testValue
    case NegativeComparison => value <= testValue
    case PositiveTransition => oldval < testValue <= value
    case NegativeTransition => oldval > testValue >= value
  }

  // ---------- Alarm advance ----------

  /** A delta that a successful request can leave on an alarm. */
  predicate GoodDelta(testType: TestType, delta: int) {
    match testType
    case PositiveComparison | PositiveTransition => delta >= 0
    case NegativeComparison | NegativeTransition => delta <= 0
  }

  /** The number of deltas that SyncAlarmTriggerFired adds when the counter is at `value`. */
  function Deltas(testType: TestType, testValue: int, delta: int, value: int): (k: nat)
    requires Holds(testType, testValue, testValue, value) || !testType.Comparison()
    requires testType.Comparison() ==> GoodDelta(testType, delta) && delta != 0
  {
    match testType
    case PositiveComparison => (value - testValue) / delta + 1
    case NegativeComparison => (testValue - value) / -delta + 1
    case _ => 1
  }

  lemma MulOrder(a: nat, b: nat, d: nat)
    requires a <= b
    ensures a * d <= b * d
  {}

  lemma QuotientBounds(n: nat, d: nat, k: nat)
    requires d > 0
    ensures k <= n / d <==> k * d <= n
  {
    var q := n / d;
    assert n == q * d + n % d;
    if k <= q {
      MulOrder(k, q, d);
    } else {
      MulOrder(q + 1, k, d);
      assert (q + 1) * d == q * d + d;
    }
  }

  /** The count is the least k >= 1 whose advanced test value makes the trigger false. */
  lemma DeltasAreLeast(testType: TestType, testValue: int, delta: int, value: int, k: nat)
    requires testType.Comparison() && Holds(testType, testValue, testValue, value)
    requires GoodDelta(testType, delta) && delta != 0
    ensures k < Deltas(testType, testValue, delta, value) <==> Holds(testType, testValue + k * delta, value, value)
  {
    if testType.PositiveComparison? {
      QuotientBounds(value - testValue, delta, k);
    } else {
      QuotientBounds(testValue - value, -delta, k);
      assert k * delta == -(k * -delta);
    }
  }

  /** Deltas of the wrong sign never make a comparison false: adding them ends with an overflow only. */
  lemma WrongWay(check: TestType, testValue: int, delta: int, value: int, k: nat)
    requires check.Comparison() && Holds(check, testValue, testValue, value) && !GoodDelta(check, delta)
    ensures Holds(check, testValue + k * delta, value, value)
  {
    if check.PositiveComparison? {
      assert k * delta == -(k * -delta);
    }
    MulOrder(0, k, if delta < 0 then -delta else delta);
  }

  /** The new test value, or None when a delta on the way there overflows INT64. */
  function Advanced(testType: TestType, testValue: int, delta: int, value: int): Option<int>
    requires Holds(testType, testValue, testValue, value) || !testType.Comparison()
    requires testType.Comparison() ==> GoodDelta(testType, delta) && delta != 0
  {
    var v := testValue + Deltas(testType, testValue, delta, value) * delta;
    if IsInt64(v) then Some(v) else None
  }

  // ---------- The state ----------

  /** A trigger lives in an alarm, or is the `k`th condition of an await. */
  datatype TriggerRef = OfAlarm(id: nat) | OfAwait(id: nat, k: nat)

  datatype Counter = Counter(value: int, triglist: seq<TriggerRef>, beingDestroyed: bool)

  datatype AlarmState = Active | Inactive | Destroyed

  datatype Alarm = Alarm(trigger: Trigger, delta: int, state: AlarmState)

  datatype Condition = Condition(trigger: Trigger, threshold: int)

  datatype Await = Await(client: nat, conds: seq<Condition>)

  datatype Event =
    | AlarmNotify(alarm: nat, counterValue: int, alarmValue: int, state: AlarmState)
    | CounterNotify(client: nat, counter: nat, waitValue: int, counterValue: int, count: nat, destroyed: bool)
    | IgnoreClient(client: nat)
    | AttendClient(client: nat)

  datatype State = State(counters: map<nat, Counter>, alarms: map<nat, Alarm>, awaits: map<nat, Await>,
                         ignored: set<nat>, log: seq<Event>)

  predicate Exists(s: State, ref: TriggerRef) {
    match ref
    case OfAlarm(id) => id in s.alarms
    case OfAwait(id, k) => id in s.awaits && k < |s.awaits[id].conds|
  }

  function TriggerOf(s: State, ref: TriggerRef): Trigger
    requires Exists(s, ref)
  {
    match ref
    case OfAlarm(id) => s.alarms[id].trigger
    case OfAwait(id, k) => s.awaits[id].conds[k].trigger
  }

  // ---------- Registration ----------

  predicate NoDup(list: seq<TriggerRef>) {
    forall i, j | 0 <= i < j < |list| :: list[i] != list[j]
  }

  /** Every trigger on the list of counter `c` points at it, and is there once. */
  ghost predicate ListOk(s: State, c: nat, list: seq<TriggerRef>) {
    && NoDup(list)
    && forall ref | ref in list :: Exists(s, ref) && TriggerOf(s, ref).counter == On(c)
  }

  /** Every condition has a counter and is in step, and no counter is named twice. */
  predicate AwaitOk(conds: seq<Condition>) {
    && (forall i | 0 <= i < |conds| :: conds[i].trigger.counter.On? && InStep(conds[i].trigger))
    && forall i, j | 0 <= i < j < |conds| :: conds[i].trigger.counter != conds[j].trigger.counter
  }

  ghost predicate Lists(s: State) {
    && (forall c | c in s.counters :: ListOk(s, c, s.counters[c].triglist))
    && (forall id | id in s.awaits :: AwaitOk(s.awaits[id].conds))
  }

  /** A trigger that has a counter is on its list. */
  ghost predicate OnList(s: State, ref: TriggerRef)
    requires Exists(s, ref)
  {
    match TriggerOf(s, ref).counter
    case NoCounter => true
    case On(c) => c in s.counters && ref in s.counters[c].triglist
  }

  ghost predicate Listed(s: State) {
    forall ref | Exists(s, ref) :: OnList(s, ref)
  }

  /** Each counter's list holds exactly the triggers pointing at it, once each. */
  ghost predicate Registered(s: State) {
    && Lists(s) && Listed(s)
    && forall c | c in s.counters :: !s.counters[c].beingDestroyed
  }

  // ---------- Quiescence ----------

  /** An alarm that is Active, or a pending await, has a counter and is not left with a comparison that is true. */
  predicate Settled(s: State, ref: TriggerRef)
    requires Exists(s, ref)
  {
    var t := TriggerOf(s, ref);
    (ref.OfAlarm? ==> s.alarms[ref.id].state == Active) ==>
      && t.counter.On?
      && (t.check.Comparison() && t.counter.id in s.counters ==>
            !Holds(t.check, t.testValue, t.testValue, s.counters[t.counter.id].value))
  }

  /** All triggers are settled, except perhaps those of `rest`. */
  ghost predicate QuietBut(s: State, rest: seq<TriggerRef>) {
    forall ref | Exists(s, ref) && ref !in rest :: Settled(s, ref)
  }

  /** The trigger is in step, the delta has the right sign, and the values fit. */
  predicate AlarmOk(a: Alarm) {
    && InStep(a.trigger)
    && GoodDelta(a.trigger.testType, a.delta)
    && a.state != Destroyed
    && IsInt64(a.trigger.testValue) && IsInt64(a.delta) && IsInt64(a.trigger.waitValue)
  }

  ghost predicate AlarmsOk(s: State) {
    && (forall id | id in s.alarms :: AlarmOk(s.alarms[id]))
    && (forall c | c in s.counters :: IsInt64(s.counters[c].value))
  }

  // ---------- Blocked clients ----------

  /** Exactly the clients of pending awaits are ignored, and each has one await. */
  ghost predicate Blocked(s: State) {
    && (forall id | id in s.awaits :: s.awaits[id].client in s.ignored)
    && (forall client | client in s.ignored :: exists id :: id in s.awaits && s.awaits[id].client == client)
    && (forall i, j | i in s.awaits && j in s.awaits && s.awaits[i].client == s.awaits[j].client :: i == j)
  }

  /** Every client was released as often as it was blocked, but for the await it is blocked in now. */
  ghost predicate ReleasedOnce(s: State) {
    forall client: nat ::
      multiset(s.log)[IgnoreClient(client)] == multiset(s.log)[AttendClient(client)] + if client in s.ignored then 1 else 0
  }

  /** What holds between requests. */
  ghost predicate Inv(s: State) {
    Registered(s) && QuietBut(s, []) && AlarmsOk(s) && Blocked(s) && ReleasedOnce(s)
  }

  // ---------- Trigger lists ----------

  /** SyncDeleteTriggerFromCounter's walk: the list without the first occurrence of `ref`. */
  function Remove(list: seq<TriggerRef>, ref: TriggerRef): seq<TriggerRef> {
    if list == [] then []
    else if list[0] == ref then list[1..]
    else [list[0]] + Remove(list[1..], ref)
  }

  /** The list without the conditions of await `id`. */
  function Strip(list: seq<TriggerRef>, id: nat): seq<TriggerRef> {
    if list == [] then []
    else if list[0].OfAwait? && list[0].id == id then Strip(list[1..], id)
    else [list[0]] + Strip(list[1..], id)
  }

  lemma {:induction false} RemoveHolds(list: seq<TriggerRef>, ref: TriggerRef, r: TriggerRef)
    requires NoDup(list)
    ensures r in Remove(list, ref) <==> r in list && r != ref
  {
    if list != [] {
      assert list == [list[0]] + list[1..];
      RemoveHolds(list[1..], ref, r);
    }
  }

  lemma {:induction false} RemoveNoDup(list: seq<TriggerRef>, ref: TriggerRef)
    requires NoDup(list)
    ensures NoDup(Remove(list, ref))
  {
    if list != [] && list[0] != ref {
      RemoveNoDup(list[1..], ref);
      RemoveHolds(list[1..], ref, list[0]);
    }
  }

  lemma {:induction false} StripHolds(list: seq<TriggerRef>, id: nat, r: TriggerRef)
    ensures r in Strip(list, id) <==> r in list && !(r.OfAwait? && r.id == id)
  {
    if list != [] {
      assert list == [list[0]] + list[1..];
      StripHolds(list[1..], id, r);
    }
  }

  lemma {:induction false} StripNoDup(list: seq<TriggerRef>, id: nat)
    requires NoDup(list)
    ensures NoDup(Strip(list, id))
  {
    if list != [] {
      StripNoDup(list[1..], id);
      StripHolds(list[1..], id, list[0]);
    }
  }

  lemma {:induction false} StripNothing(list: seq<TriggerRef>, id: nat)
    requires forall r | r in list :: !(r.OfAwait? && r.id == id)
    ensures Strip(list, id) == list
  {
    if list != [] {
      assert list[0] in list;
      assert forall r | r in list[1..] :: r in list;
      StripNothing(list[1..], id);
    }
  }

  /** A list that holds one condition of the await loses just that one. */
  lemma {:induction false} RemoveIsStrip(list: seq<TriggerRef>, id: nat, k: nat)
    requires NoDup(list) && forall r | r in list && r.OfAwait? && r.id == id :: r.k == k
    ensures Remove(list, OfAwait(id, k)) == Strip(list, id)
  {
    if list != [] {
      assert list[0] in list;
      assert forall r | r in list[1..] :: r in list;
      if list[0] == OfAwait(id, k) {
        StripNothing(list[1..], id);
      } else {
        RemoveIsStrip(list[1..], id, k);
      }
    }
  }
}
