/** Destroying a counter: FreeCounter walks the trigger list and frees it as it goes. */
module SyncDestroy {
  import opened SyncModel
  import opened SyncSteps
  import opened SyncRequests

  function MarkDying(s: State, c: nat): State
    requires c in s.counters
  {
    s.(counters := s.counters[c := s.counters[c].(beingDestroyed := true)])
  }

  /** The first node of the list is freed. */
  function PopHead(s: State, c: nat): State
    requires c in s.counters && s.counters[c].triglist != []
  {
    s.(counters := s.counters[c := s.counters[c].(triglist := s.counters[c].triglist[1..])])
  }

  /** CounterDestroyed of the first trigger on the list, whose node is freed. */
  function DestroyedOne(s: State, c: nat): (s': State)
    requires Firable(s) && c in s.counters && s.counters[c].triglist != [] && Exists(s, s.counters[c].triglist[0])
    requires s.counters[c].beingDestroyed
    ensures Firable(s') && c in s'.counters && s'.counters[c] == s.counters[c].(triglist := s.counters[c].triglist[1..])
  {
    match s.counters[c].triglist[0]
    case OfAlarm(id) => AlarmOrphaned(PopHead(s, c), id)
    case OfAwait(id, _) => AwaitFired(PopHead(s, c), id)
  }

  /** What holds while counter `c`, and no other, is being destroyed. */
  ghost predicate Dying(s: State, c: nat) {
    && c in s.counters && s.counters[c].beingDestroyed
    && (forall d | d in s.counters && d != c :: !s.counters[d].beingDestroyed)
    && Lists(s) && Listed(s) && QuietBut(s, []) && AlarmsOk(s) && Blocked(s) && ReleasedOnce(s)
  }

  lemma DyingIsFirable(s: State, c: nat)
    requires Dying(s, c)
    ensures Firable(s)
    ensures s.counters[c].triglist != [] ==> Exists(s, s.counters[c].triglist[0])
  {
    forall id | id in s.alarms
      ensures s.alarms[id].trigger.counter.On? ==> s.alarms[id].trigger.counter.id in s.counters
    {
      assert Exists(s, OfAlarm(id)) && OnList(s, OfAlarm(id));
    }
    forall id, i: nat | id in s.awaits && i < |s.awaits[id].conds|
      ensures s.awaits[id].conds[i].trigger.counter.On? && s.awaits[id].conds[i].trigger.counter.id in s.counters
    {
      assert Exists(s, OfAwait(id, i)) && OnList(s, OfAwait(id, i));
      assert AwaitOk(s.awaits[id].conds);
    }
    assert ListOk(s, c, s.counters[c].triglist);
  }

  /** Only counter `c` differs, and its list has shrunk to a tail. */
  lemma SameButLists(s: State, s': State, c: nat)
    requires Lists(s) && QuietBut(s, []) && c in s.counters && c in s'.counters
    requires s'.alarms == s.alarms && s'.awaits == s.awaits && s'.counters == s.counters[c := s'.counters[c]]
    requires s'.counters[c].value == s.counters[c].value
    requires var list := s.counters[c].triglist; s'.counters[c].triglist == list || (list != [] && s'.counters[c].triglist == list[1..])
    ensures Lists(s') && QuietBut(s', [])
    ensures forall ref :: Exists(s', ref) <==> Exists(s, ref)
    ensures forall ref | Exists(s, ref) :: TriggerOf(s', ref) == TriggerOf(s, ref)
  {
    assert forall ref :: Exists(s', ref) <==> Exists(s, ref);
    assert forall ref | Exists(s, ref) :: TriggerOf(s', ref) == TriggerOf(s, ref);
    forall ref | Exists(s', ref)
      ensures Settled(s', ref)
    {
      assert Settled(s, ref);
    }
    forall d | d in s'.counters
      ensures ListOk(s', d, s'.counters[d].triglist)
    {
      assert ListOk(s, d, s.counters[d].triglist);
    }
  }

  lemma MarkDyingKeeps(s: State, c: nat)
    requires Inv(s) && c in s.counters
    ensures Dying(MarkDying(s, c), c)
  {
    var s' := MarkDying(s, c);
    SameButLists(s, s', c);
    forall ref | Exists(s', ref)
      ensures OnList(s', ref)
    {
      assert OnList(s, ref);
    }
  }

  lemma SameClients(s: State, s': State)
    requires Blocked(s) && ReleasedOnce(s) && s'.awaits == s.awaits && s'.ignored == s.ignored && s'.log == s.log
    ensures Blocked(s') && ReleasedOnce(s')
  {}

  /** With the first node gone, every other trigger is still on its list. */
  lemma Popped(s: State, c: nat)
    requires c in s.counters && Dying(s, c) && s.counters[c].triglist != []
    ensures var s' := PopHead(s, c);
            var head := s.counters[c].triglist[0];
            && Lists(s') && QuietBut(s', []) && Firable(s') && Exists(s', head) && TriggerOf(s', head).counter == On(c)
            && AlarmsOk(s') && Blocked(s') && ReleasedOnce(s')
            && (forall ref | Exists(s', ref) && ref != head :: OnList(s', ref))
            && head !in s'.counters[c].triglist
            && c in s'.counters && s'.counters[c].beingDestroyed
            && (forall d | d in s'.counters && d != c :: !s'.counters[d].beingDestroyed)
  {
    var s', list := PopHead(s, c), s.counters[c].triglist;
    var head := list[0];
    hide Blocked, ReleasedOnce;
    SameButLists(s, s', c);
    DyingIsFirable(s, c);
    assert ListOk(s, c, list);
    assert list == [head] + list[1..];
    forall ref | Exists(s', ref) && ref != head
      ensures OnList(s', ref)
    {
      assert OnList(s, ref);
    }
    assert Blocked(s') && ReleasedOnce(s') by { SameClients(s, s'); }
  }

  lemma DyingAgain(s: State, c: nat)
    requires c in s.counters && s.counters[c].beingDestroyed
    requires forall d | d in s.counters && d != c :: !s.counters[d].beingDestroyed
    requires Lists(s) && Listed(s) && QuietBut(s, []) && AlarmsOk(s) && Blocked(s) && ReleasedOnce(s)
    ensures Dying(s, c)
  {}

  lemma OrphanKeepsClients(s: State, id: nat)
    requires Firable(s) && id in s.alarms && Blocked(s) && ReleasedOnce(s)
    ensures Blocked(AlarmOrphaned(s, id)) && ReleasedOnce(AlarmOrphaned(s, id))
  {
    var s' := AlarmOrphaned(s, id);
    assert multiset(s'.log) == multiset(s.log) + multiset{AlarmEvent(s, id, Inactive)};
  }

  lemma OrphanKeepsTables(s: State, s': State, c: nat, id: nat)
    requires Firable(s) && id in s.alarms && s' == AlarmOrphaned(s, id)
    requires Lists(s) && QuietBut(s, []) && AlarmsOk(s) && c in s.counters
    requires s.alarms[id].trigger.counter == On(c) && OfAlarm(id) !in s.counters[c].triglist
    requires forall ref | Exists(s, ref) && ref != OfAlarm(id) :: OnList(s, ref)
    ensures Lists(s') && Listed(s') && QuietBut(s', []) && AlarmsOk(s')
  {
    hide Firable, AlarmEvent;
    var me := OfAlarm(id);
    assert forall ref :: Exists(s', ref) <==> Exists(s, ref);
    assert forall ref | Exists(s, ref) && ref != me :: TriggerOf(s', ref) == TriggerOf(s, ref);
    forall ref | Exists(s', ref)
      ensures OnList(s', ref) && Settled(s', ref)
    {
      assert Settled(s, ref) && (ref != me ==> OnList(s, ref));
    }
    forall d | d in s'.counters
      ensures ListOk(s', d, s'.counters[d].triglist)
    {
      assert ListOk(s, d, s.counters[d].triglist);
      assert me in s.counters[d].triglist ==> On(d) == On(c);
    }
  }

  lemma OrphanKeeps(s: State, c: nat, id: nat)
    requires c in s.counters && Dying(s, c) && s.counters[c].triglist != [] && s.counters[c].triglist[0] == OfAlarm(id)
    requires Firable(PopHead(s, c)) && id in PopHead(s, c).alarms
    ensures Dying(AlarmOrphaned(PopHead(s, c), id), c)
  {
    hide Dying, PopHead;
    Popped(s, c);
    var s1 := PopHead(s, c);
    var s2 := AlarmOrphaned(s1, id);
    assert forall ref :: Exists(s2, ref) <==> Exists(s1, ref);
    assert forall ref | Exists(s2, ref) && ref != OfAlarm(id) :: TriggerOf(s2, ref) == TriggerOf(s1, ref);
    OrphanKeepsTables(s1, s2, c, id);
    OrphanKeepsClients(s1, id);
    DyingAgain(s2, c);
  }

  lemma AwaitFiredQuiet(s: State, id: nat)
    requires Firable(s) && id in s.awaits && QuietBut(s, [])
    ensures QuietBut(AwaitFired(s, id), [])
  {
    hide Firable, Settled, AwaitFired;
    AwaitFiredKeepsTriggers(s, id);
  }

  /** The popped node was the await's only one on the list of the dying counter. */
  lemma OnlyHead(s: State, c: nat, id: nat, k: nat)
    requires Lists(s) && c in s.counters && s.counters[c].beingDestroyed
    requires forall d | d in s.counters && d != c :: !s.counters[d].beingDestroyed
    requires Exists(s, OfAwait(id, k)) && TriggerOf(s, OfAwait(id, k)).counter == On(c)
    requires OfAwait(id, k) !in s.counters[c].triglist
    requires forall ref | Exists(s, ref) && ref != OfAwait(id, k) :: OnList(s, ref)
    ensures ListedBut(s, id)
  {
    forall ref | ref in s.counters[c].triglist
      ensures !(ref.OfAwait? && ref.id == id)
    {
      assert ListOk(s, c, s.counters[c].triglist);
      assert AwaitOk(s.awaits[id].conds);
    }
  }

  lemma AwaitDiesKeeps(s: State, c: nat, id: nat, k: nat)
    requires c in s.counters && Dying(s, c) && s.counters[c].triglist != [] && s.counters[c].triglist[0] == OfAwait(id, k)
    requires Firable(PopHead(s, c)) && id in PopHead(s, c).awaits
    ensures Dying(AwaitFired(PopHead(s, c), id), c)
  {
    hide Dying, PopHead;
    Popped(s, c);
    var s1 := PopHead(s, c);
    OnlyHead(s1, c, id, k);
    hide Lists, Listed, QuietBut, AlarmsOk, Blocked, ReleasedOnce, ListedBut, Firable;
    AwaitFiredKeepsLists(s1, id);
    AwaitFiredKeepsTriggers(s1, id);
    AwaitFiredQuiet(s1, id);
    AwaitFiredUnblocks(s1, id);
    AwaitFiredReleasesOnce(s1, id);
    var s2 := AwaitFired(s1, id);
    assert s2.counters.Keys == s1.counters.Keys;
    DyingAgain(s2, c);
  }

  lemma DyingFlag(s: State, c: nat)
    requires Dying(s, c)
    ensures c in s.counters && s.counters[c].beingDestroyed
  {}

  lemma DestroyedOneKeeps(s: State, c: nat)
    requires c in s.counters && Dying(s, c) && Firable(s) && s.counters[c].triglist != [] && Exists(s, s.counters[c].triglist[0])
    ensures Dying(DestroyedOne(s, c), c)
  {
    hide Dying, Firable;
    assert s.counters[c].beingDestroyed by { DyingFlag(s, c); }
    Popped(s, c);
    match s.counters[c].triglist[0]
    case OfAlarm(id) => OrphanKeeps(s, c, id);
    case OfAwait(id, k) => AwaitDiesKeeps(s, c, id, k);
  }

  /** The loop of FreeCounter. */
  ghost function DestroyAll(s: State, c: nat): (s': State)
    requires Dying(s, c)
    ensures Dying(s', c) && s'.counters[c].triglist == []
    decreases if c in s.counters then |s.counters[c].triglist| else 0
  {
    if s.counters[c].triglist == [] then s
    else
      DyingIsFirable(s, c);
      DestroyedOneKeeps(s, c);
      DestroyAll(DestroyedOne(s, c), c)
  }

  predicate Names(a: Await, c: nat) {
    exists k | 0 <= k < |a.conds| :: a.conds[k].trigger.counter == On(c)
  }

  function Orphaned(a: Alarm): Alarm {
    a.(trigger := a.trigger.(counter := NoCounter), state := Inactive)
  }

  /** One step orphans the alarm, or fires the await, of the first node, and touches no other. */
  lemma DestroyedOneExactly(s: State, c: nat)
    requires Dying(s, c) && Firable(s) && s.counters[c].triglist != [] && Exists(s, s.counters[c].triglist[0])
    ensures var s', head := DestroyedOne(s, c), s.counters[c].triglist[0];
            && TriggerOf(s, head).counter == On(c)
            && s'.alarms == (if head.OfAlarm? then s.alarms[head.id := Orphaned(s.alarms[head.id])] else s.alarms)
            && s'.awaits == (if head.OfAwait? then s.awaits - {head.id} else s.awaits)
  {
    assert ListOk(s, c, s.counters[c].triglist);
    hide Firable, Blocked, ReleasedOnce, Due, DueOf, CounterEvents, AlarmEvent;
  }

  /** Exactly the alarms of counter `c` are orphaned, and exactly the awaits that name it are gone. */
  ghost predicate Released(s: State, s': State, c: nat) {
    && s'.alarms.Keys == s.alarms.Keys
    && (forall id | id in s.alarms ::
          s'.alarms[id] == if s.alarms[id].trigger.counter == On(c) then Orphaned(s.alarms[id]) else s.alarms[id])
    && (forall id :: id in s'.awaits <==> id in s.awaits && !Names(s.awaits[id], c))
    && (forall id | id in s'.awaits :: id in s.awaits && s'.awaits[id] == s.awaits[id])
  }

  lemma ReleasedStep(s: State, s1: State, s': State, c: nat, head: TriggerRef)
    requires Exists(s, head) && TriggerOf(s, head).counter == On(c)
    requires s1.alarms == (if head.OfAlarm? then s.alarms[head.id := Orphaned(s.alarms[head.id])] else s.alarms)
    requires s1.awaits == (if head.OfAwait? then s.awaits - {head.id} else s.awaits)
    requires Released(s1, s', c)
    ensures Released(s, s', c)
  {
    assert head.OfAwait? ==> Names(s.awaits[head.id], c);
    hide Names;
  }

  lemma EmptyListMeansNone(s: State, c: nat)
    requires Dying(s, c) && s.counters[c].triglist == []
    ensures forall id | id in s.alarms :: s.alarms[id].trigger.counter != On(c)
    ensures forall id | id in s.awaits :: !Names(s.awaits[id], c)
  {
    forall id | id in s.alarms
      ensures s.alarms[id].trigger.counter != On(c)
    {
      assert Exists(s, OfAlarm(id)) && OnList(s, OfAlarm(id));
    }
    forall id, k: nat | id in s.awaits && k < |s.awaits[id].conds|
      ensures s.awaits[id].conds[k].trigger.counter != On(c)
    {
      assert Exists(s, OfAwait(id, k)) && OnList(s, OfAwait(id, k));
    }
  }

  /** Destroying a counter orphans exactly its alarms, and fires exactly the awaits that name it. */
  lemma {:induction false} DestroyAllExactly(s: State, c: nat)
    requires Dying(s, c)
    ensures Released(s, DestroyAll(s, c), c)
    decreases if c in s.counters then |s.counters[c].triglist| else 0
  {
    if s.counters[c].triglist == [] {
      EmptyListMeansNone(s, c);
    } else {
      DyingIsFirable(s, c);
      DestroyedOneKeeps(s, c);
      DestroyedOneExactly(s, c);
      hide Dying, Firable, DestroyedOne, Released;
      DestroyAllExactly(DestroyedOne(s, c), c);
      ReleasedStep(s, DestroyedOne(s, c), DestroyAll(s, c), c, s.counters[c].triglist[0]);
    }
  }

  function WithoutCounter(s: State, c: nat): State {
    s.(counters := s.counters - {c})
  }

  /** With its list empty, no trigger points at the counter any more. */
  lemma WithoutCounterKeeps(s: State, c: nat)
    requires Dying(s, c) && s.counters[c].triglist == []
    ensures Inv(WithoutCounter(s, c))
  {
    hide Blocked, ReleasedOnce;
    var s' := WithoutCounter(s, c);
    assert forall ref :: Exists(s', ref) <==> Exists(s, ref);
    assert forall ref | Exists(s, ref) :: TriggerOf(s', ref) == TriggerOf(s, ref);
    forall ref | Exists(s', ref)
      ensures OnList(s', ref) && Settled(s', ref)
    {
      assert OnList(s, ref) && Settled(s, ref);
    }
    forall d | d in s'.counters
      ensures ListOk(s', d, s'.counters[d].triglist)
    {
      assert ListOk(s, d, s.counters[d].triglist);
    }
    SameClients(s, s');
  }

  /** FreeCounter. */
  ghost function CounterDestroyed(s: State, c: nat): State
    requires Inv(s) && c in s.counters
  {
    MarkDyingKeeps(s, c);
    WithoutCounter(DestroyAll(MarkDying(s, c), c), c)
  }

  lemma CounterDestroyedKeeps(s: State, c: nat)
    requires Inv(s) && c in s.counters
    ensures Inv(CounterDestroyed(s, c))
  {
    MarkDyingKeeps(s, c);
    hide Inv, Dying;
    WithoutCounterKeeps(DestroyAll(MarkDying(s, c), c), c);
  }
}
