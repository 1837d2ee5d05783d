/**
 * A system counter whose triggers are checked only where its value reaches a
 * bracket, against one that is checked at every value.
 */
module SyncSystem {
  import opened SyncModel
  import opened SyncSteps
  import opened SyncRuns
  import opened SyncBrackets

  /** The counter has comparison triggers only. */
  ghost predicate Compares(s: State, c: nat) {
    && c in s.counters && IsInt64(s.counters[c].value)
    && forall ref | ref in s.counters[c].triglist ::
         Exists(s, ref) && TriggerOf(s, ref).testType.Comparison() && IsInt64(TriggerOf(s, ref).testValue)
  }

  ghost predicate Ready(s: State, c: nat) {
    Inv(s) && Firable(s) && Compares(s, c)
  }

  function TestOf(t: Trigger): Test {
    Test(t.testType, t.testValue)
  }

  /** The triggers on a list, as the computation of the brackets sees them. */
  function TestsOn(s: State, list: seq<TriggerRef>): seq<Test> {
    if list == [] then []
    else (if Exists(s, list[0]) then [TestOf(TriggerOf(s, list[0]))] else []) + TestsOn(s, list[1..])
  }

  ghost predicate AllCompare(s: State, list: seq<TriggerRef>) {
    forall ref | ref in list && Exists(s, ref) :: TriggerOf(s, ref).testType.Comparison()
  }

  lemma {:induction false} TestsAre(s: State, list: seq<TriggerRef>)
    ensures AllCompare(s, list) ==> AllComparisons(TestsOn(s, list))
    ensures forall ref | ref in list && Exists(s, ref) :: TestOf(TriggerOf(s, ref)) in TestsOn(s, list)
  {
    if list != [] {
      assert list == [list[0]] + list[1..];
      TestsAre(s, list[1..]);
    }
  }

  /** The triggers on the counter's own list. */
  ghost function Tests(s: State, c: nat): (tests: seq<Test>)
    requires Compares(s, c)
    ensures AllComparisons(tests)
    ensures forall ref | ref in s.counters[c].triglist :: TestOf(TriggerOf(s, ref)) in tests
  {
    TestsAre(s, s.counters[c].triglist);
    TestsOn(s, s.counters[c].triglist)
  }

  /** A trigger that does something when it fires. */
  predicate Live(s: State, ref: TriggerRef)
    requires Exists(s, ref)
  {
    ref.OfAlarm? ==> s.alarms[ref.id].state == Active
  }

  // ---------- The two servers ----------

  predicate AllInt64(path: seq<int>) {
    forall i | 0 <= i < |path| :: IsInt64(path[i])
  }

  /** Idle time may go up and down, server time only up. */
  predicate Possible(ct: CounterType, value: int, path: seq<int>)
    decreases |path|
  {
    ct == Unrestricted || (ct == NeverDecreases && (path == [] || (value <= path[0] && Possible(ct, path[0], path[1..]))))
  }

  /** The wakeup handlers' test. */
  predicate Reached(ct: CounterType, b: Brackets, w: Watch, v: int) {
    (w.greater && v >= b.greater) || (ct != NeverDecreases && w.less && v <= b.less)
  }

  /** How the handler's pointers change when brackets change. */
  type Rule = (Watch, Brackets, Brackets) -> Watch

  lemma InvIsFirable(s: State)
    requires Inv(s)
    ensures Firable(s)
  {
    FirableNow(s);
  }

  lemma ListsExist(s: State, c: nat)
    requires Inv(s) && c in s.counters
    ensures forall ref | ref in s.counters[c].triglist :: Exists(s, ref) && TriggerOf(s, ref).counter == On(c)
  {
    assert ListOk(s, c, s.counters[c].triglist);
  }

  /** Triggers may leave the list, but keep their test type, and those of awaits their test value. */
  ghost predicate Thinned(s: State, s': State, c: nat) {
    && c in s.counters && c in s'.counters && s'.counters[c].value == s.counters[c].value
    && (forall ref | ref in s'.counters[c].triglist :: ref in s.counters[c].triglist)
    && (forall ref | Exists(s', ref) :: Exists(s, ref) && TriggerOf(s', ref).testType == TriggerOf(s, ref).testType)
    && (forall ref | Exists(s', ref) && ref.OfAwait? :: TriggerOf(s', ref) == TriggerOf(s, ref))
  }

  lemma FireThins(s: State, ref: TriggerRef, c: nat)
    requires Firable(s) && Exists(s, ref) && c in s.counters
    requires TriggerOf(s, ref).testType.Comparison() ==> Triggered(s, ref, 0)
    ensures Thinned(s, Fire(s, ref), c)
  {
    hide Due, DueOf, CounterEvents, AlarmEvent, Holds, Firable, Advanced;
    if ref.OfAwait? {
      forall r | r in Fire(s, ref).counters[c].triglist
        ensures r in s.counters[c].triglist
      {
        StripHolds(s.counters[c].triglist, ref.id, r);
      }
    }
  }

  lemma {:induction false} FireAllThins(s: State, list: seq<TriggerRef>, oldval: int, c: nat)
    requires Firable(s) && c in s.counters
    ensures Thinned(s, FireAll(s, list, oldval), c)
    decreases |list|
  {
    if list != [] {
      hide Firable, Fire, Triggered;
      if Exists(s, list[0]) && Triggered(s, list[0], oldval) {
        ComparisonIgnoresOld(s, list[0], oldval, 0);
        FireThins(s, list[0], c);
        FireAllThins(Fire(s, list[0]), list[1..], oldval, c);
      } else {
        FireAllThins(s, list[1..], oldval, c);
      }
    }
  }

  lemma ValueIsFirable(s: State, c: nat, v: int)
    requires Firable(s) && c in s.counters
    ensures Firable(WithValue(s, c, v)) && c in WithValue(s, c, v).counters
  {}

  lemma AlarmInRange(s: State, ref: TriggerRef)
    requires Inv(s) && ref.OfAlarm? && Exists(s, ref)
    ensures IsInt64(TriggerOf(s, ref).testValue)
  {
    assert AlarmOk(s.alarms[ref.id]);
  }

  lemma ChangedIsReady(s: State, c: nat, v: int)
    requires Ready(s, c) && IsInt64(v)
    ensures Ready(CounterChanged(s, c, v), c) && CounterChanged(s, c, v).counters[c].value == v
  {
    CounterChangedKeeps(s, c, v);
    ValueIsFirable(s, c, v);
    FireAllThins(WithValue(s, c, v), s.counters[c].triglist, s.counters[c].value, c);
    var s' := CounterChanged(s, c, v);
    InvIsFirable(s');
    ListsExist(s', c);
    forall ref | ref in s'.counters[c].triglist
      ensures TriggerOf(s', ref).testType.Comparison() && IsInt64(TriggerOf(s', ref).testValue)
    {
      assert ref in s.counters[c].triglist;
      assert TriggerOf(WithValue(s, c, v), ref) == TriggerOf(s, ref);
      if ref.OfAlarm? {
        AlarmInRange(s', ref);
      }
    }
  }

  /** The server changes the counter at every value of the path. */
  ghost function Eager(s: State, c: nat, path: seq<int>): State
    requires Ready(s, c) && AllInt64(path)
    decreases |path|
  {
    if path == [] then s
    else
      ChangedIsReady(s, c, path[0]);
      Eager(CounterChanged(s, c, path[0]), c, path[1..])
  }

  /**
    * What the walk over the triggers does to the brackets and to the pointers: they are computed anew whenever an
    * await that fires leaves the list.
    */
  ghost function Walked(ct: CounterType, s: State, list: seq<TriggerRef>, oldval: int, b: Brackets, w: Watch, c: nat, rule: Rule)
    : (Brackets, Watch)
    requires Firable(s) && c in s.counters
    decreases |list|
  {
    if list == [] then (b, w)
    else if Exists(s, list[0]) && Triggered(s, list[0], oldval) then
      ComparisonIgnoresOld(s, list[0], oldval, 0);
      FireThins(s, list[0], c);
      var s' := Fire(s, list[0]);
      if list[0].OfAlarm? then Walked(ct, s', list[1..], oldval, b, w, c, rule)
      else
        var b' := NarrowAll(ct, s'.counters[c].value, WIDE, TestsOn(s', s'.counters[c].triglist));
        Walked(ct, s', list[1..], oldval, b', rule(w, WIDE, b'), c, rule)
    else Walked(ct, s, list[1..], oldval, b, w, c, rule)
  }

  /** The brackets and pointers after the counter has come to `v`: at the end of the walk they are narrowed. */
  ghost function Rebracketed(ct: CounterType, s: State, b: Brackets, w: Watch, c: nat, v: int, rule: Rule): (Brackets, Watch)
    requires Ready(s, c) && IsInt64(v)
  {
    ChangedIsReady(s, c, v);
    ValueIsFirable(s, c, v);
    var (b1, w1) := Walked(ct, WithValue(s, c, v), s.counters[c].triglist, s.counters[c].value, b, w, c, rule);
    var b2 := NarrowAll(ct, v, b1, Tests(CounterChanged(s, c, v), c));
    (b2, rule(w1, b1, b2))
  }

  /** The wakeup handler changes the counter only where a bracket that it watches is reached. */
  ghost function Lazy(ct: CounterType, s: State, b: Brackets, w: Watch, c: nat, path: seq<int>, rule: Rule): State
    requires Ready(s, c) && AllInt64(path)
    decreases |path|
  {
    if path == [] then s
    else if !Reached(ct, b, w, path[0]) then Lazy(ct, s, b, w, c, path[1..], rule)
    else
      ChangedIsReady(s, c, path[0]);
      var (b', w') := Rebracketed(ct, s, b, w, c, path[0], rule);
      Lazy(ct, CounterChanged(s, c, path[0]), b', w', c, path[1..], rule)
  }

  /** The values that the counter can be read to have. */
  datatype Readings = Readings(low: int, high: int)

  predicate Proper(r: Readings) {
    MIN_INT64 <= r.low < r.high <= MAX_INT64
  }

  const INT64 := Readings(MIN_INT64, MAX_INT64)

  predicate Within(path: seq<int>, r: Readings) {
    forall i | 0 <= i < |path| :: r.low <= path[i] <= r.high
  }

  /** There is a pointer to the bracket on the side of every live trigger that some reading makes true. */
  ghost predicate Attends(ct: CounterType, s: State, c: nat, w: Watch, r: Readings)
    requires Compares(s, c)
  {
    forall ref | ref in s.counters[c].triglist && Live(s, ref) ::
      var t := TriggerOf(s, ref);
      if t.testType == PositiveComparison then w.greater || t.testValue > r.high
      else ct == NeverDecreases || w.less || t.testValue < r.low
  }

  /** All along the path. */
  ghost predicate Attended(ct: CounterType, s: State, b: Brackets, w: Watch, c: nat, path: seq<int>, rule: Rule, r: Readings)
    requires Ready(s, c) && AllInt64(path)
    decreases |path|
  {
    Attends(ct, s, c, w, r) &&
    (path != [] ==>
       if !Reached(ct, b, w, path[0]) then Attended(ct, s, b, w, c, path[1..], rule, r)
       else
         ChangedIsReady(s, c, path[0]);
         var (b', w') := Rebracketed(ct, s, b, w, c, path[0], rule);
         Attended(ct, CounterChanged(s, c, path[0]), b', w', c, path[1..], rule, r))
  }

  // ---------- Nothing fires short of a bracket ----------

  /** No live trigger on the list is true short of the brackets, from the counter's value on. */
  ghost predicate Covers(ct: CounterType, s: State, c: nat, b: Brackets)
    requires Compares(s, c)
  {
    forall ref | ref in s.counters[c].triglist && Live(s, ref) ::
      var t := TestOf(TriggerOf(s, ref));
      if t.testType == PositiveComparison then t.testValue >= b.greater
      else if ct == NeverDecreases then t.testValue < s.counters[c].value
      else t.testValue <= b.less
  }

  lemma LiveIsFalse(s: State, ref: TriggerRef, c: nat)
    requires Inv(s) && Exists(s, ref) && Live(s, ref) && c in s.counters
    requires TriggerOf(s, ref).counter == On(c) && TriggerOf(s, ref).testType.Comparison()
    ensures !True(TestOf(TriggerOf(s, ref)), s.counters[c].value)
  {
    assert Settled(s, ref);
  }

  /** A quiet counter is covered by its brackets, from whatever they are narrowed. */
  lemma BracketsCover(ct: CounterType, s: State, c: nat, b: Brackets)
    requires Ready(s, c) && (ct == Unrestricted || ct == NeverDecreases)
    ensures Covers(ct, s, c, NarrowAll(ct, s.counters[c].value, b, Tests(s, c)))
  {
    var tests, value := Tests(s, c), s.counters[c].value;
    BracketsAreNearest(ct, value, b, tests);
    forall ref | ref in s.counters[c].triglist && Live(s, ref)
      ensures !True(TestOf(TriggerOf(s, ref)), value)
    {
      ListsExist(s, c);
      LiveIsFalse(s, ref, c);
    }
    hide NarrowAll, Ready, Tests;
  }

  /** Triggers that are false, or dead, leave the walk without effect. */
  lemma {:induction false} NothingFires(s: State, list: seq<TriggerRef>, oldval: int)
    requires Firable(s)
    requires forall ref | ref in list && Exists(s, ref) && Triggered(s, ref, oldval) :: !Live(s, ref)
    ensures FireAll(s, list, oldval) == s
    decreases |list|
  {
    if list != [] {
      assert list[0] in list && forall ref | ref in list[1..] :: ref in list;
      NothingFires(s, list[1..], oldval);
    }
  }

  /** Short of the brackets the whole change is the value. */
  lemma ShortOfBrackets(ct: CounterType, s: State, b: Brackets, w: Watch, c: nat, v: int, now: int, r: Readings)
    requires Ready(s, c) && Covers(ct, s, c, b) && Attends(ct, s, c, w, r) && !Reached(ct, b, w, v) && r.low <= v <= r.high
    requires ct == NeverDecreases ==> s.counters[c].value <= v
    ensures Firable(WithValue(s, c, now)) && CounterChanged(WithValue(s, c, now), c, v) == WithValue(s, c, v)
  {
    var e, t, list := WithValue(s, c, now), WithValue(s, c, v), s.counters[c].triglist;
    ValueIsFirable(s, c, now);
    ValueIsFirable(s, c, v);
    assert WithValue(e, c, v) == t;
    ListsExist(s, c);
    forall ref | ref in list && Triggered(t, ref, now)
      ensures !Live(t, ref)
    {
      assert TriggerOf(t, ref) == TriggerOf(s, ref);
    }
    NothingFires(t, list, now);
  }

  lemma SameCheck(s: State, ref: TriggerRef, oldval: int, other: int)
    requires Firable(s) && Exists(s, ref) && TriggerOf(s, ref).testType.Comparison()
    ensures Triggered(s, ref, oldval) == Triggered(s, ref, other)
  {}

  lemma SameTypes(s: State, ref: TriggerRef)
    requires Firable(s) && Exists(s, ref)
    requires TriggerOf(s, ref).testType.Comparison() ==> Triggered(s, ref, 0)
    ensures forall r | Exists(Fire(s, ref), r) :: Exists(s, r) && TriggerOf(Fire(s, ref), r).testType == TriggerOf(s, r).testType
  {
    hide Due, DueOf, CounterEvents, AlarmEvent, Holds, Firable, Advanced;
  }

  /** A check at one value does not depend on the value before. */
  lemma {:induction false} OldValueIgnored(s: State, list: seq<TriggerRef>, oldval: int, other: int)
    requires Firable(s) && forall ref | ref in list && Exists(s, ref) :: TriggerOf(s, ref).testType.Comparison()
    ensures FireAll(s, list, oldval) == FireAll(s, list, other)
    decreases |list|
  {
    if list != [] {
      var ref, rest := list[0], list[1..];
      assert ref in list && forall r | r in rest :: r in list;
      hide Firable, Fire;
      if Exists(s, ref) {
        SameCheck(s, ref, oldval, other);
      }
      if Exists(s, ref) && Triggered(s, ref, oldval) {
        ComparisonIgnoresOld(s, ref, oldval, 0);
        SameTypes(s, ref);
        OldValueIgnored(Fire(s, ref), rest, oldval, other);
      } else {
        OldValueIgnored(s, rest, oldval, other);
      }
    }
  }

  lemma ChangeFromAnywhere(s: State, c: nat, now: int, v: int)
    requires Ready(s, c)
    ensures Firable(WithValue(s, c, now)) && CounterChanged(WithValue(s, c, now), c, v) == CounterChanged(s, c, v)
  {
    var t := WithValue(s, c, v);
    ValueIsFirable(s, c, now);
    ValueIsFirable(s, c, v);
    assert WithValue(WithValue(s, c, now), c, v) == t;
    assert forall ref | Exists(t, ref) :: TriggerOf(t, ref) == TriggerOf(s, ref);
    OldValueIgnored(t, s.counters[c].triglist, now, s.counters[c].value);
  }

  // ---------- The refinement ----------

  ghost predicate SameButValue(e: State, l: State, c: nat, value: int) {
    c in l.counters && e == WithValue(l, c, value)
  }

  function LastOf(value: int, path: seq<int>): int {
    if path == [] then value else path[|path| - 1]
  }

  lemma CrossingStep(ct: CounterType, s: State, c: nat, now: int, v: int, start: Brackets)
    requires (ct == Unrestricted || ct == NeverDecreases) && Ready(s, c) && IsInt64(v)
    ensures Firable(WithValue(s, c, now)) && c in WithValue(s, c, now).counters
    ensures var s' := CounterChanged(s, c, v);
            && CounterChanged(WithValue(s, c, now), c, v) == s' && Ready(s', c) && SameButValue(s', s', c, v)
            && s'.counters[c].value == v && Covers(ct, s', c, NarrowAll(ct, v, start, Tests(s', c)))
  {
    ChangedIsReady(s, c, v);
    ChangeFromAnywhere(s, c, now, v);
    BracketsCover(ct, CounterChanged(s, c, v), c, start);
    assert WithValue(CounterChanged(s, c, v), c, v) == CounterChanged(s, c, v);
  }

  /** Whatever value the eager server has come to, both do the same from there on. */
  lemma {:induction false} LazyFollows(ct: CounterType, e: State, s: State, b: Brackets, w: Watch, c: nat, now: int,
                                       path: seq<int>, rule: Rule, r: Readings)
    requires Ready(s, c) && Covers(ct, s, c, b) && Ready(e, c) && SameButValue(e, s, c, now)
    requires Possible(ct, now, path) && AllInt64(path) && Within(path, r) && (ct == NeverDecreases ==> s.counters[c].value <= now)
    requires Attended(ct, s, b, w, c, path, rule, r)
    ensures SameButValue(Eager(e, c, path), Lazy(ct, s, b, w, c, path, rule), c, LastOf(now, path))
    decreases |path|
  {
    if path != [] {
      var v, rest := path[0], path[1..];
      hide Ready, Covers, Attends, CounterChanged, Reached, NarrowAll, Tests, WithValue, Walked;
      ChangedIsReady(e, c, v);
      if Reached(ct, b, w, v) {
        var s' := CounterChanged(s, c, v);
        ValueIsFirable(s, c, v);
        CrossingStep(ct, s, c, now, v, Walked(ct, WithValue(s, c, v), s.counters[c].triglist, s.counters[c].value, b, w, c, rule).0);
        var (b', w') := Rebracketed(ct, s, b, w, c, v, rule);
        LazyFollows(ct, s', s', b', w', c, v, rest, rule, r);
      } else {
        ShortOfBrackets(ct, s, b, w, c, v, now, r);
        LazyFollows(ct, CounterChanged(e, c, v), s, b, w, c, v, rest, rule, r);
      }
    }
  }

  /**
    * Checking only where a bracket is reached is as good as checking every value, as long as the bracket on the side
    * of every live trigger that can become true is watched: over any path of values both servers end in the same
    * state, events included, but for the value that the counter was last seen to have.
    */
  lemma WatchedIsEager(ct: CounterType, s: State, b: Brackets, w: Watch, c: nat, path: seq<int>, rule: Rule, r: Readings)
    requires Ready(s, c) && AllInt64(path) && Within(path, r) && Possible(ct, s.counters[c].value, path)
    requires Attended(ct, s, NarrowAll(ct, s.counters[c].value, b, Tests(s, c)), w, c, path, rule, r)
    ensures var brackets := NarrowAll(ct, s.counters[c].value, b, Tests(s, c));
            SameButValue(Eager(s, c, path), Lazy(ct, s, brackets, w, c, path, rule), c, LastOf(s.counters[c].value, path))
  {
    BracketsCover(ct, s, c, b);
    assert WithValue(s, c, s.counters[c].value) == s;
    hide Ready;
    LazyFollows(ct, s, s, NarrowAll(ct, s.counters[c].value, b, Tests(s, c)), w, c, s.counters[c].value, path, rule, r);
  }

  // ---------- Which brackets are watched ----------

  const BOTH := Watch(true, true)

  ghost predicate KeepsBoth(rule: Rule) {
    forall b, b' :: rule(BOTH, b, b') == BOTH
  }

  /** The upper pointer is kept while the lower bracket stays where it is. */
  ghost predicate KeepsGreater(rule: Rule) {
    forall w: Watch, b: Brackets, b': Brackets | w.greater && b'.less == b.less :: rule(w, b, b').greater
  }

  /** Some reading is on the near side of each bracket. */
  predicate Sensible(b: Brackets, r: Readings) {
    b.less < r.high && b.greater > r.low
  }

  lemma {:induction false} LessIsLeft(value: int, b: Brackets, tests: seq<Test>)
    requires AllComparisons(tests)
    ensures NarrowAll(NeverDecreases, value, b, tests).less == b.less
  {
    if tests != [] {
      LessIsLeft(value, b, tests[..|tests| - 1]);
    }
  }

  /** Brackets that were sensible stay so. */
  lemma {:induction false} StaysSensible(ct: CounterType, value: int, b: Brackets, tests: seq<Test>, r: Readings)
    requires AllComparisons(tests) && r.low <= value <= r.high && Sensible(b, r)
    ensures Sensible(NarrowAll(ct, value, b, tests), r)
  {
    if tests != [] {
      StaysSensible(ct, value, b, tests[..|tests| - 1], r);
      assert tests[|tests| - 1].testType.Comparison();
    }
  }

  /** What one computation keeps of the brackets and the pointers. */
  ghost predicate Handed(ct: CounterType, b: Brackets, w: Watch, b': Brackets, w': Watch, rule: Rule, r: Readings) {
    && (Sensible(b, r) ==> Sensible(b', r))
    && (ct == NeverDecreases && KeepsGreater(rule) && w.greater ==> w'.greater)
    && (KeepsBoth(rule) && w == BOTH ==> w' == BOTH)
  }

  lemma NarrowingHands(ct: CounterType, value: int, b: Brackets, w: Watch, tests: seq<Test>, rule: Rule, r: Readings)
    requires AllComparisons(tests) && r.low <= value <= r.high
    ensures var b' := NarrowAll(ct, value, b, tests); Handed(ct, b, w, b', rule(w, b, b'), rule, r)
  {
    LessIsLeft(value, b, tests);
    if Sensible(b, r) {
      StaysSensible(ct, value, b, tests, r);
    }
  }

  lemma StillCompare(s: State, s': State, c: nat, list: seq<TriggerRef>)
    requires Thinned(s, s', c) && AllCompare(s, list) && AllCompare(s, s.counters[c].triglist)
    ensures AllCompare(s', list) && AllCompare(s', s'.counters[c].triglist)
  {}

  /** The walk keeps it too. */
  lemma {:induction false} WalkHands(ct: CounterType, s: State, list: seq<TriggerRef>, oldval: int, b: Brackets, w: Watch, c: nat,
                                     rule: Rule, r: Readings)
    requires Firable(s) && c in s.counters && AllCompare(s, list) && AllCompare(s, s.counters[c].triglist)
    requires Proper(r) && r.low <= s.counters[c].value <= r.high
    ensures var (b', w') := Walked(ct, s, list, oldval, b, w, c, rule); Handed(ct, b, w, b', w', rule, r)
    decreases |list|
  {
    if list != [] {
      hide Firable, Fire, Triggered, TestsOn, NarrowAll, Holds;
      assert list[0] in list && forall ref | ref in list[1..] :: ref in list;
      if Exists(s, list[0]) && Triggered(s, list[0], oldval) {
        ComparisonIgnoresOld(s, list[0], oldval, 0);
        FireThins(s, list[0], c);
        var s' := Fire(s, list[0]);
        StillCompare(s, s', c, list);
        hide Thinned;
        if list[0].OfAlarm? {
          WalkHands(ct, s', list[1..], oldval, b, w, c, rule, r);
        } else {
          var tests := TestsOn(s', s'.counters[c].triglist);
          TestsAre(s', s'.counters[c].triglist);
          NarrowingHands(ct, s'.counters[c].value, WIDE, w, tests, rule, r);
          var b' := NarrowAll(ct, s'.counters[c].value, WIDE, tests);
          WalkHands(ct, s', list[1..], oldval, b', rule(w, WIDE, b'), c, rule, r);
        }
      } else {
        WalkHands(ct, s, list[1..], oldval, b, w, c, rule, r);
      }
    }
  }

  lemma ReadyCompare(s: State, c: nat, v: int)
    requires Ready(s, c)
    ensures var t := WithValue(s, c, v); Firable(t) && AllCompare(t, t.counters[c].triglist) && t.counters[c].triglist == s.counters[c].triglist
  {
    ValueIsFirable(s, c, v);
    var t := WithValue(s, c, v);
    assert forall ref | Exists(t, ref) :: Exists(s, ref) && TriggerOf(t, ref) == TriggerOf(s, ref);
  }

  /** And so does the whole change of the counter. */
  lemma ChangeHands(ct: CounterType, s: State, b: Brackets, w: Watch, c: nat, v: int, rule: Rule, r: Readings)
    requires Ready(s, c) && IsInt64(v) && Proper(r) && r.low <= v <= r.high
    ensures var (b', w') := Rebracketed(ct, s, b, w, c, v, rule); Handed(ct, b, w, b', w', rule, r)
  {
    ReadyCompare(s, c, v);
    ChangedIsReady(s, c, v);
    var t, list := WithValue(s, c, v), s.counters[c].triglist;
    WalkHands(ct, t, list, s.counters[c].value, b, w, c, rule, r);
    hide Inv, Firable, Walked, CounterChanged, NarrowAll, Sensible, KeepsGreater, KeepsBoth;
    var (b1, w1) := Walked(ct, t, list, s.counters[c].value, b, w, c, rule);
    NarrowingHands(ct, v, b1, w1, Tests(CounterChanged(s, c, v), c), rule, r);
  }

  /** Both pointers, or the upper one of a counter that never decreases, attend to everything. */
  ghost predicate Enough(ct: CounterType, w: Watch, rule: Rule) {
    || (KeepsBoth(rule) && w == BOTH)
    || (ct == NeverDecreases && KeepsGreater(rule) && w.greater)
  }

  lemma {:induction false} EnoughAttends(ct: CounterType, s: State, b: Brackets, w: Watch, c: nat, path: seq<int>, rule: Rule)
    requires Ready(s, c) && AllInt64(path) && Enough(ct, w, rule)
    ensures Attended(ct, s, b, w, c, path, rule, INT64)
    decreases |path|
  {
    if path != [] {
      hide Ready, CounterChanged, Rebracketed;
      if Reached(ct, b, w, path[0]) {
        ChangedIsReady(s, c, path[0]);
        ChangeHands(ct, s, b, w, c, path[0], rule, INT64);
        var (b', w') := Rebracketed(ct, s, b, w, c, path[0], rule);
        hide KeepsBoth, KeepsGreater;
        EnoughAttends(ct, CounterChanged(s, c, path[0]), b', w', c, path[1..], rule);
      } else {
        hide KeepsBoth, KeepsGreater;
        EnoughAttends(ct, s, b, w, c, path[1..], rule);
      }
    }
  }

  /** A server that always watches both brackets need check the counter only where one is reached. */
  lemma LazyIsEager(ct: CounterType, s: State, b: Brackets, c: nat, path: seq<int>, rule: Rule)
    requires Ready(s, c) && AllInt64(path) && Possible(ct, s.counters[c].value, path) && KeepsBoth(rule)
    ensures var brackets := NarrowAll(ct, s.counters[c].value, b, Tests(s, c));
            SameButValue(Eager(s, c, path), Lazy(ct, s, brackets, BOTH, c, path, rule), c, LastOf(s.counters[c].value, path))
  {
    EnoughAttends(ct, s, NarrowAll(ct, s.counters[c].value, b, Tests(s, c)), BOTH, c, path, rule);
    WatchedIsEager(ct, s, b, BOTH, c, path, rule, INT64);
  }

  /** The counter of the server time, which never decreases, may be looked at only where its bracket is reached, once that is watched. */
  lemma ServerTimeIsEager(s: State, b: Brackets, w: Watch, c: nat, path: seq<int>)
    requires Ready(s, c) && AllInt64(path) && Possible(NeverDecreases, s.counters[c].value, path) && w.greater
    ensures var brackets := NarrowAll(NeverDecreases, s.counters[c].value, b, Tests(s, c));
            SameButValue(Eager(s, c, path), Lazy(NeverDecreases, s, brackets, w, c, path, Rewatched), c, LastOf(s.counters[c].value, path))
  {
    assert KeepsGreater(Rewatched);
    EnoughAttends(NeverDecreases, s, NarrowAll(NeverDecreases, s.counters[c].value, b, Tests(s, c)), w, c, path, Rewatched);
    WatchedIsEager(NeverDecreases, s, b, w, c, path, Rewatched, INT64);
  }

  /** A live trigger that is true at the new value fires, so that more changes than the value. */
  lemma LiveFires(s: State, c: nat, v: int, ref: TriggerRef)
    requires Ready(s, c) && IsInt64(v) && ref in s.counters[c].triglist
    requires Exists(s, ref) && Live(s, ref) && True(TestOf(TriggerOf(s, ref)), v)
    ensures CounterChanged(s, c, v) != WithValue(s, c, v)
  {
    CounterChangedKeeps(s, c, v);
    ListsExist(s, c);
    var t := WithValue(s, c, v);
    assert TriggerOf(t, ref) == TriggerOf(s, ref) && Exists(t, ref);
    assert !Settled(t, ref);
    var s' := CounterChanged(s, c, v);
    assert forall r | Exists(s', r) :: Settled(s', r);
  }

  /** If a live trigger is not attended to, some reading reaches no bracket that is watched, and fires it. */
  lemma Missed(ct: CounterType, s: State, c: nat, b: Brackets, w: Watch, r: Readings) returns (v: int)
    requires Ready(s, c) && Proper(r) && Sensible(b, r) && !Attends(ct, s, c, w, r)
    ensures r.low <= v <= r.high && (ct == NeverDecreases ==> v == r.high)
    ensures !Reached(ct, b, w, v) && CounterChanged(s, c, v) != WithValue(s, c, v)
  {
    var ref :| ref in s.counters[c].triglist && Live(s, ref)
               && !(if TriggerOf(s, ref).testType == PositiveComparison then w.greater || TriggerOf(s, ref).testValue > r.high
                    else ct == NeverDecreases || w.less || TriggerOf(s, ref).testValue < r.low);
    ListsExist(s, c);
    v := if TriggerOf(s, ref).testType == PositiveComparison then r.high else r.low;
    LiveFires(s, c, v, ref);
  }

  /** The next reading has an effect only where it reaches a bracket if and only if every live trigger is attended to. */
  lemma AttendsIff(ct: CounterType, s: State, c: nat, b: Brackets, w: Watch, r: Readings)
    requires Ready(s, c) && Covers(ct, s, c, b) && Proper(r) && Sensible(b, r) && r.low <= s.counters[c].value <= r.high
    ensures Attends(ct, s, c, w, r) <==>
            forall v | r.low <= v <= r.high && (ct == NeverDecreases ==> s.counters[c].value <= v) && !Reached(ct, b, w, v) ::
              CounterChanged(s, c, v) == WithValue(s, c, v)
  {
    var value := s.counters[c].value;
    assert WithValue(s, c, value) == s;
    hide Inv, Firable, Covers, CounterChanged, WithValue, Sensible, Reached;
    if Attends(ct, s, c, w, r) {
      forall v | r.low <= v <= r.high && (ct == NeverDecreases ==> value <= v) && !Reached(ct, b, w, v)
        ensures CounterChanged(s, c, v) == WithValue(s, c, v)
      {
        ShortOfBrackets(ct, s, b, w, c, v, value, r);
      }
    } else {
      var v := Missed(ct, s, c, b, w, r);
    }
  }

  ghost predicate Readable(ct: CounterType, now: int, path: seq<int>, r: Readings) {
    AllInt64(path) && Within(path, r) && Possible(ct, now, path)
  }

  lemma OneMoreReading(ct: CounterType, now: int, v: int, more: seq<int>, r: Readings)
    requires Readable(ct, v, more, r) && Proper(r) && r.low <= v <= r.high && (ct == NeverDecreases ==> now <= v)
    ensures Readable(ct, now, [v] + more, r)
  {
    var path := [v] + more;
    assert path[0] == v && path[1..] == more;
  }

  /** Where a path comes to a trigger that is not attended to, it can be led on so that the servers differ. */
  lemma {:induction false} Strays(ct: CounterType, e: State, s: State, b: Brackets, w: Watch, c: nat, now: int,
                                  path: seq<int>, rule: Rule, r: Readings) returns (stray: seq<int>)
    requires Ready(s, c) && Covers(ct, s, c, b) && Ready(e, c) && SameButValue(e, s, c, now) && r.low <= now <= r.high
    requires Readable(ct, now, path, r) && (ct == NeverDecreases ==> s.counters[c].value <= now)
    requires Proper(r) && Sensible(b, r)
    requires !Attended(ct, s, b, w, c, path, rule, r)
    ensures Readable(ct, now, stray, r)
    ensures !SameButValue(Eager(e, c, stray), Lazy(ct, s, b, w, c, stray, rule), c, LastOf(now, stray))
    decreases |path|
  {
    hide Inv, Firable, Covers, CounterChanged, Reached, NarrowAll, Tests, WithValue, Sensible, Walked;
    if !Attends(ct, s, c, w, r) {
      var v := Missed(ct, s, c, b, w, r);
      ChangeFromAnywhere(s, c, now, v);
      ChangedIsReady(e, c, v);
      OneMoreReading(ct, now, v, [], r);
      stray := [v] + [];
      assert stray[0] == v && stray[1..] == [];
    } else {
      hide Attends;
      var v, rest := path[0], path[1..];
      ChangedIsReady(e, c, v);
      var more: seq<int>;
      if Reached(ct, b, w, v) {
        var s' := CounterChanged(s, c, v);
        ValueIsFirable(s, c, v);
        CrossingStep(ct, s, c, now, v, Walked(ct, WithValue(s, c, v), s.counters[c].triglist, s.counters[c].value, b, w, c, rule).0);
        ChangeHands(ct, s, b, w, c, v, rule, r);
        var (b', w') := Rebracketed(ct, s, b, w, c, v, rule);
        more := Strays(ct, s', s', b', w', c, v, rest, rule, r);
      } else {
        ShortOfBrackets(ct, s, b, w, c, v, now, r);
        more := Strays(ct, CounterChanged(e, c, v), s, b, w, c, v, rest, rule, r);
      }
      OneMoreReading(ct, now, v, more, r);
      stray := [v] + more;
      assert stray[0] == v && stray[1..] == more;
    }
  }

  ghost predicate EagerOn(ct: CounterType, s: State, b: Brackets, w: Watch, c: nat, path: seq<int>, rule: Rule)
    requires Ready(s, c) && AllInt64(path)
  {
    SameButValue(Eager(s, c, path), Lazy(ct, s, b, w, c, path, rule), c, LastOf(s.counters[c].value, path))
  }

  /** The two servers agree on all paths of readings if and only if on all of them every live trigger is attended to. */
  lemma EagerIffAttended(ct: CounterType, s: State, start: Brackets, w: Watch, c: nat, rule: Rule, r: Readings)
    requires Ready(s, c) && (ct == Unrestricted || ct == NeverDecreases)
    requires Proper(r) && Sensible(start, r) && r.low <= s.counters[c].value <= r.high
    ensures var b := NarrowAll(ct, s.counters[c].value, start, Tests(s, c));
            (forall path | Readable(ct, s.counters[c].value, path, r) :: EagerOn(ct, s, b, w, c, path, rule))
            <==> forall path | Readable(ct, s.counters[c].value, path, r) :: Attended(ct, s, b, w, c, path, rule, r)
  {
    var value := s.counters[c].value;
    var b := NarrowAll(ct, value, start, Tests(s, c));
    BracketsCover(ct, s, c, start);
    StaysSensible(ct, value, start, Tests(s, c), r);
    assert WithValue(s, c, value) == s;
    hide Covers, NarrowAll, Tests, Sensible, WithValue, Attended, Possible, Eager, Lazy;
    if !(forall path | Readable(ct, value, path, r) :: Attended(ct, s, b, w, c, path, rule, r)) {
      var path :| Readable(ct, value, path, r) && !Attended(ct, s, b, w, c, path, rule, r);
      var stray := Strays(ct, s, s, b, w, c, value, path, rule, r);
      assert !EagerOn(ct, s, b, w, c, stray, rule);
    } else {
      forall path | Readable(ct, value, path, r)
        ensures EagerOn(ct, s, b, w, c, path, rule)
      {
        WatchedIsEager(ct, s, start, w, c, path, rule, r);
      }
    }
  }

  // ---------- An idle counter that is not watched ----------

  /** The idle time is 7. Alarm 0 went off at 3 for good; alarm 1 goes off at 5 and below, and then 4 lower. */
  function Idle(test: int, value: int, log: seq<Event>): State {
    State(map[0 := Counter(value, [OfAlarm(0), OfAlarm(1)], false)],
          map[0 := Alarm(Trigger(On(0), Absolute, 3, PositiveComparison, 3, PositiveComparison), 0, Inactive),
              1 := Alarm(Trigger(On(0), Absolute, 5, NegativeComparison, test, NegativeComparison), -4, Active)],
          map[], {}, log)
  }

  lemma IdleIsReady(test: int, value: int, log: seq<Event>)
    requires IsInt64(test) && IsInt64(value) && value > test
    requires forall e | e in log :: e.AlarmNotify?
    ensures Ready(Idle(test, value, log), 0)
    ensures Tests(Idle(test, value, log), 0) == [Test(PositiveComparison, 3), Test(NegativeComparison, test)]
  {
    var s := Idle(test, value, log);
    var list := [OfAlarm(0), OfAlarm(1)];
    assert list[1..] == [OfAlarm(1)] && [OfAlarm(1)][1..] == [];
    assert TestsOn(s, list) == [Test(PositiveComparison, 3)] + TestsOn(s, [OfAlarm(1)]);
    assert TestsOn(s, [OfAlarm(1)]) == [Test(NegativeComparison, test)];
    assert forall ref :: Exists(s, ref) <==> ref == OfAlarm(0) || ref == OfAlarm(1);
    assert ReleasedOnce(s) by {
      forall client: nat
        ensures multiset(s.log)[IgnoreClient(client)] == 0 == multiset(s.log)[AttendClient(client)]
      {
        assert IgnoreClient(client) !in s.log && AttendClient(client) !in s.log;
      }
    }
    assert Inv(s);
    InvIsFirable(s);
  }

  lemma AlarmOneFires()
    requires Firable(Idle(5, 2, []))
    ensures !Triggered(Idle(5, 2, []), OfAlarm(0), 7) && Triggered(Idle(5, 2, []), OfAlarm(1), 7)
    ensures Fire(Idle(5, 2, []), OfAlarm(1)) == Idle(1, 2, [AlarmNotify(1, 2, 5, Active)])
  {
    assert Advanced(NegativeComparison, 5, -4, 2) == Some(1);
  }

  lemma IdleFires()
    ensures Ready(Idle(5, 7, []), 0)
    ensures CounterChanged(Idle(5, 7, []), 0, 2) == Idle(1, 2, [AlarmNotify(1, 2, 5, Active)])
  {
    IdleIsReady(5, 7, []);
    var t, list := Idle(5, 2, []), [OfAlarm(0), OfAlarm(1)];
    ValueIsFirable(Idle(5, 7, []), 0, 2);
    assert WithValue(Idle(5, 7, []), 0, 2) == t;
    AlarmOneFires();
    hide Fire, Firable, Triggered;
    assert list[1..] == [OfAlarm(1)] && [OfAlarm(1)][1..] == [];
    assert FireAll(t, list, 7) == FireAll(t, [OfAlarm(1)], 7) == FireAll(Fire(t, OfAlarm(1)), [], 7);
  }

  lemma AlarmOneWouldFire(log: seq<Event>)
    requires forall e | e in log :: e.AlarmNotify?
    ensures Ready(Idle(1, 2, log), 0)
    ensures CounterChanged(Idle(1, 2, log), 0, 0) != WithValue(Idle(1, 2, log), 0, 0)
  {
    IdleIsReady(1, 2, log);
    LiveFires(Idle(1, 2, log), 0, 0, OfAlarm(1));
  }

  lemma TwoTests(value: int, b: Brackets, test: int)
    ensures NarrowAll(Unrestricted, value, b, [Test(PositiveComparison, 3), Test(NegativeComparison, test)])
            == Narrow(Unrestricted, value, Narrow(Unrestricted, value, b, Test(PositiveComparison, 3)), Test(NegativeComparison, test))
  {
    var first, second := Test(PositiveComparison, 3), Test(NegativeComparison, test);
    assert [first, second][..1] == [first] && [first][..0] == [];
    assert NarrowAll(Unrestricted, value, b, [first]) == Narrow(Unrestricted, value, b, first);
  }

  /** Two readings: the first reaches a bracket, the second none, although something would fire. */
  lemma SecondIsMissed(s: State, b: Brackets, w: Watch, c: nat, v: int, u: int, rule: Rule)
    requires Ready(s, c) && IsInt64(v) && IsInt64(u) && Reached(Unrestricted, b, w, v)
    requires var s1 := CounterChanged(s, c, v);
             var (b1, w1) := Rebracketed(Unrestricted, s, b, w, c, v, rule);
             && Ready(s1, c) && !Reached(Unrestricted, b1, w1, u)
             && CounterChanged(s1, c, u) != WithValue(s1, c, u)
    ensures !EagerOn(Unrestricted, s, b, w, c, [v, u], rule)
  {
    var s1 := CounterChanged(s, c, v);
    var (b1, w1) := Rebracketed(Unrestricted, s, b, w, c, v, rule);
    hide Reached, CounterChanged, Inv, Firable, Compares, Rebracketed, WithValue;
    assert [v, u][1..] == [u] && [u][1..] == [];
    assert Lazy(Unrestricted, s1, b1, w1, c, [u], rule) == s1;
    assert Lazy(Unrestricted, s, b, w, c, [v, u], rule) == s1;
    assert Eager(s1, c, [u]) == CounterChanged(s1, c, u);
    assert Eager(s, c, [v, u]) == CounterChanged(s1, c, u);
  }

  /** Without awaits on the list nothing is computed anew on the way. */
  lemma {:induction false} NoneAnew(ct: CounterType, s: State, list: seq<TriggerRef>, oldval: int, b: Brackets, w: Watch, c: nat, rule: Rule)
    requires Firable(s) && c in s.counters && forall ref | ref in list :: ref.OfAlarm?
    ensures Walked(ct, s, list, oldval, b, w, c, rule) == (b, w)
    decreases |list|
  {
    if list != [] {
      assert list[0] in list && forall ref | ref in list[1..] :: ref in list;
      if Exists(s, list[0]) && Triggered(s, list[0], oldval) {
        ComparisonIgnoresOld(s, list[0], oldval, 0);
        FireThins(s, list[0], c);
        NoneAnew(ct, Fire(s, list[0]), list[1..], oldval, b, w, c, rule);
      } else {
        NoneAnew(ct, s, list[1..], oldval, b, w, c, rule);
      }
    }
  }

  lemma IdleWalk(s: State)
    requires s == Idle(5, 7, [])
    ensures Ready(s, 0) && Firable(WithValue(s, 0, 2)) && s.counters[0].value == 7
    ensures Walked(Unrestricted, WithValue(s, 0, 2), s.counters[0].triglist, 7, Brackets(5, MAX_INT64), Watch(true, false), 0, Rewatched)
            == (Brackets(5, MAX_INT64), Watch(true, false))
  {
    IdleIsReady(5, 7, []);
    ValueIsFirable(s, 0, 2);
    hide Inv, Firable, Compares, Walked;
    NoneAnew(Unrestricted, WithValue(s, 0, 2), s.counters[0].triglist, 7, Brackets(5, MAX_INT64), Watch(true, false), 0, Rewatched);
  }

  lemma RebracketedIs(ct: CounterType, s: State, b: Brackets, w: Watch, c: nat, v: int, rule: Rule, s1: State, b1: Brackets)
    requires Ready(s, c) && IsInt64(v) && Firable(WithValue(s, c, v)) && c in WithValue(s, c, v).counters
    requires Walked(ct, WithValue(s, c, v), s.counters[c].triglist, s.counters[c].value, b, w, c, rule) == (b, w)
    requires CounterChanged(s, c, v) == s1 && Ready(s1, c) && NarrowAll(ct, v, b, Tests(s1, c)) == b1
    ensures Rebracketed(ct, s, b, w, c, v, rule) == (b1, rule(w, b, b1))
  {
    hide Inv, Firable, Compares, CounterChanged, Walked, NarrowAll, WithValue, Tests;
  }

  lemma IdleRebracketed(s: State, v: int, s1: State, b: Brackets, w: Watch)
    requires s == Idle(5, 7, []) && v == 2 && s1 == Idle(1, 2, [AlarmNotify(1, 2, 5, Active)])
    requires b == Brackets(5, MAX_INT64) && w == Watch(true, false)
    ensures Ready(s, 0) && Rebracketed(Unrestricted, s, b, w, 0, v, Rewatched) == (Brackets(5, 3), Watch(false, true))
  {
    hide CounterChanged, Walked, WithValue, Tests, Inv, Firable, Compares, NarrowAll;
    IdleIsReady(5, 7, []);
    IdleIsReady(1, 2, [AlarmNotify(1, 2, 5, Active)]);
    IdleFires();
    IdleWalk(s);
    ValueIsFirable(s, 0, v);
    TwoTests(2, Brackets(5, MAX_INT64), 1);
    hide Idle;
    RebracketedIs(Unrestricted, s, b, w, 0, v, Rewatched, s1, Brackets(5, 3));
  }

  /**
    * When the idle time falls to 2, alarm 1 goes off and its next test value is 1, but alarm 0, which is no longer
    * Active, narrows the upper bracket alone. The lower one is no longer watched, and at 0 alarm 1 does not go off.
    */
  lemma IdleTimeMissesAlarm(s: State, b: Brackets, w: Watch, path: seq<int>)
    requires s == Idle(5, 7, []) && b == Brackets(5, MAX_INT64) && w == Watch(true, false) && path == [2, 0]
    ensures Ready(s, 0) && NarrowAll(Unrestricted, 7, WIDE, Tests(s, 0)) == b && Rewatched(Watch(false, false), WIDE, b) == w
    ensures !EagerOn(Unrestricted, s, b, w, 0, path, Rewatched)
  {
    hide Idle, CounterChanged, EagerOn, Tests, Rebracketed, Inv, Firable, Compares;
    IdleRebracketed(s, 2, Idle(1, 2, [AlarmNotify(1, 2, 5, Active)]), b, w);
    IdleFires();
    AlarmOneWouldFire([AlarmNotify(1, 2, 5, Active)]);
    SecondIsMissed(s, b, w, 0, 2, 0, Rewatched);
    IdleIsReady(5, 7, []);
    TwoTests(7, WIDE, 5);
    hide NarrowAll;
  }
}
