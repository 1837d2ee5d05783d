/**
 * Bracket values of a system counter: the nearest test values around the
 * current value, between which the server need not look at the counter.
 */
module SyncBrackets {
  import opened SyncModel

  datatype CounterType = NeverChanges | NeverIncreases | NeverDecreases | Unrestricted

  /** What matters of a trigger on the list of a system counter. */
  datatype Test = Test(testType: TestType, testValue: int)

  datatype Brackets = Brackets(less: int, greater: int)

  /** What one trigger does to the brackets. */
  function Narrow(ct: CounterType, value: int, b: Brackets, t: Test): Brackets {
    if t.testType == PositiveComparison && ct != NeverIncreases then
      if value < t.testValue < b.greater then b.(greater := t.testValue) else b
    else if t.testType == NegativeComparison && ct != NeverDecreases then
      if value > t.testValue > b.less then b.(less := t.testValue) else b
    else if (t.testType == PositiveTransition && ct != NeverIncreases) || (t.testType == NegativeTransition && ct != NeverDecreases) then
      if value < t.testValue then
        if t.testValue < b.greater then b.(greater := t.testValue)
        else if t.testValue > b.less then b.(less := t.testValue)
        else b
      else b
    else b
  }

  function NarrowAll(ct: CounterType, value: int, b: Brackets, tests: seq<Test>): Brackets {
    if tests == [] then b
    else Narrow(ct, value, NarrowAll(ct, value, b, tests[..|tests| - 1]), tests[|tests| - 1])
  }

  /** Which brackets the handler looks at: those that it has been given pointers to. */
  datatype Watch = Watch(less: bool, greater: bool)

  /** The computation of the brackets hands on pointers to those that it has narrowed, if there are any. */
  function Rewatched(w: Watch, b: Brackets, b': Brackets): Watch {
    if b'.less == b.less && b'.greater == b.greater then w else Watch(b'.less != b.less, b'.greater != b.greater)
  }

  const WIDE := Brackets(MIN_INT64, MAX_INT64)

  class SystemCounter {
    const counterType: CounterType
    var value: int
    var triglist: seq<Test>
    var brackets: Brackets
    var watch: Watch

    constructor (counterType: CounterType, initial: int)
      ensures this.counterType == counterType && value == initial && triglist == [] && brackets == WIDE && watch == Watch(false, false)
    {
      this.counterType := counterType;
      value, triglist, brackets, watch := initial, [], WIDE, Watch(false, false);
    }

    /** The counter's own procedure takes pointers to brackets, or null. */
    method BracketValues(less: bool, greater: bool)
      modifies `watch
      ensures watch == Watch(less, greater)
    {
      watch := Watch(less, greater);
    }

    /** SyncComputeBracketValues. */
    method ComputeBracketValues(startOver: bool)
      modifies `brackets, `watch
      ensures brackets ==
              if counterType == NeverChanges then old(brackets)
              else NarrowAll(counterType, value, if startOver then WIDE else old(brackets), triglist)
      // a pointer to a bracket is dropped when only the other one is narrowed
      ensures watch ==
              if counterType == NeverChanges then old(watch)
              else Rewatched(old(watch), if startOver then WIDE else old(brackets), brackets)
    {
      if counterType == NeverChanges {
        return;
      }
      if startOver {
        brackets := WIDE;
      }
      ghost var start := brackets;
      var newLess, newGreater := false, false;
      for i := 0 to |triglist|
        invariant brackets == NarrowAll(counterType, value, start, triglist[..i])
        invariant watch == old(watch)
        invariant brackets.less >= start.less && (newLess <==> brackets.less != start.less)
        invariant brackets.greater <= start.greater && (newGreater <==> brackets.greater != start.greater)
      {
        assert triglist[..i + 1][..i] == triglist[..i];
        var t := triglist[i];
        if t.testType == PositiveComparison && counterType != NeverIncreases {
          if value < t.testValue && t.testValue < brackets.greater {
            brackets, newGreater := brackets.(greater := t.testValue), true;
          }
        } else if t.testType == NegativeComparison && counterType != NeverDecreases {
          if value > t.testValue && t.testValue > brackets.less {
            brackets, newLess := brackets.(less := t.testValue), true;
          }
        } else if (t.testType == PositiveTransition && counterType != NeverIncreases)
                  || (t.testType == NegativeTransition && counterType != NeverDecreases) {
          if value < t.testValue {
            if t.testValue < brackets.greater {
              brackets, newGreater := brackets.(greater := t.testValue), true;
            } else if t.testValue > brackets.less {
              brackets, newLess := brackets.(less := t.testValue), true;
            }
          }
        }
      }
      assert triglist[..|triglist|] == triglist;
      if newLess || newGreater {
        BracketValues(newLess, newGreater);
      }
    }
  }

  predicate AllComparisons(tests: seq<Test>) {
    forall i | 0 <= i < |tests| :: tests[i].testType.Comparison()
  }

  /** `g` is the least of `limit` and the PositiveComparison test values above `value`. */
  ghost predicate LeastAbove(tests: seq<Test>, value: int, limit: int, g: int) {
    && g <= limit
    && (g < limit ==> g > value && Test(PositiveComparison, g) in tests)
    && forall t | t in tests && t.testType == PositiveComparison && t.testValue > value :: g <= t.testValue
  }

  /** `l` is the greatest of `limit` and the NegativeComparison test values below `value`. */
  ghost predicate GreatestBelow(tests: seq<Test>, value: int, limit: int, l: int) {
    && l >= limit
    && (l > limit ==> l < value && Test(NegativeComparison, l) in tests)
    && forall t | t in tests && t.testType == NegativeComparison && t.testValue < value :: l >= t.testValue
  }

  /** For comparison triggers the brackets are the nearest test values, up to the brackets there were before. */
  lemma {:induction false} BracketsAreNearest(ct: CounterType, value: int, b: Brackets, tests: seq<Test>)
    requires AllComparisons(tests)
    ensures ct != NeverIncreases ==> LeastAbove(tests, value, b.greater, NarrowAll(ct, value, b, tests).greater)
    ensures ct != NeverDecreases ==> GreatestBelow(tests, value, b.less, NarrowAll(ct, value, b, tests).less)
  {
    if tests != [] {
      var rest, last := tests[..|tests| - 1], tests[|tests| - 1];
      assert tests == rest + [last];
      BracketsAreNearest(ct, value, b, rest);
      assert last.testType.Comparison();
    }
  }

  /** The comparison is true at `value`. */
  predicate True(t: Test, value: int) {
    Holds(t.testType, t.testValue, value, value)
  }

  predicate Inside(b: Brackets, v: int) {
    b.less < v < b.greater
  }

  /** The triggers that a check at value `v` fires. */
  function FiredAt(tests: seq<Test>, v: int): set<Test> {
    set t | t in tests && True(t, v)
  }

  /** The test types for which a test value above the counter's value narrows the upper bracket. */
  predicate NarrowsGreater(ct: CounterType, t: TestType) {
    ct != NeverIncreases && (t == PositiveComparison || t == PositiveTransition)
  }

  /** Whatever is on the list: brackets only close in, and never past a test value that narrows them. */
  lemma {:induction false} NarrowedTo(ct: CounterType, value: int, b: Brackets, tests: seq<Test>)
    ensures var n := NarrowAll(ct, value, b, tests);
            && n.greater <= b.greater && n.less >= b.less
            && (forall t | t in tests && NarrowsGreater(ct, t.testType) && t.testValue > value :: n.greater <= t.testValue)
            && (forall t | t in tests && ct != NeverDecreases && t.testType == NegativeComparison && t.testValue < value :: n.less >= t.testValue)
            && (b.greater >= value ==> n.greater >= value)
  {
    if tests != [] {
      var rest, last := tests[..|tests| - 1], tests[|tests| - 1];
      assert tests == rest + [last];
      NarrowedTo(ct, value, b, rest);
    }
  }

  /**
    * A move strictly inside the brackets cannot turn a false comparison true, whatever else is on the list, and
    * whether or not the computation started over.
    */
  lemma StaysFalseInside(value: int, b: Brackets, tests: seq<Test>, t: Test, v: int)
    requires t in tests && t.testType.Comparison() && !True(t, value)
    requires Inside(NarrowAll(Unrestricted, value, b, tests), v)
    ensures !True(t, v)
  {
    NarrowedTo(Unrestricted, value, b, tests);
  }

  /** A counter that never decreases needs its upper bracket only. */
  lemma StaysFalseBelowGreater(value: int, b: Brackets, tests: seq<Test>, t: Test, v: int)
    requires t in tests && t.testType.Comparison() && !True(t, value)
    requires value <= v < NarrowAll(NeverDecreases, value, b, tests).greater
    ensures !True(t, v)
  {
    NarrowedTo(NeverDecreases, value, b, tests);
  }

  /**
    * Of the transitions on the list the brackets catch the positive ones, and a negative one if and only if it has
    * nowhere to cross or another trigger has narrowed the lower bracket that far: the test is for values above the
    * counter's in both branches.
    */
  lemma TransitionCaughtIff(value: int, b: Brackets, tests: seq<Test>, t: Test)
    requires t in tests && !t.testType.Comparison() && b.greater >= value
    ensures var n := NarrowAll(Unrestricted, value, b, tests);
            (forall v | Inside(n, v) :: !Holds(t.testType, t.testValue, value, v)) <==>
            t.testType == PositiveTransition || t.testValue >= value || n.less >= t.testValue
  {
    NarrowedTo(Unrestricted, value, b, tests);
    var n := NarrowAll(Unrestricted, value, b, tests);
    if t.testType == NegativeTransition && n.less < t.testValue < value {
      assert Inside(n, t.testValue) && Holds(t.testType, t.testValue, value, t.testValue);
    }
  }

  /** A negative transition at 3 does not narrow the brackets at 5, and a move to 2 makes it true inside them. */
  lemma NegativeTransitionMissed(tests: seq<Test>)
    requires tests == [Test(NegativeTransition, 3)]
    ensures NarrowAll(Unrestricted, 5, WIDE, tests) == WIDE && Inside(WIDE, 2) && Holds(NegativeTransition, 3, 5, 2)
  {
    assert tests[..0] == [];
  }

  /** Brackets computed anew are no tighter than that: at one that is not a limit of INT64, a trigger fires. */
  lemma BracketsAreTight(value: int, tests: seq<Test>)
    requires AllComparisons(tests)
    ensures var b := NarrowAll(Unrestricted, value, WIDE, tests);
            && (b.greater < MAX_INT64 ==> FiredAt(tests, b.greater) != {})
            && (b.less > MIN_INT64 ==> FiredAt(tests, b.less) != {})
  {
    BracketsAreNearest(Unrestricted, value, WIDE, tests);
    var b := NarrowAll(Unrestricted, value, WIDE, tests);
    assert b.greater < MAX_INT64 ==> Test(PositiveComparison, b.greater) in FiredAt(tests, b.greater);
    assert b.less > MIN_INT64 ==> Test(NegativeComparison, b.less) in FiredAt(tests, b.less);
  }
}
