/** Server time stamps: months of 2^32 milliseconds. */
module TimeStamps {
  const MONTH: nat := 0x1_0000_0000

  type Milliseconds = ms: nat | ms < MONTH

  datatype TimeStamp = TimeStamp(months: nat, milliseconds: Milliseconds)

  /** Milliseconds since the epoch of the server. */
  function Abs(t: TimeStamp): nat {
    t.months * MONTH + t.milliseconds
  }

  /** CompareTimeStamps(a, b) == LATER. */
  predicate Later(a: TimeStamp, b: TimeStamp)
    ensures Later(a, b) <==> Abs(a) > Abs(b)
  {
    a.months > b.months || (a.months == b.months && a.milliseconds > b.milliseconds)
  }

  /** A 32-bit difference of milliseconds never goes past the time, and reaches it if it is less than a month away. */
  lemma UntilIs(now: TimeStamp, due: TimeStamp)
    requires Abs(now) <= Abs(due)
    ensures var delay := (due.milliseconds - now.milliseconds) % MONTH;
            Abs(now) + delay <= Abs(due) && (Abs(now) + delay == Abs(due) <==> Abs(due) < Abs(now) + MONTH)
  {
    var d, months := due.milliseconds - now.milliseconds, due.months - now.months;
    assert Abs(due) - Abs(now) == months * MONTH + d;
    if d < 0 {
      assert months >= 1;
      assert d % MONTH == d + MONTH;
    }
  }

  /** BumpTimeStamp: the 32-bit sum may wrap into the next month. */
  method Bump(ts: TimeStamp, inc: Milliseconds) returns (r: TimeStamp)
    ensures Abs(r) == Abs(ts) + inc
  {
    var newms := (ts.milliseconds + inc) % MONTH;
    var months := ts.months;
    if newms < ts.milliseconds {
      months := months + 1;
    }
    r := TimeStamp(months, newms);
  }

  /** UpdateCurrentTime, given the reading of the 32-bit clock. */
  method Advance(current: TimeStamp, reading: Milliseconds) returns (r: TimeStamp)
    ensures Abs(r) >= Abs(current)
    ensures r.milliseconds == reading
    // no later time with that reading has been skipped
    ensures Abs(r) < Abs(current) + MONTH
  {
    var systime := TimeStamp(current.months, reading);
    if reading < current.milliseconds {
      systime := systime.(months := systime.months + 1);
    }
    r := current;
    if Later(systime, current) {
      r := systime;
    }
  }
}
