/** When buffers were displayed, and how long that has to wait. */
module DisplayTimes {
  import opened MultibufferModel
  import opened TimeStamps

  /** A display at `time` of a request with a minimum delay; `waited` unless it could not be put to sleep. */
  datatype Shown = Shown(time: nat, delay: nat, waited: bool)

  /** Each display that could wait has waited its own delay after every earlier one. */
  ghost predicate Spaced(shows: seq<Shown>) {
    forall i, j | 0 <= i < j < |shows| ::
      shows[i].time <= shows[j].time && (shows[j].waited ==> shows[i].time + shows[j].delay <= shows[j].time)
  }

  /** The time stamp of the last update is that of the last display; 0 if there was none. */
  ghost predicate Timed(shows: seq<Shown>, lastUpdate: TimeStamp, now: TimeStamp) {
    && Spaced(shows)
    && Abs(lastUpdate) == (if shows == [] then 0 else shows[|shows| - 1].time)
    && Abs(lastUpdate) <= Abs(now)
  }

  ghost predicate AllTimed(buffers: map<WindowId, Buffers>, shows: map<WindowId, seq<Shown>>, now: TimeStamp) {
    shows.Keys == buffers.Keys && forall w | w in buffers :: Timed(shows[w], buffers[w].lastUpdate, now)
  }

  /** A display keeps the spacing if it comes late enough after the last one. */
  lemma SpacedOn(shows: seq<Shown>, lastUpdate: TimeStamp, now: TimeStamp, delay: nat, waited: bool)
    requires Timed(shows, lastUpdate, now)
    requires waited ==> Abs(lastUpdate) + delay <= Abs(now)
    ensures Timed(shows + [Shown(Abs(now), delay, waited)], now, now)
  {
    var next := shows + [Shown(Abs(now), delay, waited)];
    forall i, j | 0 <= i < j < |next|
      ensures next[i].time <= next[j].time && (next[j].waited ==> next[i].time + next[j].delay <= next[j].time)
    {
      if j == |shows| {
        assert i < |shows| - 1 ==> shows[i].time <= shows[|shows| - 1].time;
      }
    }
  }

  lemma AllTimedOn(buffers: map<WindowId, Buffers>, shows: map<WindowId, seq<Shown>>, now: TimeStamp,
                   w: WindowId, n: int, delay: nat, waited: bool)
    requires AllTimed(buffers, shows, now) && w in buffers
    requires waited ==> Abs(buffers[w].lastUpdate) + delay <= Abs(now)
    ensures w in shows
    ensures AllTimed(buffers[w := buffers[w].(displayed := n, lastUpdate := now)],
                     shows[w := shows[w] + [Shown(Abs(now), delay, waited)]], now)
  {
    SpacedOn(shows[w], buffers[w].lastUpdate, now, delay, waited);
  }

  lemma OnRecord(buffers: map<WindowId, Buffers>, shows: map<WindowId, seq<Shown>>, now: TimeStamp, w: WindowId)
    requires AllTimed(buffers, shows, now) && w in buffers
    ensures w in shows
  {}

  lemma StillTimed(buffers: map<WindowId, Buffers>, shows: map<WindowId, seq<Shown>>, now: TimeStamp, later: TimeStamp)
    requires AllTimed(buffers, shows, now) && Abs(now) <= Abs(later)
    ensures AllTimed(buffers, shows, later)
  {}

  /** The time from which on a request that names these buffers may be carried out. */
  ghost function WakeTime(buffers: map<WindowId, Buffers>, multibuffers: map<XID, Multibuffer>, names: seq<XID>, delay: nat): nat {
    if names == [] then 0
    else
      var last := names[|names| - 1];
      var before := WakeTime(buffers, multibuffers, names[..|names| - 1], delay);
      if last in multibuffers && multibuffers[last].window in buffers
         && before < Abs(buffers[multibuffers[last].window].lastUpdate) + delay
      then Abs(buffers[multibuffers[last].window].lastUpdate) + delay else before
  }

  /** It has come when the delay has passed since the last update of every window that is named. */
  lemma {:induction false} WakeTimeIs(buffers: map<WindowId, Buffers>, multibuffers: map<XID, Multibuffer>,
                                      names: seq<XID>, delay: nat, now: nat)
    requires forall x | x in names :: x in multibuffers && multibuffers[x].window in buffers
    ensures WakeTime(buffers, multibuffers, names, delay) <= now <==>
            forall x | x in names :: Abs(buffers[multibuffers[x].window].lastUpdate) + delay <= now
  {
    if names != [] {
      var front := names[..|names| - 1];
      var last := names[|names| - 1];
      WakeTimeIs(buffers, multibuffers, front, delay, now);
      assert names == front + [last];
      assert last in names;
    }
  }
}
