/** The steps of the multibuffering requests, and what they add up to. */
module MultibufferRequests {
  import opened BufferImages
  import opened DisplayTimes
  import opened MultibufferChanges
  import opened MultibufferModel
  import opened Regions
  import opened TimeStamps

  datatype Outcome = Done | Asleep(until: TimeStamp) | BadBuffer(id: XID) | BadMatch(id: XID) | BadIDChoice(id: XID) | BadLength

  // ---------- What a display request names ----------

  /** The names are buffers of different windows. */
  ghost predicate Fine(multibuffers: map<XID, Multibuffer>, names: seq<XID>) {
    && (forall x | x in names :: x in multibuffers)
    && forall i, j | 0 <= i < j < |names| :: multibuffers[names[i]].window != multibuffers[names[j]].window
  }

  ghost predicate SameWindowBefore(multibuffers: map<XID, Multibuffer>, names: seq<XID>, k: nat)
    requires k < |names| && names[k] in multibuffers
  {
    exists j | 0 <= j < k ::
      names[j] in multibuffers && multibuffers[names[j]].window == multibuffers[names[k]].window
  }

  /** The first thing wrong with the names, in the order of the request. */
  ghost function Fault(multibuffers: map<XID, Multibuffer>, names: seq<XID>): (f: Outcome)
    ensures f.Done? || f.BadBuffer? || f.BadMatch?
    ensures f.BadBuffer? ==> f.id in names && f.id !in multibuffers
    ensures f.BadMatch? ==> f.id in names && f.id in multibuffers
  {
    if names == [] then Done
    else
      var k := |names| - 1;
      var before := Fault(multibuffers, names[..k]);
      if before != Done then before
      else if names[k] !in multibuffers then BadBuffer(names[k])
      else if SameWindowBefore(multibuffers, names, k) then BadMatch(names[k])
      else Done
  }

  lemma {:induction false} FaultIff(multibuffers: map<XID, Multibuffer>, names: seq<XID>)
    ensures Fault(multibuffers, names) == Done <==> Fine(multibuffers, names)
  {
    if names != [] {
      var k := |names| - 1;
      FaultIff(multibuffers, names[..k]);
      assert names == names[..k] + [names[k]];
      if Fine(multibuffers, names) {
        assert forall x | x in names[..k] :: x in names;
      }
      if Fault(multibuffers, names) == Done {
        forall j | 0 <= j < k
          ensures multibuffers[names[j]].window != multibuffers[names[k]].window
        {
          assert names[j] in names[..k];
        }
      }
    }
  }

  lemma {:induction false} FaultOfPrefix(multibuffers: map<XID, Multibuffer>, names: seq<XID>, k: nat)
    requires k <= |names| && Fault(multibuffers, names[..k]) != Done
    ensures Fault(multibuffers, names) == Fault(multibuffers, names[..k])
    decreases |names|
  {
    if k == |names| {
      assert names[..k] == names;
    } else {
      assert names[..|names| - 1][..k] == names[..k];
      FaultOfPrefix(multibuffers, names[..|names| - 1], k);
    }
  }

  ghost predicate Viewed(s: Store, w: WindowId) {
    w in s.windows && w in s.buffers && 0 <= s.buffers[w].displayed < |s.buffers[w].ids|
  }

  /** Window w displays buffer n since `now`. */
  ghost predicate Brought(s: Store, t: Store, w: WindowId, n: nat, now: TimeStamp) {
    && Viewed(s, w) && Viewed(t, w) && n < |s.buffers[w].ids|
    && View(t, w) == Displayed(View(s, w), n)
    && t.buffers[w] == s.buffers[w].(displayed := n, lastUpdate := now)
  }

  ghost predicate Kept(s: Store, t: Store, w: WindowId) {
    Viewed(s, w) && Viewed(t, w) && View(t, w) == View(s, w) && t.buffers[w] == s.buffers[w]
  }

  /** Every other window shows what it did: all its buffers have the same images. */
  ghost predicate OthersKept(s: Store, t: Store, w: WindowId) {
    forall v | v in s.buffers && v != w :: Kept(s, t, v)
  }

  lemma AloneKeepsOthers(s: Store, users: map<Handle, XID>, t: Store, w: WindowId)
    requires Consistent(s, users) && LeftAlone(s, t, w)
    ensures OthersKept(s, t, w)
  {
    hide Linked, Resolves, Owned, Sized, LeftAlone, View;
    forall v | v in s.buffers && v != w
      ensures Kept(s, t, v)
    {
      AloneSees(s, users, t, w, v);
    }
  }

  ghost predicate NamedIn(multibuffers: map<XID, Multibuffer>, names: seq<XID>, k: nat, w: WindowId)
    requires k <= |names|
  {
    exists j | 0 <= j < k :: names[j] in multibuffers && multibuffers[names[j]].window == w
  }

  /** The first k windows of a request display what was asked for; no other window has changed. */
  ghost predicate Carried(s: Store, t: Store, names: seq<XID>, k: nat, now: TimeStamp)
    requires k <= |names| && Fine(s.multibuffers, names)
  {
    && t.multibuffers == s.multibuffers && t.buffers.Keys == s.buffers.Keys && t.windows.Keys == s.windows.Keys
    && (forall j | 0 <= j < k ::
          Brought(s, t, s.multibuffers[names[j]].window, s.multibuffers[names[j]].number, now))
    && forall w | w in s.buffers && !NamedIn(s.multibuffers, names, k, w) :: Kept(s, t, w)
  }

  lemma BroughtStays(s: Store, t: Store, u: Store, w: WindowId, n: nat, v: WindowId, m: nat, now: TimeStamp)
    requires Brought(s, t, w, n, now) && v != w
    requires Displays(t) && v in t.buffers && m < |t.buffers[v].ids| && Showed(t, u, v, m, now)
    ensures Brought(s, u, w, n, now)
  {
    hide View, Displayed;
  }

  lemma BroughtNow(s: Store, t: Store, u: Store, w: WindowId, n: nat, now: TimeStamp)
    requires Kept(s, t, w)
    requires Displays(t) && n < |t.buffers[w].ids| && Showed(t, u, w, n, now)
    ensures Brought(s, u, w, n, now)
  {
    hide View, Displayed;
  }

  lemma KeptStays(s: Store, t: Store, u: Store, w: WindowId, v: WindowId, m: nat, now: TimeStamp)
    requires Kept(s, t, w) && v != w
    requires Displays(t) && v in t.buffers && m < |t.buffers[v].ids| && Showed(t, u, v, m, now)
    ensures Kept(s, u, w)
  {
    hide View, Displayed;
  }

  lemma NamesDiffer(multibuffers: map<XID, Multibuffer>, names: seq<XID>, k: nat)
    requires Fine(multibuffers, names) && k < |names|
    ensures names[k] in multibuffers && !NamedIn(multibuffers, names, k, multibuffers[names[k]].window)
    ensures forall j | 0 <= j < k :: names[j] in multibuffers && multibuffers[names[j]].window != multibuffers[names[k]].window
    ensures forall w :: NamedIn(multibuffers, names, k + 1, w) <==>
                        NamedIn(multibuffers, names, k, w) || w == multibuffers[names[k]].window
  {}

  lemma ShowedTables(t: Store, u: Store, w: WindowId, n: nat, now: TimeStamp)
    requires Displays(t) && w in t.buffers && n < |t.buffers[w].ids| && Showed(t, u, w, n, now)
    ensures u.multibuffers == t.multibuffers && u.windows.Keys == t.windows.Keys
    ensures u.buffers == t.buffers[w := t.buffers[w].(displayed := n, lastUpdate := now)]
  {}

  lemma BroughtSoFar(s: Store, t: Store, u: Store, names: seq<XID>, k: nat, now: TimeStamp)
    requires Fine(s.multibuffers, names) && k < |names| && Carried(s, t, names, k, now)
    requires s.multibuffers[names[k]].window in s.buffers && Displays(t)
    requires s.multibuffers[names[k]].number < |t.buffers[s.multibuffers[names[k]].window].ids|
    requires Showed(t, u, s.multibuffers[names[k]].window, s.multibuffers[names[k]].number, now)
    ensures forall j | 0 <= j < k + 1 :: Brought(s, u, s.multibuffers[names[j]].window, s.multibuffers[names[j]].number, now)
  {
    NamesDiffer(s.multibuffers, names, k);
    hide Brought, Kept, Showed, Displays, Displayed, View, NamedIn;
    var m := s.multibuffers[names[k]];
    BroughtNow(s, t, u, m.window, m.number, now);
    forall j | 0 <= j < k
      ensures Brought(s, u, s.multibuffers[names[j]].window, s.multibuffers[names[j]].number, now)
    {
      BroughtStays(s, t, u, s.multibuffers[names[j]].window, s.multibuffers[names[j]].number, m.window, m.number, now);
    }
  }

  lemma KeptSoFar(s: Store, t: Store, u: Store, names: seq<XID>, k: nat, now: TimeStamp)
    requires Fine(s.multibuffers, names) && k < |names| && Carried(s, t, names, k, now)
    requires s.multibuffers[names[k]].window in s.buffers && Displays(t)
    requires s.multibuffers[names[k]].number < |t.buffers[s.multibuffers[names[k]].window].ids|
    requires Showed(t, u, s.multibuffers[names[k]].window, s.multibuffers[names[k]].number, now)
    ensures forall w | w in s.buffers && !NamedIn(s.multibuffers, names, k + 1, w) :: Kept(s, u, w)
  {
    NamesDiffer(s.multibuffers, names, k);
    hide Brought, Kept, Showed, Displays, Displayed, View, NamedIn;
    var m := s.multibuffers[names[k]];
    forall w | w in s.buffers && !NamedIn(s.multibuffers, names, k + 1, w)
      ensures Kept(s, u, w)
    {
      KeptStays(s, t, u, w, m.window, m.number, now);
    }
  }

  lemma CarriedStep(s: Store, t: Store, u: Store, names: seq<XID>, k: nat, now: TimeStamp)
    requires Fine(s.multibuffers, names) && k < |names| && Carried(s, t, names, k, now)
    requires s.multibuffers[names[k]].window in s.buffers && Displays(t)
    requires s.multibuffers[names[k]].number < |t.buffers[s.multibuffers[names[k]].window].ids|
    requires Showed(t, u, s.multibuffers[names[k]].window, s.multibuffers[names[k]].number, now)
    ensures Carried(s, u, names, k + 1, now)
  {
    hide Showed, View, Brought, Kept, Displays, NamedIn;
    ShowedTables(t, u, s.multibuffers[names[k]].window, s.multibuffers[names[k]].number, now);
    assert forall j | 0 <= j < k + 1 :: Brought(s, u, s.multibuffers[names[j]].window, s.multibuffers[names[j]].number, now) by {
      BroughtSoFar(s, t, u, names, k, now);
    }
    assert forall w | w in s.buffers && !NamedIn(s.multibuffers, names, k + 1, w) :: Kept(s, u, w) by {
      KeptSoFar(s, t, u, names, k, now);
    }
  }

  lemma CarriedNone(s: Store, users: map<Handle, XID>, names: seq<XID>, now: TimeStamp)
    requires Fine(s.multibuffers, names) && Consistent(s, users)
    ensures Carried(s, s, names, 0, now)
  {
    forall w | w in s.buffers
      ensures Kept(s, s, w)
    {
      assert BuffersOk(s, w);
    }
  }

  lemma NextReady(s: Store, t: Store, users: map<Handle, XID>, names: seq<XID>, k: nat, now: TimeStamp)
    requires Fine(s.multibuffers, names) && k < |names| && Carried(s, t, names, k, now) && Consistent(t, users)
    ensures Displays(t) && t.multibuffers == s.multibuffers && names[k] in t.multibuffers
    ensures var m := t.multibuffers[names[k]];
            && m.window in s.buffers && m.window in t.buffers && m.number < |t.buffers[m.window].ids|
            && t.buffers[m.window] == s.buffers[m.window]
  {
    hide View, Displayed, Resolves, Owned, Sized;
    NamesDiffer(s.multibuffers, names, k);
    assert RecordOk(t, names[k]);
    assert Kept(s, t, s.multibuffers[names[k]].window);
  }

  /** The delay has passed since the last update of the window that buffer x belongs to. */
  ghost predicate Ready(s: Store, x: XID, delay: nat, now: TimeStamp) {
    && x in s.multibuffers && s.multibuffers[x].window in s.buffers
    && Abs(s.buffers[s.multibuffers[x].window].lastUpdate) + delay <= Abs(now)
  }

  lemma StillDue(s: Store, t: Store, x: XID, delay: nat, now: TimeStamp, later: TimeStamp)
    requires Ready(s, x, delay, now) && Abs(now) <= Abs(later) && t.multibuffers == s.multibuffers
    requires s.multibuffers[x].window in t.buffers
    requires t.buffers[s.multibuffers[x].window] == s.buffers[s.multibuffers[x].window]
    ensures Abs(t.buffers[t.multibuffers[x].window].lastUpdate) + delay <= Abs(later)
  {}

  /** The display is on record for the first k windows that the request names, and for no other. */
  ghost predicate Logged(before: map<WindowId, seq<Shown>>, now: map<WindowId, seq<Shown>>,
                         multibuffers: map<XID, Multibuffer>, names: seq<XID>, k: nat, entry: Shown)
    requires k <= |names|
  {
    && now.Keys == before.Keys
    && forall w | w in before :: now[w] == if NamedIn(multibuffers, names, k, w) then before[w] + [entry] else before[w]
  }

  lemma NoneLogged(shows: map<WindowId, seq<Shown>>, multibuffers: map<XID, Multibuffer>, names: seq<XID>, entry: Shown)
    ensures Logged(shows, shows, multibuffers, names, 0, entry)
  {}

  lemma LoggedStep(before: map<WindowId, seq<Shown>>, now: map<WindowId, seq<Shown>>,
                   multibuffers: map<XID, Multibuffer>, names: seq<XID>, k: nat, entry: Shown)
    requires Fine(multibuffers, names) && k < |names| && Logged(before, now, multibuffers, names, k, entry)
    requires multibuffers[names[k]].window in now
    ensures var w := multibuffers[names[k]].window;
            Logged(before, now[w := now[w] + [entry]], multibuffers, names, k + 1, entry)
  {
    NamesDiffer(multibuffers, names, k);
    hide NamedIn;
  }

  lemma HasWindow(s: Store, users: map<Handle, XID>, id: XID)
    requires Consistent(s, users) && id in s.multibuffers
    ensures s.multibuffers[id].window in s.buffers
  {
    assert RecordOk(s, id);
  }

  lemma AllReady(s: Store, users: map<Handle, XID>, names: seq<XID>, delay: nat, now: TimeStamp)
    requires Consistent(s, users) && Fine(s.multibuffers, names)
    ensures WakeTime(s.buffers, s.multibuffers, names, delay) <= Abs(now) <==> forall x | x in names :: Ready(s, x, delay, now)
  {
    hide Consistent;
    forall x | x in names
      ensures x in s.multibuffers && s.multibuffers[x].window in s.buffers
    {
      HasWindow(s, users, x);
    }
    WakeTimeIs(s.buffers, s.multibuffers, names, delay, Abs(now));
  }

  lemma NoNames(buffers: map<WindowId, Buffers>, multibuffers: map<XID, Multibuffer>, names: seq<XID>, delay: nat)
    ensures Fault(multibuffers, names[..0]) == Done && WakeTime(buffers, multibuffers, names[..0], delay) == 0
  {}

  lemma SamePrefix(multibuffers: map<XID, Multibuffer>, names: seq<XID>, i: nat)
    requires i < |names| && names[i] in multibuffers
    ensures SameWindowBefore(multibuffers, names[..i + 1], i) <==> SameWindowBefore(multibuffers, names, i)
  {
    if SameWindowBefore(multibuffers, names, i) {
      var j :| 0 <= j < i && names[j] in multibuffers && multibuffers[names[j]].window == multibuffers[names[i]].window;
      assert names[..i + 1][j] == names[j];
    }
  }

  /** One more name. */
  lemma OneName(buffers: map<WindowId, Buffers>, multibuffers: map<XID, Multibuffer>, names: seq<XID>, i: nat, delay: nat)
    requires i < |names| && Fault(multibuffers, names[..i]) == Done
    ensures names[i] !in multibuffers ==> Fault(multibuffers, names) == BadBuffer(names[i])
    ensures names[i] in multibuffers ==>
              if SameWindowBefore(multibuffers, names, i) then Fault(multibuffers, names) == BadMatch(names[i])
              else Fault(multibuffers, names[..i + 1]) == Done
    ensures names[i] in multibuffers && multibuffers[names[i]].window in buffers ==>
              var before := WakeTime(buffers, multibuffers, names[..i], delay);
              var own := Abs(buffers[multibuffers[names[i]].window].lastUpdate) + delay;
              WakeTime(buffers, multibuffers, names[..i + 1], delay) == if before < own then own else before
  {
    assert names[..i + 1][..i] == names[..i];
    if names[i] in multibuffers {
      SamePrefix(multibuffers, names, i);
    }
    if Fault(multibuffers, names[..i + 1]) != Done {
      FaultOfPrefix(multibuffers, names, i + 1);
    }
  }

  lemma SameAgain(multibuffers: map<XID, Multibuffer>, names: seq<XID>, i: nat, j: nat)
    requires j < i < |names| && names[i] in multibuffers && names[j] in multibuffers
    requires multibuffers[names[j]].window == multibuffers[names[i]].window
    ensures SameWindowBefore(multibuffers, names, i)
  {}

  lemma NoneAgain(multibuffers: map<XID, Multibuffer>, names: seq<XID>, i: nat)
    requires i < |names| && names[i] in multibuffers
    requires !NamedIn(multibuffers, names, i, multibuffers[names[i]].window)
    ensures !SameWindowBefore(multibuffers, names, i)
  {}

  ghost predicate CanAlias(s: Store, w: WindowId, n: nat) {
    && w in s.buffers && n < |s.buffers[w].ids| && s.buffers[w].displayed < |s.buffers[w].ids|
    && forall x | x in s.buffers[w].ids :: x in s.multibuffers
  }

  predicate CanCopy(s: Store, w: WindowId, n: nat) {
    && w in s.windows && w in s.buffers && n < |s.buffers[w].ids| && s.buffers[w].ids[n] in s.multibuffers
    && s.multibuffers[s.buffers[w].ids[n]].pixmap in s.pixmaps
  }

  ghost predicate ImagesAt(s: Store, w: WindowId, n: nat) {
    && CanAlias(s, w, n) && CanCopy(s, w, n) && s.buffers[w].displayed >= 0
    && var b, f := s.buffers[w], View(s, w);
       var h, g := s.multibuffers[b.ids[b.displayed]].pixmap, s.multibuffers[b.ids[n]].pixmap;
       && h in s.pixmaps && g in s.pixmaps
       && s.pixmaps[h] == f.pixmaps[b.displayed] && s.pixmaps[g] == f.pixmaps[n]
  }

  /** The steps of a display find what they need. */
  lemma StepsReady(s: Store, users: map<Handle, XID>, w: WindowId, n: nat, now: TimeStamp)
    requires Consistent(s, users) && w in s.buffers && n < |s.buffers[w].ids|
    ensures Displays(s) && ImagesAt(s, w, n)
    ensures CanCopy(DrawPrevious(s, w, n), w, n)
    ensures CanAlias(CopyOut(DrawPrevious(s, w, n), w, n, now), w, n)
  {
    hide Linked, Sized, Resolves;
    AllRecorded(s, w);
    ViewIsProper(s, users, w);
    var b := s.buffers[w];
    assert s.multibuffers[b.ids[n]].pixmap in users;
    assert s.multibuffers[b.ids[b.displayed]].pixmap in users;
  }

  // ---------- Steps of creation and destruction ----------

  lemma SameAlone(s: Store, w: WindowId)
    ensures LeftAlone(s, s, w)
  {}

  lemma StartsTied(s: Store, users: map<Handle, XID>, w: WindowId)
    requires Consistent(s, users)
    ensures Tied(s, users)
    ensures w in s.buffers ==> s.buffers[w := s.buffers[w].(ids := s.buffers[w].ids[..|s.buffers[w].ids|])] == s.buffers
  {
    if w in s.buffers {
      assert s.buffers[w].ids[..|s.buffers[w].ids|] == s.buffers[w].ids;
    }
  }

  lemma LastRecorded(s: Store, users: map<Handle, XID>, w: WindowId)
    requires Tied(s, users) && w in s.buffers && s.buffers[w].ids != []
    ensures s.buffers[w].ids[|s.buffers[w].ids| - 1] in s.multibuffers
  {
    Slot(s, w, |s.buffers[w].ids| - 1);
  }

  /** Its own pixmap is freed with a buffer, whether its id stands for it or for the window. */
  lemma LastStandsFor(s: Store, users: map<Handle, XID>, w: WindowId)
    requires Tied(s, users) && w in s.buffers && s.buffers[w].ids != []
    requires s.buffers[w].ids[|s.buffers[w].ids| - 1] in s.multibuffers
    ensures var id := s.buffers[w].ids[|s.buffers[w].ids| - 1];
            && id in s.drawables
            && match s.drawables[id]
               case OnWindow(v) => v == w && s.buffers[w].displayed == |s.buffers[w].ids| - 1
               case OnPixmap(h) => h == s.multibuffers[id].pixmap
  {
    hide Linked, Owned;
    var id := s.buffers[w].ids[|s.buffers[w].ids| - 1];
    Slot(s, w, |s.buffers[w].ids| - 1);
    assert s.drawables[id] == Meaning(s, id);
  }

  lemma OneFewer(s: Store, t: Store, w: WindowId, i: nat)
    requires w in s.buffers && 0 < i <= |s.buffers[w].ids|
    requires t.buffers == s.buffers[w := s.buffers[w].(ids := s.buffers[w].ids[..i])]
    requires t.buffers[w].ids[i - 1] in t.multibuffers
    ensures Dropped(t, w).buffers == s.buffers[w := s.buffers[w].(ids := s.buffers[w].ids[..i - 1])]
    ensures Dropped(t, w).windows == t.windows
  {
    assert s.buffers[w].ids[..i][..i - 1] == s.buffers[w].ids[..i - 1];
  }

  lemma WithoutRecord(s: Store, before: map<Handle, XID>, t: Store, u: Store, users: map<Handle, XID>, w: WindowId)
    requires Consistent(s, before) && Tied(t, users) && LeftAlone(s, t, w) && t.windows == s.windows && w in s.windows
    requires w in s.buffers && t.buffers == s.buffers[w := s.buffers[w].(ids := s.buffers[w].ids[..0])]
    requires u == t.(buffers := t.buffers - {w})
    ensures Consistent(u, users) && LeftAlone(s, u, w) && u.buffers == s.buffers - {w}
  {
    assert u.buffers == s.buffers - {w} && u.buffers - {w} == t.buffers - {w};
    assert WindowOk(s.windows[w]);
    hide Consistent, Tied, LeftAlone, WindowOk;
    TiedWithout(t, u, users, w);
    LeftAloneOn(s, t, u, w);
    BackInOrder(s, before, u, users, w);
  }

  lemma NoShows(buffers: map<WindowId, Buffers>, shows: map<WindowId, seq<Shown>>, now: TimeStamp, w: WindowId)
    requires AllTimed(buffers, shows, now) && w !in buffers
    ensures shows == shows - {w}
  {}

  lemma DroppedShows(buffers: map<WindowId, Buffers>, shows: map<WindowId, seq<Shown>>, now: TimeStamp, w: WindowId)
    requires AllTimed(buffers, shows, now)
    ensures AllTimed(buffers - {w}, shows - {w}, now)
  {}

  predicate Distinct(ids: seq<XID>) {
    forall i, j | 0 <= i < j < |ids| :: ids[i] != ids[j]
  }

  /** The first of the ids that is in use already. */
  function FirstTaken(multibuffers: map<XID, Multibuffer>, ids: seq<XID>): Outcome {
    if ids == [] then Done
    else if ids[0] in multibuffers then BadIDChoice(ids[0])
    else FirstTaken(multibuffers, ids[1..])
  }

  lemma {:induction false} FirstTakenIs(multibuffers: map<XID, Multibuffer>, ids: seq<XID>, k: nat)
    requires k < |ids| && ids[k] in multibuffers && forall j | 0 <= j < k :: ids[j] !in multibuffers
    ensures FirstTaken(multibuffers, ids) == BadIDChoice(ids[k])
  {
    if k > 0 {
      assert ids[1..][k - 1] == ids[k];
      FirstTakenIs(multibuffers, ids[1..], k - 1);
    }
  }

  lemma {:induction false} NoneTaken(multibuffers: map<XID, Multibuffer>, ids: seq<XID>)
    ensures FirstTaken(multibuffers, ids) == Done <==> forall x | x in ids :: x !in multibuffers
  {
    if ids != [] {
      NoneTaken(multibuffers, ids[1..]);
      assert ids == [ids[0]] + ids[1..];
    }
  }

  /** The window with new buffers: it stands for buffer 0, the others have the background. */
  ghost function NewFrame(win: Window, action: Action, blanks: seq<Image>): Frame {
    Frame(win.image, win.visible, win.painter,
          seq(|blanks|, i requires 0 <= i < |blanks| => if i > 0 then FillRect(blanks[i], win.painter) else blanks[i]),
          0, action, win.width, win.height)
  }

  lemma NewFrameIs(win: Window, action: Action, blanks: seq<Image>)
    ensures FreshBuffers(NewFrame(win, action, blanks), blanks)
    ensures NewFrame(win, action, blanks)
            == Frame(win.image, win.visible, win.painter, NewFrame(win, action, blanks).pixmaps, 0, action, win.width, win.height)
  {}

  /** The first i buffers of window w have been created since `s`; none is displayed yet. */
  ghost predicate Adding(s: Store, t: Store, w: WindowId, ids: seq<XID>, i: nat, action: Action, images: seq<Image>)
    requires i <= |ids| == |images|
  {
    && w in s.windows && t.windows == s.windows && LeftAlone(s, t, w)
    && t.buffers == s.buffers[w := Buffers(ids[..i], -1, action, TimeStamp(0, 0), s.windows[w].width, s.windows[w].height)]
    && (forall j | i <= j < |ids| :: ids[j] !in t.multibuffers)
    && forall j | 0 <= j < i :: ids[j] in t.multibuffers && ImageOf(t, ids[j]) == images[j]
  }

  /** Destroying the buffers of a window does not take new ids. */
  lemma StillFree(s: Store, users: map<Handle, XID>, t: Store, before: map<Handle, XID>, w: WindowId, ids: seq<XID>)
    requires Consistent(s, users) && Consistent(t, before) && LeftAlone(s, t, w) && w !in t.buffers
    requires forall x | x in ids :: x !in s.multibuffers
    ensures forall x | x in ids :: x !in t.multibuffers
  {
    hide Resolves, Owned, Sized;
    forall x | x in t.multibuffers
      ensures x in s.multibuffers
    {
      assert RecordOk(t, x);
      Slot(s, t.multibuffers[x].window, t.multibuffers[x].number);
    }
  }

  lemma NoneAdded(s: Store, t: Store, users: map<Handle, XID>, w: WindowId, ids: seq<XID>, action: Action, images: seq<Image>)
    requires Tied(s, users) && w in s.windows && w !in s.buffers && |ids| == |images|
    requires forall x | x in ids :: x !in s.multibuffers
    requires t == s.(buffers := s.buffers[w := Buffers([], -1, action, TimeStamp(0, 0), s.windows[w].width, s.windows[w].height)])
    ensures Tied(t, users) && Adding(s, t, w, ids, 0, action, images)
  {
    assert t.buffers - {w} == s.buffers - {w};
    hide Tied, LeftAlone;
    TiedWithout(s, t, users, w);
  }

  lemma AddedRecords(t: Store, w: WindowId, id: XID, h: Handle, image: Image)
    requires w in t.buffers
    ensures Added(t, w, id, h, image).multibuffers.Keys == t.multibuffers.Keys + {id}
  {}

  lemma OneAddedImages(s: Store, t: Store, users: map<Handle, XID>, w: WindowId, ids: seq<XID>, i: nat,
                       action: Action, images: seq<Image>, h: Handle)
    requires Tied(t, users) && Distinct(ids) && i < |ids| == |images| && Adding(s, t, w, ids, i, action, images) && h !in t.pixmaps
    requires w in t.buffers
    ensures var u := Added(t, w, ids[i], h, images[i]);
            forall j | 0 <= j < i + 1 && ids[j] in u.multibuffers :: ImageOf(u, ids[j]) == images[j]
  {
    hide Tied, LeftAlone, ImageOf, Added;
    AddedKeeps(t, users, w, ids[i], h, images[i]);
    AddedRecords(t, w, ids[i], h, images[i]);
  }

  lemma OneAddedTables(s: Store, t: Store, w: WindowId, ids: seq<XID>, i: nat, action: Action, images: seq<Image>, h: Handle)
    requires Distinct(ids) && i < |ids| == |images| && Adding(s, t, w, ids, i, action, images)
    ensures var u := Added(t, w, ids[i], h, images[i]);
            && u.windows == s.windows
            && u.buffers == s.buffers[w := Buffers(ids[..i + 1], -1, action, TimeStamp(0, 0), s.windows[w].width, s.windows[w].height)]
            && (forall j | i + 1 <= j < |ids| :: ids[j] !in u.multibuffers)
            && forall j | 0 <= j < i + 1 :: ids[j] in u.multibuffers
  {
    hide LeftAlone, ImageOf;
    assert ids[..i] + [ids[i]] == ids[..i + 1];
  }

  lemma NotAPixmap(t: Store, users: map<Handle, XID>, h: Handle)
    requires Tied(t, users) && h !in users
    ensures h !in t.pixmaps
  {}

  lemma OneAdded(s: Store, t: Store, users: map<Handle, XID>, w: WindowId, ids: seq<XID>, i: nat,
                 action: Action, images: seq<Image>, h: Handle)
    requires Tied(t, users) && Distinct(ids) && i < |ids| == |images| && Adding(s, t, w, ids, i, action, images) && h !in users
    ensures w in t.buffers && |t.buffers[w].ids| == i
    ensures var u := Added(t, w, ids[i], h, images[i]);
            Tied(u, users[h := ids[i]]) && Adding(s, u, w, ids, i + 1, action, images)
  {
    var u := Added(t, w, ids[i], h, images[i]);
    hide Tied, LeftAlone, ImageOf, Added, Distinct;
    NotAPixmap(t, users, h);
    AddedKeeps(t, users, w, ids[i], h, images[i]);
    AddedAlone(t, users, w, ids[i], h, images[i]);
    LeftAloneOn(s, t, u, w);
    OneAddedTables(s, t, w, ids, i, action, images, h);
    OneAddedImages(s, t, users, w, ids, i, action, images, h);
  }

  lemma AliasAlone(s: Store, w: WindowId, i: nat)
    requires CanAlias(s, w, i)
    ensures LeftAlone(s, Alias(s, w, i), w)
  {}

  ghost predicate Created(s: Store, t: Store, v: Store, users: map<Handle, XID>, w: WindowId, ids: seq<XID>,
                          action: Action, images: seq<Image>)
    requires w in t.windows
  {
    var win := t.windows[w];
    && Consistent(v, users) && LeftAlone(s, v, w) && w in v.windows && v.windows == t.windows
    && v.buffers == t.buffers[w := Buffers(ids, 0, action, TimeStamp(0, 0), win.width, win.height)]
    && View(v, w) == Frame(win.image, win.visible, win.painter, images, 0, action, win.width, win.height)
  }

  lemma WindowStays(t: Store, users: map<Handle, XID>, w: WindowId)
    requires Consistent(t, users) && w in t.windows
    ensures WindowOk(t.windows[w])
  {}

  lemma AliasOfAll(t: Store, u: Store, w: WindowId, ids: seq<XID>, action: Action, images: seq<Image>)
    requires ids != [] && |ids| == |images| && Adding(t, u, w, ids, |ids|, action, images) && CanAlias(u, w, 0)
    ensures var v := Alias(u, w, 0);
            && v.windows == t.windows
            && v.buffers == t.buffers[w := Buffers(ids, 0, action, TimeStamp(0, 0), t.windows[w].width, t.windows[w].height)]
            && forall i | 0 <= i < |ids| :: ImageOf(v, ids[i]) == images[i]
  {
    hide LeftAlone;
    assert ids[..|ids|] == ids;
    AliasRest(u, w, 0);
  }

  lemma NewView(t: Store, v: Store, w: WindowId, ids: seq<XID>, action: Action, images: seq<Image>)
    requires w in t.windows && v.windows == t.windows && |ids| == |images| && ids != [] && WindowOk(t.windows[w])
    requires v.buffers == t.buffers[w := Buffers(ids, 0, action, TimeStamp(0, 0), t.windows[w].width, t.windows[w].height)]
    requires forall i | 0 <= i < |ids| :: ImageOf(v, ids[i]) == images[i]
    requires forall i | 0 <= i < |ids| :: images[i].Keys == t.windows[w].image.Keys
    ensures w in v.buffers && WindowInOrder(v, w)
    ensures var win := t.windows[w];
            View(v, w) == Frame(win.image, win.visible, win.painter, images, 0, action, win.width, win.height)
  {
    hide ImageOf, WindowOk;
    assert Pixmaps(v, ids) == images;
  }

  lemma AllThere(t: Store, u: Store, w: WindowId, ids: seq<XID>, action: Action, images: seq<Image>)
    requires ids != [] && |ids| == |images| && Adding(t, u, w, ids, |ids|, action, images)
    ensures CanAlias(u, w, 0) && u.windows == t.windows && LeftAlone(t, u, w)
    ensures u.buffers == t.buffers[w := Buffers(ids, -1, action, TimeStamp(0, 0), t.windows[w].width, t.windows[w].height)]
    ensures forall i | 0 <= i < |ids| :: ImageOf(u, ids[i]) == images[i]
  {
    assert ids[..|ids|] == ids;
  }

  lemma AllAdded(s: Store, t: Store, before: map<Handle, XID>, u: Store, users: map<Handle, XID>, w: WindowId, ids: seq<XID>,
                 action: Action, images: seq<Image>)
    requires Consistent(t, before) && LeftAlone(s, t, w) && Tied(u, users) && ids != [] && |ids| == |images| && w in t.windows
    requires Adding(t, u, w, ids, |ids|, action, images)
    requires forall i | 0 <= i < |ids| :: images[i].Keys == t.windows[w].image.Keys
    ensures CanAlias(u, w, 0)
    ensures Created(s, t, Alias(u, w, 0), users, w, ids, action, images)
  {
    hide Consistent, Tied, LeftAlone, WindowOk, WindowInOrder, Alias, Adding, ImageOf, View, CanAlias;
    AllThere(t, u, w, ids, action, images);
    AliasOfAll(t, u, w, ids, action, images);
    WindowStays(t, before, w);
    var v := Alias(u, w, 0);
    AliasKeeps(u, users, w, 0);
    AliasAlone(u, w, 0);
    LeftAloneOn(t, u, v, w);
    LeftAloneOn(s, t, v, w);
    NewView(t, v, w, ids, action, images);
    BackInOrder(t, before, v, users, w);
  }

  lemma CreatedParts(t: Store, v: Store, users: map<Handle, XID>, w: WindowId, ids: seq<XID>, action: Action, images: seq<Image>)
    requires w in t.windows && Created(t, t, v, users, w, ids, action, images)
    ensures Consistent(v, users) && LeftAlone(t, v, w) && v.windows == t.windows
    ensures v.buffers == t.buffers[w := Buffers(ids, 0, action, TimeStamp(0, 0), t.windows[w].width, t.windows[w].height)]
    ensures var win := t.windows[w];
            View(v, w) == Frame(win.image, win.visible, win.painter, images, 0, action, win.width, win.height)
  {}

  lemma StartedShows(buffers: map<WindowId, Buffers>, shows: map<WindowId, seq<Shown>>, now: TimeStamp, w: WindowId, b: Buffers)
    requires AllTimed(buffers, shows, now) && Abs(b.lastUpdate) == 0
    ensures AllTimed(buffers[w := b], shows[w := []], now)
  {}

  // ---------- Steps of a resize ----------

  /** A window of a new size, its buffers moved onto new pixmaps. */
  ghost function ResizedFrame(f: Frame, win: Window, blanks: seq<Image>, forget: bool, dx: int, dy: int): Frame
    requires |blanks| == |f.pixmaps|
  {
    var clear := f.width < win.width || f.height < win.height || forget;
    Frame(win.image, win.visible, win.painter,
          seq(|blanks|, i requires 0 <= i < |blanks| => Resized(f.pixmaps[i], blanks[i], clear, !forget, dx, dy, win.painter)),
          f.displayed, f.action, win.width, win.height)
  }

  lemma FrameMoved(f: Frame, win: Window, blanks: seq<Image>, gravity: Gravity, recorded: Point, corner: Point)
    requires |blanks| == |f.pixmaps| && WindowOk(win) && forall i | 0 <= i < |blanks| :: blanks[i].Keys == win.image.Keys
    ensures var d := Displacement(recorded, corner, win.width - f.width, win.height - f.height, gravity);
            BuffersMoved(f, ResizedFrame(f, win, blanks, gravity == Forget, d.x, d.y), blanks, gravity, recorded, corner)
  {
    hide BufferMoved, Displacement, Resized, Area;
    var clear := f.width < win.width || f.height < win.height || gravity == Forget;
    forall i | 0 <= i < |blanks| {
      ResizedIs(f.pixmaps[i], blanks[i], win.painter, gravity, recorded, corner, f.width, f.height, win.width, win.height, clear);
    }
  }

  lemma ViewedSize(s: Store, users: map<Handle, XID>, w: WindowId)
    requires Consistent(s, users) && w in s.buffers
    ensures Viewed(s, w) && View(s, w).width == s.buffers[w].width && View(s, w).height == s.buffers[w].height
    ensures s.buffers[w].displayed >= 0 && |View(s, w).pixmaps| == |s.buffers[w].ids|
  {
    hide Linked, Resolves, Owned;
    ViewIsProper(s, users, w);
  }

  /** The window has its new shape, its buffers do not yet. */
  function Reshaped(s: Store, w: WindowId, win: Window): Store {
    s.(windows := s.windows[w := win],
       buffers := if w in s.buffers then s.buffers[w := s.buffers[w].(width := win.width, height := win.height)] else s.buffers)
  }

  lemma ReshapedRest(s: Store, w: WindowId, win: Window)
    requires w in s.windows
    ensures var t := Reshaped(s, w, win);
            && t.windows.Keys == s.windows.Keys && t.buffers.Keys == s.buffers.Keys
            && t.multibuffers == s.multibuffers && t.drawables == s.drawables && t.pixmaps == s.pixmaps
            && (forall v | v in s.buffers :: t.buffers[v].ids == s.buffers[v].ids && t.buffers[v].displayed == s.buffers[v].displayed)
    ensures LeftAlone(s, Reshaped(s, w, win), w)
  {}

  lemma ReshapedKeeps(s: Store, users: map<Handle, XID>, w: WindowId, win: Window)
    requires Consistent(s, users) && w in s.windows
    ensures Tied(Reshaped(s, w, win), users) && LeftAlone(s, Reshaped(s, w, win), w)
    ensures forall x :: ImageOf(Reshaped(s, w, win), x) == ImageOf(s, x)
  {
    hide Linked, Resolves, Owned, Sized, LeftAlone, Reshaped;
    ReshapedRest(s, w, win);
    LinkedAgain(s, Reshaped(s, w, win));
    OwnedAgain(s, Reshaped(s, w, win), users);
  }

  /** The first i buffers of window w have got their new images since `s`. */
  ghost predicate Resizing(s: Store, t: Store, w: WindowId, i: nat, images: seq<Image>)
    requires w in s.buffers && |images| == |s.buffers[w].ids|
  {
    && t.windows == s.windows && t.buffers == s.buffers && LeftAlone(s, t, w)
    && forall j | 0 <= j < |images| :: ImageOf(t, s.buffers[w].ids[j]) == if j < i then images[j] else ImageOf(s, s.buffers[w].ids[j])
  }

  lemma NoneResized(s: Store, w: WindowId, images: seq<Image>)
    requires w in s.buffers && |images| == |s.buffers[w].ids|
    ensures Resizing(s, s, w, 0, images)
  {}

  lemma HasPixmap(t: Store, users: map<Handle, XID>, w: WindowId, i: nat)
    requires Tied(t, users) && w in t.buffers && i < |t.buffers[w].ids|
    ensures var id := t.buffers[w].ids[i];
            && id in t.multibuffers && t.multibuffers[id].window == w && t.multibuffers[id].number == i
            && t.multibuffers[id].pixmap in t.pixmaps && t.pixmaps[t.multibuffers[id].pixmap] == ImageOf(t, id)
  {
    hide Linked, Resolves;
    Slot(t, w, i);
    assert t.multibuffers[t.buffers[w].ids[i]].pixmap in users;
  }

  lemma OneImage(s: Store, t: Store, users: map<Handle, XID>, w: WindowId, i: nat, images: seq<Image>, h: Handle, j: nat)
    requires w in s.buffers && i < |images| == |s.buffers[w].ids| && j < |images| && Tied(t, users) && h !in t.pixmaps
    requires Resizing(s, t, w, i, images) && s.buffers[w].ids[i] in t.multibuffers
    ensures ImageOf(Replaced(t, s.buffers[w].ids[i], h, images[i]), s.buffers[w].ids[j])
            == if j < i + 1 then images[j] else ImageOf(s, s.buffers[w].ids[j])
  {
    hide Tied, LeftAlone, ImageOf, Replaced;
    HasPixmap(t, users, w, i);
    HasPixmap(t, users, w, j);
    ReplacedKeeps(t, users, s.buffers[w].ids[i], h, images[i]);
  }

  lemma ReplacedRest(t: Store, id: XID, h: Handle, image: Image)
    requires id in t.multibuffers
    ensures Replaced(t, id, h, image).windows == t.windows && Replaced(t, id, h, image).buffers == t.buffers
  {}

  lemma OneResized(s: Store, t: Store, users: map<Handle, XID>, w: WindowId, i: nat, images: seq<Image>, h: Handle)
    requires w in s.buffers && i < |images| == |s.buffers[w].ids| && Tied(t, users) && h !in users
    requires Resizing(s, t, w, i, images)
    ensures var id := s.buffers[w].ids[i];
            && id in t.multibuffers && t.multibuffers[id].window == w && t.multibuffers[id].number == i
            && t.multibuffers[id].pixmap in t.pixmaps && t.pixmaps[t.multibuffers[id].pixmap] == ImageOf(s, id)
            && h !in t.pixmaps
            && Tied(Replaced(t, id, h, images[i]), (users - {t.multibuffers[id].pixmap})[h := id])
            && Resizing(s, Replaced(t, id, h, images[i]), w, i + 1, images)
  {
    var id := s.buffers[w].ids[i];
    HasPixmap(t, users, w, i);
    NotAPixmap(t, users, h);
    hide Tied, LeftAlone, ImageOf, Replaced;
    var u := Replaced(t, id, h, images[i]);
    ReplacedKeeps(t, users, id, h, images[i]);
    ReplacedAlone(t, users, id, h, images[i]);
    ReplacedRest(t, id, h, images[i]);
    LeftAloneOn(s, t, u, w);
    forall j | 0 <= j < |images|
      ensures ImageOf(u, s.buffers[w].ids[j]) == if j < i + 1 then images[j] else ImageOf(s, s.buffers[w].ids[j])
    {
      OneImage(s, t, users, w, i, images, h, j);
    }
  }

  lemma ResizedView(s: Store, u: Store, w: WindowId, win: Window,
                    blanks: seq<Image>, images: seq<Image>, forget: bool, dx: int, dy: int)
    requires w in s.windows && w in s.buffers && WindowOk(win) && Viewed(s, w) && |blanks| == |s.buffers[w].ids|
    requires images == ResizedFrame(View(s, w), win, blanks, forget, dx, dy).pixmaps
    requires forall i | 0 <= i < |blanks| :: blanks[i].Keys == win.image.Keys
    requires Resizing(Reshaped(s, w, win), u, w, |images|, images)
    ensures w in u.windows && w in u.buffers && u.windows[w] == win && WindowInOrder(u, w)
    ensures View(u, w) == ResizedFrame(View(s, w), win, blanks, forget, dx, dy)
  {
    hide LeftAlone, ImageOf, WindowOk, Moved, Area;
    assert Pixmaps(u, u.buffers[w].ids) == images;
  }

  /** All buffers have got their new images. */
  lemma AllResized(s: Store, before: map<Handle, XID>, u: Store, users: map<Handle, XID>, w: WindowId, win: Window,
                   blanks: seq<Image>, images: seq<Image>, forget: bool, dx: int, dy: int)
    requires Consistent(s, before) && w in s.windows && w in s.buffers && WindowOk(win) && Viewed(s, w)
    requires |blanks| == |s.buffers[w].ids|
    requires images == ResizedFrame(View(s, w), win, blanks, forget, dx, dy).pixmaps
    requires forall i | 0 <= i < |blanks| :: blanks[i].Keys == win.image.Keys
    requires Tied(u, users) && Resizing(Reshaped(s, w, win), u, w, |images|, images)
    ensures Consistent(u, users) && LeftAlone(s, u, w)
    ensures w in u.windows && w in u.buffers
    ensures View(u, w) == ResizedFrame(View(s, w), win, blanks, forget, dx, dy)
  {
    hide Consistent, Tied, LeftAlone, WindowOk, WindowInOrder, ImageOf;
    ReshapedKeeps(s, before, w, win);
    LeftAloneOn(s, Reshaped(s, w, win), u, w);
    ResizedView(s, u, w, win, blanks, images, forget, dx, dy);
    BackInOrder(s, before, u, users, w);
  }

  lemma NewWindow(s: Store, t: Store, w: WindowId, win: Window)
    requires w in s.windows && t == s.(windows := s.windows[w := win])
    ensures t.windows.Keys == s.windows.Keys && LeftAlone(s, t, w)
  {}

  lemma SameSizeInOrder(s: Store, users: map<Handle, XID>, t: Store, w: WindowId, win: Window)
    requires Consistent(s, users) && w in s.windows && WindowOk(win) && t == s.(windows := s.windows[w := win])
    requires w in s.buffers ==> s.buffers[w].width == win.width && s.buffers[w].height == win.height
    ensures WindowInOrder(t, w)
  {
    hide Linked, Resolves, Owned, Area;
    if w in s.buffers {
      ViewIsProper(s, users, w);
      assert WindowOk(s.windows[w]);
      forall i | 0 <= i < |s.buffers[w].ids|
        ensures ImageOf(t, s.buffers[w].ids[i]).Keys == win.image.Keys
      {
        assert View(s, w).pixmaps[i] == ImageOf(s, s.buffers[w].ids[i]);
      }
    }
  }

  lemma SameSizeView(s: Store, users: map<Handle, XID>, t: Store, w: WindowId, win: Window)
    requires Consistent(s, users) && w in s.windows && t == s.(windows := s.windows[w := win])
    requires w in s.buffers ==> s.buffers[w].width == win.width && s.buffers[w].height == win.height
    ensures w in s.buffers ==> Viewed(s, w) && View(t, w) == View(s, w).(window := win.image, visible := win.visible, painter := win.painter)
  {
    hide Linked, Resolves, Owned;
    if w in s.buffers {
      assert Pixmaps(t, s.buffers[w].ids) == Pixmaps(s, s.buffers[w].ids);
    }
  }

  /** The window changes, its size does not. */
  lemma SameSize(s: Store, users: map<Handle, XID>, t: Store, w: WindowId, win: Window)
    requires Consistent(s, users) && w in s.windows && WindowOk(win) && t == s.(windows := s.windows[w := win])
    requires w in s.buffers ==> s.buffers[w].width == win.width && s.buffers[w].height == win.height
    ensures Consistent(t, users) && LeftAlone(s, t, w)
    ensures w in s.buffers ==> Viewed(s, w) && View(t, w) == View(s, w).(window := win.image, visible := win.visible, painter := win.painter)
  {
    hide Linked, Resolves, Owned, Sized, Displays, Area, LeftAlone, WindowInOrder;
    NewWindow(s, t, w, win);
    LinkedAgain(s, t);
    OwnedAgain(s, t, users);
    SameSizeView(s, users, t, w, win);
    SameSizeInOrder(s, users, t, w, win);
    BackInOrder(s, users, t, users, w);
  }

  /** What the loop of a resize finds. */
  lemma ReadyToResize(s: Store, users: map<Handle, XID>, w: WindowId, win: Window, blanks: seq<Image>,
                      forget: bool, dx: int, dy: int)
    requires Consistent(s, users) && w in s.windows && w in s.buffers && WindowOk(win) && |blanks| == |s.buffers[w].ids|
    requires forall i | 0 <= i < |blanks| :: blanks[i].Keys == win.image.Keys
    ensures Viewed(s, w) && |View(s, w).pixmaps| == |blanks|
    ensures var b, images := s.buffers[w], ResizedFrame(View(s, w), win, blanks, forget, dx, dy).pixmaps;
            var clear := b.width < win.width || b.height < win.height || forget;
            && |images| == |blanks|
            && forall i | 0 <= i < |blanks| ::
                 && blanks[i].Keys == Area(win.width, win.height)
                 && ImageOf(Reshaped(s, w, win), b.ids[i]).Keys == Area(b.width, b.height)
                 && images[i] == Resized(ImageOf(Reshaped(s, w, win), b.ids[i]), blanks[i], clear, !forget, dx, dy, win.painter)
  {
    hide Linked, Resolves, Owned, Area, Resized, ImageOf;
    ReshapedKeeps(s, users, w, win);
    ViewIsProper(s, users, w);
    assert WindowOk(s.windows[w]);
    var b := s.buffers[w];
    forall i | 0 <= i < |blanks|
      ensures ImageOf(s, b.ids[i]).Keys == Area(b.width, b.height)
    {
      assert View(s, w).pixmaps[i] == ImageOf(s, b.ids[i]);
    }
  }

  lemma ReshapedTimes(buffers: map<WindowId, Buffers>, shows: map<WindowId, seq<Shown>>, now: TimeStamp, w: WindowId, b: Buffers)
    requires AllTimed(buffers, shows, now) && w in buffers && b.lastUpdate == buffers[w].lastUpdate
    ensures AllTimed(buffers[w := b], shows, now)
  {}

  // ---------- Drawing by a client ----------

  /** The drawable that a buffer id stands for gets a new image. */
  function Drawn(s: Store, id: XID, image: Image): Store
    requires id in s.drawables
  {
    match s.drawables[id]
    case OnWindow(w) => if w in s.windows then s.(windows := s.windows[w := s.windows[w].(image := image)]) else s
    case OnPixmap(h) => s.(pixmaps := s.pixmaps[h := image])
  }

  /** The i-th image of window w has changed, and no other image of any window. */
  ghost predicate OneDrawn(s: Store, t: Store, w: WindowId, i: nat, image: Image) {
    && Viewed(s, w) && Viewed(t, w) && t.buffers == s.buffers && LeftAlone(s, t, w) && i < |s.buffers[w].ids|
    && Logical(View(t, w)) == Logical(View(s, w))[i := image]
  }

  lemma SizeIsSame(s: Store, users: map<Handle, XID>, w: WindowId)
    requires Consistent(s, users) && w in s.buffers && w in s.windows
    ensures s.buffers[w].width == s.windows[w].width && s.buffers[w].height == s.windows[w].height
  {}

  lemma DrawnWindow(s: Store, users: map<Handle, XID>, w: WindowId, i: nat, image: Image)
    requires Consistent(s, users) && w in s.buffers && i < |s.buffers[w].ids| && i == s.buffers[w].displayed
    requires w in s.windows && image.Keys == s.windows[w].image.Keys
    ensures var t := s.(windows := s.windows[w := s.windows[w].(image := image)]);
            Consistent(t, users) && OneDrawn(s, t, w, i, image)
  {
    hide Consistent, LeftAlone, Area;
    var win := s.windows[w].(image := image);
    WindowStays(s, users, w);
    SizeIsSame(s, users, w);
    SameSize(s, users, s.(windows := s.windows[w := win]), w, win);
  }

  lemma StandsFor(s: Store, users: map<Handle, XID>, w: WindowId, i: nat)
    requires Tied(s, users) && w in s.buffers && i < |s.buffers[w].ids|
    ensures var id := s.buffers[w].ids[i];
            && id in s.drawables && id in s.multibuffers
            && s.drawables[id] == if i == s.buffers[w].displayed then OnWindow(w) else OnPixmap(s.multibuffers[id].pixmap)
  {
    hide Linked, Owned;
    Slot(s, w, i);
    assert s.drawables[s.buffers[w].ids[i]] == Meaning(s, s.buffers[w].ids[i]);
  }

  lemma DrawRest(s: Store, id: XID, image: Image)
    requires id in s.multibuffers
    ensures var t := Draw(s, id, image); t.windows == s.windows && t.buffers == s.buffers && t.multibuffers == s.multibuffers
  {}

  lemma DrawnAlone(s: Store, t: Store, w: WindowId, id: XID)
    requires t.windows == s.windows && t.buffers == s.buffers && t.multibuffers == s.multibuffers
    requires id in s.multibuffers && s.multibuffers[id].window == w
    requires forall x | x in s.multibuffers && x != id :: ImageOf(t, x) == ImageOf(s, x)
    ensures LeftAlone(s, t, w)
  {
    hide ImageOf;
  }

  lemma DrawnView(s: Store, users: map<Handle, XID>, t: Store, w: WindowId, i: nat, image: Image)
    requires Consistent(s, users) && w in s.buffers && i < |s.buffers[w].ids| && w in s.windows && i != s.buffers[w].displayed
    requires t.windows == s.windows && t.buffers == s.buffers && t.multibuffers == s.multibuffers
    requires image.Keys == s.windows[w].image.Keys
    requires forall x | x in s.multibuffers :: ImageOf(t, x) == if x == s.buffers[w].ids[i] then image else ImageOf(s, x)
    ensures Viewed(s, w) && WindowInOrder(t, w)
    ensures Logical(View(t, w)) == Logical(View(s, w))[i := image]
  {
    hide Tied, Area, ImageOf;
    ViewIsProper(s, users, w);
    WindowStays(s, users, w);
    var ids := s.buffers[w].ids;
    forall j | 0 <= j < |ids|
      ensures ImageOf(t, ids[j]) == if j == i then image else ImageOf(s, ids[j])
      ensures ImageOf(t, ids[j]).Keys == s.windows[w].image.Keys
    {
      HasPixmap(s, users, w, i);
      HasPixmap(s, users, w, j);
      assert View(s, w).pixmaps[j] == ImageOf(s, ids[j]);
    }
    assert Pixmaps(t, ids) == Pixmaps(s, ids)[i := image];
  }

  lemma DrawnPixmap(s: Store, users: map<Handle, XID>, w: WindowId, i: nat, image: Image)
    requires Consistent(s, users) && w in s.buffers && i < |s.buffers[w].ids| && s.buffers[w].ids[i] in s.multibuffers
    requires w in s.windows && image.Keys == s.windows[w].image.Keys && i != s.buffers[w].displayed
    ensures var t := Draw(s, s.buffers[w].ids[i], image);
            Consistent(t, users) && OneDrawn(s, t, w, i, image)
  {
    var id := s.buffers[w].ids[i];
    var t := Draw(s, id, image);
    hide Consistent, Tied, LeftAlone, WindowInOrder, View, ImageOf, Area, Draw;
    StartsTied(s, users, w);
    HasPixmap(s, users, w, i);
    DrawKeeps(s, users, id, image);
    ViewIsProper(s, users, w);
    DrawRest(s, id, image);
    DrawnAlone(s, t, w, id);
    DrawnView(s, users, t, w, i, image);
    BackInOrder(s, users, t, users, w);
  }

  /** Drawing on the id of buffer i changes the i-th image of the window. */
  lemma DrawnIsOneImage(s: Store, users: map<Handle, XID>, w: WindowId, i: nat, image: Image)
    requires Consistent(s, users) && w in s.buffers && i < |s.buffers[w].ids|
    requires w in s.windows && image.Keys == s.windows[w].image.Keys
    ensures s.buffers[w].ids[i] in s.drawables
    ensures Consistent(Drawn(s, s.buffers[w].ids[i], image), users)
    ensures OneDrawn(s, Drawn(s, s.buffers[w].ids[i], image), w, i, image)
  {
    hide Consistent, Tied, OneDrawn;
    StartsTied(s, users, w);
    StandsFor(s, users, w, i);
    if i == s.buffers[w].displayed {
      DrawnWindow(s, users, w, i, image);
    } else {
      DrawnPixmap(s, users, w, i, image);
    }
  }
}
