/**
 * Double-buffered windows: a plane selects, pixel by pixel, the front or the
 * back buffer, and a region caches where the back buffer is shown.
 */
module DoubleBuffer {
  import opened Regions

  const FRONT_BUFFER: nat := 0
  const BACK_BUFFER: nat := 1

  /** `oldClip` is the clip list that ClipNotify saw last. */
  datatype Buffers = Single | Double(displayed: nat, oldClip: Region)

  datatype Window = Window(clipList: Region, buffers: Buffers)

  type Windows = map<nat, Window>

  predicate ShowsBack(w: Window) {
    w.buffers.Double? && w.buffers.displayed == BACK_BUFFER
  }

  /** The union of the clip lists of the windows that show their back buffer. */
  function BackUnion(windows: Windows): (r: Region)
    ensures forall p :: p in r <==> exists w :: w in windows && ShowsBack(windows[w]) && p in windows[w].clipList
  {
    set w, p | w in windows && ShowsBack(windows[w]) && p in windows[w].clipList :: p
  }

  /** No point belongs to two windows. */
  ghost predicate DisjointClips(windows: Windows) {
    forall v, w | v in windows && w in windows && v != w :: windows[v].clipList !! windows[w].clipList
  }

  /** ClipNotify has seen every clip list. */
  ghost predicate ClipsSeen(windows: Windows) {
    forall w | w in windows && windows[w].buffers.Double? :: windows[w].buffers.oldClip == windows[w].clipList
  }

  // ---------- One validation of the window tree ----------

  datatype Pending = Pending(windows: Windows, subtractRgn: Region, unionRgn: Region)

  datatype Change = Change(window: nat, clipList: Region)

  /** A window gets a new clip list, and bufClipNotify is told. */
  function Notified(s: Pending, c: Change): Pending
    requires c.window in s.windows
  {
    var w := s.windows[c.window].(clipList := c.clipList);
    if w.buffers.Single? || w.buffers.oldClip == c.clipList then s.(windows := s.windows[c.window := w])
    else
      var windows := s.windows[c.window := w.(buffers := w.buffers.(oldClip := c.clipList))];
      if ShowsBack(w) then Pending(windows, s.subtractRgn + w.buffers.oldClip, s.unionRgn + c.clipList)
      else s.(windows := windows)
  }

  function NotifiedAll(windows: Windows, changes: seq<Change>): (s: Pending)
    requires forall i | 0 <= i < |changes| :: changes[i].window in windows
    ensures s.windows.Keys == windows.Keys
  {
    if changes == [] then Pending(windows, {}, {})
    else Notified(NotifiedAll(windows, changes[..|changes| - 1]), changes[|changes| - 1])
  }

  /** The back-buffer region that bufPostValidateTree computes. */
  function BackAfter(backBuffer: Region, s: Pending): Region {
    backBuffer - s.subtractRgn + s.unionRgn
  }

  /** The plane that it paints: lost areas select the front buffer, gained ones the back buffer. */
  function PlaneAfter(plane: Region, s: Pending): Region {
    plane - (s.subtractRgn - s.unionRgn) + (s.unionRgn - s.subtractRgn)
  }

  /** Some change so far made window `w` show its back buffer elsewhere. */
  ghost predicate Moved(windows: Windows, s: Pending, w: nat)
    requires w in windows && w in s.windows
  {
    ShowsBack(windows[w]) && windows[w].clipList <= s.subtractRgn && s.windows[w].clipList <= s.unionRgn
  }

  /** What the notifications of one validation keep. */
  ghost predicate Notifying(windows: Windows, s: Pending) {
    && s.windows.Keys == windows.Keys && ClipsSeen(s.windows)
    && (forall w | w in windows :: ShowsBack(s.windows[w]) == ShowsBack(windows[w]))
    && (forall w | w in windows && ShowsBack(windows[w]) :: s.windows[w].clipList == windows[w].clipList || Moved(windows, s, w))
    && (forall p | p in s.subtractRgn :: p in s.unionRgn || exists w :: w in windows && Moved(windows, s, w) && p in windows[w].clipList)
    && (forall p | p in s.subtractRgn :: p in s.unionRgn || p in BackUnion(windows))
  }

  lemma NotifiedKeeps(windows: Windows, s: Pending, c: Change)
    requires Notifying(windows, s) && c.window in windows
    ensures Notifying(windows, Notified(s, c))
  {
    hide BackUnion;
    var s' := Notified(s, c);
    forall p | p in s'.subtractRgn
      ensures p in s'.unionRgn || exists w :: w in windows && Moved(windows, s', w) && p in windows[w].clipList
      ensures p in s'.unionRgn || p in BackUnion(windows)
    {
      if p in s.subtractRgn && p !in s.unionRgn {
        var w :| w in windows && Moved(windows, s, w) && p in windows[w].clipList;
        assert w != c.window ==> Moved(windows, s', w);
      }
    }
  }

  lemma {:induction false} NotifiedAllKeeps(windows: Windows, changes: seq<Change>)
    requires ClipsSeen(windows) && forall i | 0 <= i < |changes| :: changes[i].window in windows
    ensures Notifying(windows, NotifiedAll(windows, changes))
  {
    if changes != [] {
      NotifiedAllKeeps(windows, changes[..|changes| - 1]);
      hide Notifying;
      NotifiedKeeps(windows, NotifiedAll(windows, changes[..|changes| - 1]), changes[|changes| - 1]);
    }
  }

  lemma Apart(windows: Windows, v: nat, w: nat, p: Point)
    requires DisjointClips(windows) && v in windows && w in windows && v != w
    ensures !(p in windows[v].clipList && p in windows[w].clipList)
  {}

  /** What a window that has not moved shows is not lost. */
  lemma KeptPoint(windows: Windows, s: Pending, w: nat, p: Point)
    requires DisjointClips(windows) && Notifying(windows, s)
    requires w in windows && !Moved(windows, s, w) && p in windows[w].clipList && p in s.subtractRgn
    ensures p in s.unionRgn
  {
    hide DisjointClips, Moved;
    if p !in s.unionRgn {
      var v :| v in windows && Moved(windows, s, v) && p in windows[v].clipList;
      Apart(windows, v, w, p);
    }
  }

  /** Whatever the changes, the cached region ends as the windows that show their back buffer and every clip list that was notified. */
  lemma BackAfterIs(windows: Windows, s: Pending)
    requires DisjointClips(windows) && Notifying(windows, s)
    ensures BackAfter(BackUnion(windows), s) == BackUnion(s.windows) + s.unionRgn
  {
    var b, d := BackUnion(windows), BackUnion(s.windows);
    forall p | p in d
      ensures p in b - s.subtractRgn + s.unionRgn
    {
      var w :| w in s.windows && ShowsBack(s.windows[w]) && p in s.windows[w].clipList;
      if !Moved(windows, s, w) && p in s.subtractRgn {
        KeptPoint(windows, s, w, p);
      }
    }
    forall p | p in b && p !in s.subtractRgn
      ensures p in d
    {
      var w :| w in windows && ShowsBack(windows[w]) && p in windows[w].clipList;
      assert s.windows[w].clipList == windows[w].clipList;
    }
  }

  /**
   * Every clip list given to a window that shows its back buffer is shown by some back buffer in the end,
   * and what was both gained and lost on the way was shown at the start.
   */
  ghost predicate ComesRight(windows: Windows, changes: seq<Change>)
    requires forall i | 0 <= i < |changes| :: changes[i].window in windows
  {
    var s := NotifiedAll(windows, changes);
    s.unionRgn <= BackUnion(s.windows) && s.unionRgn * s.subtractRgn <= BackUnion(windows)
  }

  lemma PlaneIs(b: Region, s: Pending)
    requires forall p | p in s.subtractRgn :: p in s.unionRgn || p in b
    ensures PlaneAfter(b, s) == BackAfter(b, s) <==> s.unionRgn * s.subtractRgn <= b
  {
    var plane, back := PlaneAfter(b, s), BackAfter(b, s);
    if plane == back {
      forall p | p in s.unionRgn * s.subtractRgn
        ensures p in b
      {
        assert p in back && p in plane;
      }
    }
  }

  /** The condition is exact, for every sequence of clip changes in one validation. */
  lemma ValidationIsRight(windows: Windows, changes: seq<Change>)
    requires DisjointClips(windows) && ClipsSeen(windows) && forall i | 0 <= i < |changes| :: changes[i].window in windows
    ensures var s := NotifiedAll(windows, changes);
            var b, d := BackUnion(windows), BackUnion(s.windows);
            BackAfter(b, s) == d && PlaneAfter(b, s) == d <==> ComesRight(windows, changes)
  {
    NotifiedAllKeeps(windows, changes);
    var s := NotifiedAll(windows, changes);
    BackAfterIs(windows, s);
    PlaneIs(BackUnion(windows), s);
  }

  /** Some change was for window `w`. */
  predicate Mentioned(changes: seq<Change>, w: nat) {
    exists i | 0 <= i < |changes| :: changes[i].window == w
  }

  /** A window that is reported again has the same clip list as before. */
  predicate OneListEach(changes: seq<Change>) {
    forall i, j | 0 <= i < j < |changes| && changes[i].window == changes[j].window :: changes[i].clipList == changes[j].clipList
  }

  ghost predicate GainedBy(windows: Windows, changes: seq<Change>, s: Pending, w: nat, p: Point)
    requires s.windows.Keys == windows.Keys
  {
    w in windows && Mentioned(changes, w) && ShowsBack(s.windows[w]) && p in s.windows[w].clipList
  }

  /** What is gained is what windows with a change show now, and what is lost was shown. */
  ghost predicate Orderly(windows: Windows, changes: seq<Change>, s: Pending) {
    && s.windows.Keys == windows.Keys
    && s.subtractRgn <= BackUnion(windows)
    && ClipsSeen(s.windows)
    && (forall c | c in changes :: c.window in windows && s.windows[c.window].clipList == c.clipList)
    && (forall w | w in windows && !Mentioned(changes, w) :: s.windows[w] == windows[w])
    && (forall p | p in s.unionRgn :: exists w :: GainedBy(windows, changes, s, w, p))
  }

  lemma MentionedNow(rest: seq<Change>, c: Change)
    ensures forall w :: Mentioned(rest + [c], w) <==> Mentioned(rest, w) || w == c.window
    ensures !Mentioned(rest, c.window) ==> forall d | d in rest :: d.window != c.window
  {
    var changes := rest + [c];
    assert changes[|rest|] == c;
    assert forall i | 0 <= i < |rest| :: changes[i] == rest[i];
  }

  lemma GainedNow(windows: Windows, rest: seq<Change>, s: Pending, c: Change)
    requires Orderly(windows, rest, s) && c.window in windows && !Mentioned(rest, c.window)
    ensures forall p | p in Notified(s, c).unionRgn :: exists w :: GainedBy(windows, rest + [c], Notified(s, c), w, p)
  {
    var s', changes := Notified(s, c), rest + [c];
    MentionedNow(rest, c);
    hide Mentioned, BackUnion, ClipsSeen;
    forall p | p in s'.unionRgn
      ensures exists w :: GainedBy(windows, changes, s', w, p)
    {
      if p in s.unionRgn {
        var w :| GainedBy(windows, rest, s, w, p);
        assert GainedBy(windows, changes, s', w, p);
      } else {
        assert GainedBy(windows, changes, s', c.window, p);
      }
    }
  }

  lemma OrderlyStep(windows: Windows, rest: seq<Change>, s: Pending, c: Change)
    requires ClipsSeen(windows) && Orderly(windows, rest, s) && c.window in windows && !Mentioned(rest, c.window)
    ensures Orderly(windows, rest + [c], Notified(s, c))
  {
    MentionedNow(rest, c);
    GainedNow(windows, rest, s, c);
    hide Mentioned, GainedBy;
    assert s.windows[c.window] == windows[c.window];
  }

  /** A clip list that has been seen is not a change. */
  lemma OrderlyAgain(windows: Windows, rest: seq<Change>, s: Pending, c: Change)
    requires Orderly(windows, rest, s) && c in rest
    ensures Orderly(windows, rest + [c], Notified(s, c))
  {
    var changes := rest + [c];
    var i :| 0 <= i < |rest| && rest[i] == c;
    assert Mentioned(rest, c.window);
    MentionedNow(rest, c);
    hide Mentioned;
    assert Notified(s, c) == s by {
      assert s.windows[c.window].(clipList := c.clipList) == s.windows[c.window];
      assert s.windows[c.window := s.windows[c.window]] == s.windows;
    }
    forall p | p in s.unionRgn
      ensures exists w :: GainedBy(windows, changes, s, w, p)
    {
      var w :| GainedBy(windows, rest, s, w, p);
      assert GainedBy(windows, changes, s, w, p);
    }
  }

  lemma {:induction false} OneChangeEach(windows: Windows, changes: seq<Change>)
    requires ClipsSeen(windows) && OneListEach(changes) && forall i | 0 <= i < |changes| :: changes[i].window in windows
    ensures Orderly(windows, changes, NotifiedAll(windows, changes))
  {
    if changes == [] {
      assert forall w :: !Mentioned(changes, w);
    } else {
      var rest, c := changes[..|changes| - 1], changes[|changes| - 1];
      assert changes == rest + [c];
      OneChangeEach(windows, rest);
      if Mentioned(rest, c.window) {
        var i :| 0 <= i < |rest| && rest[i].window == c.window;
        assert changes[i] == rest[i];
        assert c in rest;
        hide Orderly, ClipsSeen, Mentioned;
        OrderlyAgain(windows, rest, NotifiedAll(windows, rest), c);
      } else {
        hide Orderly, ClipsSeen, Mentioned;
        OrderlyStep(windows, rest, NotifiedAll(windows, rest), c);
      }
    }
  }

  /** One clip list a window at most: the region and the plane come out right. */
  lemma OrderlyValidation(windows: Windows, changes: seq<Change>)
    requires DisjointClips(windows) && ClipsSeen(windows) && OneListEach(changes)
    requires forall i | 0 <= i < |changes| :: changes[i].window in windows
    ensures ComesRight(windows, changes)
  {
    OneChangeEach(windows, changes);
    var s := NotifiedAll(windows, changes);
    forall p | p in s.unionRgn
      ensures p in BackUnion(s.windows)
    {
      var w :| GainedBy(windows, changes, s, w, p);
    }
  }

  /** A window that shows its back buffer and is given two clip lists, one after the other. */
  lemma TwoListsLeaveTheFirst(p: Point, q: Point, r: Point)
    requires p != q && q != r && p != r
    ensures var windows: Windows := map[0 := Window({p}, Double(BACK_BUFFER, {p}))];
            var changes := [Change(0, {q}), Change(0, {r})];
            var s := NotifiedAll(windows, changes);
            && DisjointClips(windows) && ClipsSeen(windows) && !ComesRight(windows, changes)
            && BackUnion(s.windows) == {r} && BackAfter(BackUnion(windows), s) == {q, r}
  {
    var before := Window({p}, Double(BACK_BUFFER, {p}));
    var after := Window({r}, Double(BACK_BUFFER, {r}));
    var windows: Windows := map[0 := before];
    var c, d := Change(0, {q}), Change(0, {r});
    var changes := [c, d];
    assert changes[..1] == [c] && [c][..0] == [];
    assert NotifiedAll(windows, []) == Pending(windows, {}, {});
    var one := NotifiedAll(windows, [c]);
    assert one == Pending(map[0 := Window({q}, Double(BACK_BUFFER, {q}))], {p}, {q});
    var s := NotifiedAll(windows, changes);
    assert s == Notified(one, d) == Pending(map[0 := after], {p, q}, {q, r});
    assert ShowsBack(before) && windows[0] == before && ShowsBack(after) && s.windows[0] == after;
    assert BackUnion(windows) == {p} && BackUnion(s.windows) == {r};
    assert q in s.unionRgn;
  }

  /** Each window has the clip list that was reported last, or its old one, and every clip list has been seen. */
  ghost predicate Reported(before: Windows, after: Windows, changes: seq<Change>) {
    && after.Keys == before.Keys
    && (forall w | w in before && !Mentioned(changes, w) :: after[w] == before[w])
    && (forall i | 0 <= i < |changes| && changes[i].window in before && !Mentioned(changes[i + 1..], changes[i].window) ::
          after[changes[i].window].clipList == changes[i].clipList)
    && forall w | w in before && Mentioned(changes, w) ::
         after[w].buffers ==
         if before[w].buffers.Single? then Single else Double(before[w].buffers.displayed, after[w].clipList)
  }

  lemma OneReported(before: Windows, s: Pending, rest: seq<Change>, c: Change)
    requires Reported(before, s.windows, rest) && c.window in before
    ensures Reported(before, Notified(s, c).windows, rest + [c])
  {
    var changes := rest + [c];
    MentionedNow(rest, c);
    hide Mentioned;
    forall i | 0 <= i < |changes|
      ensures i < |rest| ==> (Mentioned(changes[i + 1..], rest[i].window) <==> Mentioned(rest[i + 1..], rest[i].window) || rest[i].window == c.window)
    {
      if i < |rest| {
        assert changes[i + 1..] == rest[i + 1..] + [c];
        MentionedNow(rest[i + 1..], c);
      }
    }
  }

  lemma {:induction false} ReportedIs(before: Windows, changes: seq<Change>)
    requires forall i | 0 <= i < |changes| :: changes[i].window in before
    ensures Reported(before, NotifiedAll(before, changes).windows, changes)
  {
    if changes != [] {
      var rest, c := changes[..|changes| - 1], changes[|changes| - 1];
      ReportedIs(before, rest);
      assert changes == rest + [c];
      hide Reported, Notified;
      OneReported(before, NotifiedAll(before, rest), rest, c);
    }
  }

  /** `more` was to be subtracted already. */
  function Also(s: Pending, more: Region): Pending {
    s.(subtractRgn := more + s.subtractRgn)
  }

  lemma AlsoNotified(s: Pending, more: Region, c: Change)
    requires c.window in s.windows
    ensures Notified(Also(s, more), c) == Also(Notified(s, c), more)
  {}

  // ---------- The screen ----------

  /** A window shows another buffer. */
  function Displaying(windows: Windows, w: nat, number: nat): Windows
    requires w in windows && windows[w].buffers.Double?
  {
    windows[w := windows[w].(buffers := windows[w].buffers.(displayed := number))]
  }

  lemma DisplayingBack(windows: Windows, w: nat, number: nat)
    requires w in windows && windows[w].buffers.Double? && DisjointClips(windows)
    ensures BackUnion(Displaying(windows, w, number)) ==
            if number == BACK_BUFFER then BackUnion(windows) + windows[w].clipList else BackUnion(windows) - windows[w].clipList
  {
    var d, others := Displaying(windows, w, number), BackUnion(windows);
    forall v, p | v in windows && v != w && p in windows[v].clipList
      ensures p !in windows[w].clipList
    {
      Apart(windows, v, w, p);
    }
    forall v | v in d
      ensures v != w ==> d[v] == windows[v]
      ensures ShowsBack(d[w]) <==> number == BACK_BUFFER
    {}
    forall p | p in others && (number != BACK_BUFFER ==> p !in windows[w].clipList)
      ensures p in BackUnion(d)
    {
      var v :| v in windows && ShowsBack(windows[v]) && p in windows[v].clipList;
      if v == w {
        assert ShowsBack(d[w]) && p in d[w].clipList;
      } else {
        assert ShowsBack(d[v]) && p in d[v].clipList;
      }
    }
  }

  datatype Rectangle = Rectangle(x: int, y: int, width: int, height: int)

  function Filled(r: Rectangle): Region {
    Points(Box(r.x, r.y, r.x + r.width, r.y + r.height))
  }

  predicate Painted(prect: seq<Rectangle>, p: Point) {
    exists k | 0 <= k < |prect| :: p in Filled(prect[k])
  }

  predicate Corners(r: Rectangle, b: Box) {
    r.x == b.x1 && r.y == b.y1 && r.x + r.width == b.x2 && r.y + r.height == b.y2
  }

  lemma FilledAre(boxes: seq<Box>, prect: seq<Rectangle>, rgn: Region)
    requires Decomposes(boxes, rgn) && |prect| == |boxes|
    requires forall k | 0 <= k < |boxes| :: Corners(prect[k], boxes[k])
    ensures forall p :: p in rgn <==> Painted(prect, p)
  {
    assert forall k | 0 <= k < |boxes| :: Filled(prect[k]) == Points(boxes[k]);
    hide Points, Filled;
    UnionMeans(boxes);
    forall p | p in rgn
      ensures Painted(prect, p)
    {
      var k :| 0 <= k < |boxes| && p in Points(boxes[k]);
      assert p in Filled(prect[k]);
    }
  }

  method Rectangles(boxes: seq<Box>) returns (prect: seq<Rectangle>)
    ensures |prect| == |boxes| && forall k | 0 <= k < |boxes| :: Corners(prect[k], boxes[k])
  {
    prect := [];
    for i := 0 to |boxes|
      invariant |prect| == i && forall k | 0 <= k < i :: Corners(prect[k], boxes[k])
    {
      var pbox := boxes[i];
      prect := prect + [Rectangle(pbox.x1, pbox.y1, pbox.x2 - pbox.x1, pbox.y2 - pbox.y1)];
    }
  }

  datatype DisplayRequest = DisplayRequest(window: nat, number: nat)

  /** A window without a clip list contributes nothing. */
  lemma Hidden(windows: Windows, w: nat, hidden: Window)
    requires w !in windows && hidden.clipList == {}
    ensures BackUnion(windows[w := hidden]) == BackUnion(windows)
    ensures DisjointClips(windows[w := hidden]) <==> DisjointClips(windows)
  {
    var more := windows[w := hidden];
    assert forall v | v in windows :: more[v] == windows[v];
    forall p
      ensures p in BackUnion(more) <==> p in BackUnion(windows)
    {
      if v :| v in windows && ShowsBack(windows[v]) && p in windows[v].clipList {
        assert ShowsBack(more[v]) && p in more[v].clipList;
      }
    }
  }

  lemma SameBack(windows: Windows, windows': Windows)
    requires windows.Keys == windows'.Keys
    requires forall w | w in windows :: windows'[w].clipList == windows[w].clipList && ShowsBack(windows'[w]) == ShowsBack(windows[w])
    ensures BackUnion(windows') == BackUnion(windows)
  {
    forall p
      ensures p in BackUnion(windows') <==> p in BackUnion(windows)
    {
      if w :| w in windows && ShowsBack(windows[w]) && p in windows[w].clipList {
        assert ShowsBack(windows'[w]) && p in windows'[w].clipList;
      }
    }
  }

  /** While no window is multibuffered, nothing is gained or lost. */
  lemma {:induction false} NothingGained(windows: Windows, changes: seq<Change>)
    requires forall w | w in windows :: windows[w].buffers.Single?
    requires forall i | 0 <= i < |changes| :: changes[i].window in windows
    ensures var s := NotifiedAll(windows, changes);
            s.subtractRgn == {} && s.unionRgn == {} && forall w | w in s.windows :: s.windows[w].buffers.Single?
  {
    if changes != [] {
      NothingGained(windows, changes[..|changes| - 1]);
    }
  }

  /** The first validation clears the region and the plane. */
  lemma SingleWindows(windows: Windows, changes: seq<Change>)
    requires forall w | w in windows :: windows[w].buffers.Single?
    requires forall i | 0 <= i < |changes| :: changes[i].window in windows
    ensures var s := NotifiedAll(windows, changes);
            s.subtractRgn == {} && s.unionRgn == {} && ClipsSeen(s.windows) && BackUnion(s.windows) == {}
  {
    NothingGained(windows, changes);
  }

  class Screen {
    const area: Region
    // the rectangles of a region
    const rects: Region -> seq<Box>
    var windows: Windows
    var backBuffer: Region
    var subtractRgn: Region
    var unionRgn: Region
    var rgnChanged: bool
    // the points at which the select plane selects the back buffer
    var selectPlane: Region

    ghost predicate Cuts() {
      forall r :: Decomposes(rects(r), r)
    }

    /** Before the first validation no window is multibuffered and the plane holds anything. */
    ghost predicate Fresh()
      reads this
    {
      && Cuts() && rgnChanged && backBuffer == area && subtractRgn == area && unionRgn == {}
      && selectPlane <= area
      && forall w | w in windows :: windows[w].buffers.Single?
    }

    /** The cached region and the plane agree with the windows. */
    ghost predicate Stable()
      reads this
    {
      && Cuts() && !rgnChanged && subtractRgn == {} && unionRgn == {}
      && DisjointClips(windows) && ClipsSeen(windows)
      && backBuffer == BackUnion(windows)
      && selectPlane == BackUnion(windows)
    }

    /** bufMultibufferInit. */
    constructor (area: Region, rects: Region -> seq<Box>, windows: Windows, plane: Region)
      requires forall r :: Decomposes(rects(r), r)
      requires plane <= area && forall w | w in windows :: windows[w].buffers.Single?
      ensures Fresh() && this.windows == windows && this.area == area && this.rects == rects
    {
      this.area, this.rects, this.windows, this.selectPlane := area, rects, windows, plane;
      rgnChanged, backBuffer, subtractRgn, unionRgn := true, area, area, {};
    }

    /** PolyFillRect on the plane: color 1 selects the back buffer. */
    method PolyFillRect(foreground: nat, prect: seq<Rectangle>)
      modifies `selectPlane
      ensures forall p :: p in selectPlane <==>
                if Painted(prect, p) then foreground == BACK_BUFFER else p in old(selectPlane)
    {
      for i := 0 to |prect|
        invariant forall p :: p in selectPlane <==>
                    if exists k | 0 <= k < i :: p in Filled(prect[k]) then foreground == BACK_BUFFER else p in old(selectPlane)
      {
        if foreground == BACK_BUFFER {
          selectPlane := selectPlane + Filled(prect[i]);
        } else {
          selectPlane := selectPlane - Filled(prect[i]);
        }
      }
    }

    /** bufDrawSelectPlane: the boxes of the region are painted as rectangles. */
    method DrawSelectPlane(rgn: Region, bufferNum: nat)
      requires Cuts()
      modifies `selectPlane
      ensures forall p :: p in selectPlane <==> if p in rgn then bufferNum == BACK_BUFFER else p in old(selectPlane)
    {
      var boxes := rects(rgn);
      assert Decomposes(boxes, rgn);
      hide *;
      if |boxes| == 0 {
        FilledAre(boxes, [], rgn);
        return;
      }
      var prect := Rectangles(boxes);
      FilledAre(boxes, prect, rgn);
      PolyFillRect(bufferNum, prect);
    }

    /** bufClipNotify, after the window's clip list has changed. */
    method ClipNotify(w: nat)
      requires w in windows
      requires !rgnChanged ==> subtractRgn == {} && unionRgn == {}
      modifies `windows, `subtractRgn, `unionRgn, `rgnChanged
      ensures var before := old(windows)[w];
              if before.buffers.Single? || before.buffers.oldClip == before.clipList then
                windows == old(windows) && subtractRgn == old(subtractRgn) && unionRgn == old(unionRgn) && rgnChanged == old(rgnChanged)
              else
                && windows == old(windows)[w := before.(buffers := before.buffers.(oldClip := before.clipList))]
                && subtractRgn == old(subtractRgn) + (if ShowsBack(before) then before.buffers.oldClip else {})
                && unionRgn == old(unionRgn) + (if ShowsBack(before) then before.clipList else {})
                && rgnChanged == (old(rgnChanged) || ShowsBack(before))
    {
      var pWin := windows[w];
      if pWin.buffers.Double? {
        if pWin.buffers.oldClip != pWin.clipList {
          if pWin.buffers.displayed == BACK_BUFFER {
            rgnChanged := true;
            subtractRgn := subtractRgn + pWin.buffers.oldClip;
            unionRgn := unionRgn + pWin.clipList;
          }
          windows := windows[w := pWin.(buffers := pWin.buffers.(oldClip := pWin.clipList))];
        }
      }
    }

    /** bufPostValidateTree; the subtraction must come before the union. */
    method PostValidateTree()
      requires Cuts()
      requires !rgnChanged ==> subtractRgn == {} && unionRgn == {}
      modifies this
      ensures windows == old(windows) && !rgnChanged && subtractRgn == {} && unionRgn == {}
      ensures backBuffer == BackAfter(old(backBuffer), Pending(old(windows), old(subtractRgn), old(unionRgn)))
      ensures selectPlane == PlaneAfter(old(selectPlane), Pending(old(windows), old(subtractRgn), old(unionRgn)))
    {
      if rgnChanged {
        rgnChanged := false;
        backBuffer := backBuffer - subtractRgn;
        backBuffer := backBuffer + unionRgn;
        var exposed := subtractRgn - unionRgn;
        DrawSelectPlane(exposed, FRONT_BUFFER);
        exposed := unionRgn - subtractRgn;
        DrawSelectPlane(exposed, BACK_BUFFER);
        subtractRgn := {};
        unionRgn := {};
      }
    }

    ghost function Now(): Pending
      reads this
    {
      Pending(windows, subtractRgn, unionRgn)
    }

    /** A window gets a new clip list, and bufClipNotify is told. */
    method ChangeClip(c: Change)
      requires c.window in windows
      requires !rgnChanged ==> subtractRgn == {} && unionRgn == {}
      modifies `windows, `subtractRgn, `unionRgn, `rgnChanged
      ensures Now() == Notified(old(Now()), c)
      ensures !rgnChanged ==> subtractRgn == {} && unionRgn == {}
    {
      windows := windows[c.window := windows[c.window].(clipList := c.clipList)];
      ClipNotify(c.window);
    }

    method ChangeClips(changes: seq<Change>)
      requires forall i | 0 <= i < |changes| :: changes[i].window in windows
      requires !rgnChanged ==> subtractRgn == {} && unionRgn == {}
      requires unionRgn == {}
      modifies `windows, `subtractRgn, `unionRgn, `rgnChanged
      ensures Now() == Also(NotifiedAll(old(windows), changes), old(subtractRgn))
      ensures !rgnChanged ==> subtractRgn == {} && unionRgn == {}
    {
      hide Notified;
      ghost var start, lost := windows, subtractRgn;
      for i := 0 to |changes|
        invariant Now() == Also(NotifiedAll(start, changes[..i]), lost)
        invariant !rgnChanged ==> subtractRgn == {} && unionRgn == {}
      {
        assert changes[..i + 1][..i] == changes[..i];
        AlsoNotified(NotifiedAll(start, changes[..i]), lost, changes[i]);
        ChangeClip(changes[i]);
      }
      assert changes[..|changes|] == changes;
    }

    /** One validation of the window tree: clip lists change, each window is told, and then the screen. */
    method ValidateTree(changes: seq<Change>)
      requires Fresh() || Stable()
      requires forall i | 0 <= i < |changes| :: changes[i].window in windows
      requires DisjointClips(NotifiedAll(windows, changes).windows)
      modifies this
      ensures windows == NotifiedAll(old(windows), changes).windows
      ensures Reported(old(windows), windows, changes)
      ensures Stable() <==> ComesRight(old(windows), changes)
      ensures OneListEach(changes) || old(Fresh()) ==> Stable()
    {
      ghost var start, lost, first := windows, subtractRgn, Fresh();
      assert Reported(start, NotifiedAll(start, changes).windows, changes) by {
        ReportedIs(start, changes);
      }
      hide Reported;
      ChangeClips(changes);
      PostValidateTree();
      hide DisjointClips, ClipsSeen, BackUnion;
      if first {
        SingleWindows(start, changes);
      } else {
        assert Also(NotifiedAll(start, changes), {}) == NotifiedAll(start, changes);
        ValidationIsRight(start, changes);
        NotifiedAllKeeps(start, changes);
        if OneListEach(changes) {
          OrderlyValidation(start, changes);
        }
      }
    }

    method DisplayImageBuffer(w: nat, number: nat)
      requires Stable() && number <= BACK_BUFFER && w in windows && windows[w].buffers.Double?
      modifies this
      ensures Stable() && windows == Displaying(old(windows), w, number)
    {
      DisplayingBack(windows, w, number);
      var pWin := windows[w];
      if pWin.buffers.displayed != number {
        DrawSelectPlane(pWin.clipList, number);
        if number == BACK_BUFFER {
          backBuffer := backBuffer + pWin.clipList;
        } else {
          backBuffer := backBuffer - pWin.clipList;
        }
      }
      windows := Displaying(windows, w, number);
    }

    /** bufDisplayImageBuffers; its caller then records the buffer as the displayed one. */
    method DisplayImageBuffers(requests: seq<DisplayRequest>)
      requires Stable()
      requires forall i, j | 0 <= i < j < |requests| :: requests[i].window != requests[j].window
      requires forall i | 0 <= i < |requests| ::
                 requests[i].number <= BACK_BUFFER && requests[i].window in windows && windows[requests[i].window].buffers.Double?
      modifies this
      ensures Stable()
      ensures windows.Keys == old(windows).Keys
      ensures forall w | w in windows && (forall i | 0 <= i < |requests| :: requests[i].window != w) :: windows[w] == old(windows)[w]
      ensures forall i | 0 <= i < |requests| ::
                var w := requests[i].window;
                windows[w] == old(windows)[w].(buffers := old(windows)[w].buffers.(displayed := requests[i].number))
    {
      for i := 0 to |requests|
        invariant Stable() && windows.Keys == old(windows).Keys
        invariant forall w | w in windows && (forall j | 0 <= j < i :: requests[j].window != w) :: windows[w] == old(windows)[w]
        invariant forall k | 0 <= k < i ::
                    var w := requests[k].window;
                    windows[w] == old(windows)[w].(buffers := old(windows)[w].buffers.(displayed := requests[k].number))
      {
        DisplayImageBuffer(requests[i].window, requests[i].number);
      }
    }

    /** A new window has no clip list yet. */
    method CreateWindow(w: nat)
      requires Stable() && w !in windows
      modifies `windows
      ensures Stable()
      ensures windows == old(windows)[w := Window({}, Single)]
    {
      Hidden(windows, w, Window({}, Single));
      windows := windows[w := Window({}, Single)];
    }

    /** DeleteWindow, after the window has been unmapped and its buffers destroyed. */
    method DeleteWindow(w: nat)
      requires Stable() && w in windows && windows[w] == Window({}, Single)
      modifies `windows
      ensures Stable()
      ensures windows == old(windows) - {w}
    {
      ghost var before := windows;
      windows := windows - {w};
      assert windows[w := Window({}, Single)] == before;
      Hidden(windows, w, Window({}, Single));
    }

    /** bufCreateImageBuffers: the front buffer is displayed at first. */
    method CreateImageBuffers(w: nat)
      requires Stable() && w in windows && windows[w].buffers.Single?
      modifies `windows
      ensures Stable()
      ensures windows == old(windows)[w := old(windows)[w].(buffers := Double(FRONT_BUFFER, old(windows)[w].clipList))]
    {
      ghost var before := windows;
      windows := windows[w := windows[w].(buffers := Double(FRONT_BUFFER, windows[w].clipList))];
      SameBack(before, windows);
    }

    /** bufDestroyImageBuffers; a window that is not realized has no clip list. */
    method DestroyImageBuffers(w: nat, realized: bool)
      requires Stable() && w in windows && windows[w].buffers.Double?
      requires !realized ==> windows[w].clipList == {}
      modifies this
      ensures Stable()
      ensures windows == old(windows)[w := old(windows)[w].(buffers := Single)]
    {
      var pWin := windows[w];
      ghost var before := windows;
      DisplayingBack(before, w, FRONT_BUFFER);
      if realized && pWin.buffers.displayed == BACK_BUFFER {
        backBuffer := backBuffer - pWin.clipList;
        DrawSelectPlane(pWin.clipList, FRONT_BUFFER);
      }
      windows := windows[w := pWin.(buffers := Single)];
      SameBack(Displaying(before, w, FRONT_BUFFER), windows);
    }
  }
}
