/** The tables of the multibuffering extension, and what they mean. */
module MultibufferModel {
  import opened BufferImages
  import opened Regions
  import opened TimeStamps

  type XID = nat
  type WindowId = nat
  type Handle = nat

  datatype Window = Window(image: Image, visible: Region, painter: Painter, width: nat, height: nat)

  /** `displayed` is -1 as long as no buffer is. */
  datatype Buffers = Buffers(ids: seq<XID>, displayed: int, action: Action, lastUpdate: TimeStamp, width: nat, height: nat)

  datatype Multibuffer = Multibuffer(window: WindowId, number: nat, pixmap: Handle)

  datatype Drawable = OnWindow(window: WindowId) | OnPixmap(pixmap: Handle)

  /** The resource tables: buffers of windows, records of buffer ids, and the drawable that an id stands for. */
  datatype Store = Store(windows: map<WindowId, Window>, buffers: map<WindowId, Buffers>,
                         multibuffers: map<XID, Multibuffer>, drawables: map<XID, Drawable>,
                         pixmaps: map<Handle, Image>)

  /** Buffer i of window w has a record that says so. */
  predicate SlotOk(s: Store, w: WindowId, i: nat)
    requires w in s.buffers && i < |s.buffers[w].ids|
  {
    var id := s.buffers[w].ids[i];
    id in s.multibuffers && s.multibuffers[id].window == w && s.multibuffers[id].number == i
  }

  ghost predicate BuffersOk(s: Store, w: WindowId)
    requires w in s.buffers
  {
    w in s.windows && forall i | 0 <= i < |s.buffers[w].ids| :: SlotOk(s, w, i)
  }

  predicate RecordOk(s: Store, id: XID)
    requires id in s.multibuffers
  {
    var m := s.multibuffers[id];
    m.window in s.buffers && m.number < |s.buffers[m.window].ids| && s.buffers[m.window].ids[m.number] == id
  }

  /** The tables point at each other. */
  ghost predicate Linked(s: Store) {
    && (forall w | w in s.buffers :: BuffersOk(s, w))
    && (forall id | id in s.multibuffers :: RecordOk(s, id))
  }

  lemma Slot(s: Store, w: WindowId, i: nat)
    requires Linked(s) && w in s.buffers && i < |s.buffers[w].ids|
    ensures SlotOk(s, w, i) && s.buffers[w].ids[i] in s.multibuffers
  {
    assert BuffersOk(s, w);
  }

  /** The drawable that a buffer id has to stand for: the window if it is displayed, else its own pixmap. */
  function Meaning(s: Store, id: XID): Drawable
    requires id in s.multibuffers
  {
    var m := s.multibuffers[id];
    if m.window in s.buffers && m.number == s.buffers[m.window].displayed then OnWindow(m.window) else OnPixmap(m.pixmap)
  }

  ghost predicate Resolves(s: Store) {
    && s.drawables.Keys == s.multibuffers.Keys
    && forall id | id in s.multibuffers :: s.drawables[id] == Meaning(s, id)
  }

  /** Every pixmap belongs to exactly one buffer: no two share one, and none is left over. */
  ghost predicate Owned(s: Store, users: map<Handle, XID>) {
    && users.Keys == s.pixmaps.Keys
    && (forall id | id in s.multibuffers :: s.multibuffers[id].pixmap in users && users[s.multibuffers[id].pixmap] == id)
    && forall h | h in users :: users[h] in s.multibuffers && s.multibuffers[users[h]].pixmap == h
  }

  function ImageOf(s: Store, id: XID): Image {
    if id in s.multibuffers && s.multibuffers[id].pixmap in s.pixmaps then s.pixmaps[s.multibuffers[id].pixmap] else map[]
  }

  ghost predicate WindowOk(win: Window) {
    win.image.Keys == Area(win.width, win.height) && win.visible <= win.image.Keys
  }

  predicate SizeOk(s: Store, id: XID)
    requires id in s.multibuffers
  {
    s.multibuffers[id].window in s.windows && ImageOf(s, id).Keys == s.windows[s.multibuffers[id].window].image.Keys
  }

  /** The pixmaps have the size of their window. */
  ghost predicate Sized(s: Store) {
    && (forall w | w in s.windows :: WindowOk(s.windows[w]))
    && (forall w | w in s.buffers ::
          w in s.windows && s.buffers[w].width == s.windows[w].width && s.buffers[w].height == s.windows[w].height)
    && forall id | id in s.multibuffers :: SizeOk(s, id)
  }

  /** Every window with buffers displays one. */
  ghost predicate Displays(s: Store) {
    forall w | w in s.buffers :: 0 <= s.buffers[w].displayed < |s.buffers[w].ids|
  }

  ghost predicate Tied(s: Store, users: map<Handle, XID>) {
    Linked(s) && Resolves(s) && Owned(s, users)
  }

  ghost predicate Consistent(s: Store, users: map<Handle, XID>) {
    Tied(s, users) && Sized(s) && Displays(s)
  }

  ghost function Pixmaps(s: Store, ids: seq<XID>): (r: seq<Image>)
    ensures |r| == |ids| && forall i | 0 <= i < |ids| :: r[i] == ImageOf(s, ids[i])
  {
    seq(|ids|, i requires 0 <= i < |ids| => ImageOf(s, ids[i]))
  }

  ghost function View(s: Store, w: WindowId): Frame
    requires w in s.windows && w in s.buffers && s.buffers[w].displayed >= 0
  {
    var win, b := s.windows[w], s.buffers[w];
    Frame(win.image, win.visible, win.painter, Pixmaps(s, b.ids), b.displayed, b.action, win.width, win.height)
  }

  lemma ViewParts(s: Store, w: WindowId)
    requires w in s.windows && w in s.buffers && s.buffers[w].displayed >= 0
    ensures |View(s, w).pixmaps| == |s.buffers[w].ids| && View(s, w).displayed == s.buffers[w].displayed
  {}

  lemma ViewIsProper(s: Store, users: map<Handle, XID>, w: WindowId)
    requires Consistent(s, users) && w in s.buffers
    ensures w in s.windows && s.buffers[w].displayed >= 0 && Proper(View(s, w))
  {
    hide Linked, Resolves, Owned, Area;
    var f, b := View(s, w), s.buffers[w];
    assert WindowOk(s.windows[w]);
    forall i | 0 <= i < |f.pixmaps|
      ensures f.pixmaps[i].Keys == f.window.Keys
    {
      Slot(s, w, i);
      assert SizeOk(s, b.ids[i]);
    }
  }

  /** The image that a client gets at under a buffer id. */
  ghost function Seen(s: Store, id: XID): Image
    requires id in s.drawables
  {
    match s.drawables[id]
    case OnWindow(w) => if w in s.windows then s.windows[w].image else map[]
    case OnPixmap(h) => if h in s.pixmaps then s.pixmaps[h] else map[]
  }

  /** The ids of a window's buffers show the list of images that the window holds for the client. */
  lemma IdsShowImages(s: Store, users: map<Handle, XID>, w: WindowId, i: nat)
    requires Consistent(s, users) && w in s.buffers && i < |s.buffers[w].ids|
    ensures s.buffers[w].ids[i] in s.drawables
    ensures Seen(s, s.buffers[w].ids[i]) == Logical(View(s, w))[i]
  {
    hide Linked;
    var id := s.buffers[w].ids[i];
    Slot(s, w, i);
    assert s.drawables[id] == Meaning(s, id);
    assert s.multibuffers[id].pixmap in users;
  }

  lemma SameView(s: Store, t: Store, w: WindowId)
    requires w in s.windows && w in s.buffers && s.buffers[w].displayed >= 0
    requires w in t.windows && w in t.buffers && t.windows[w] == s.windows[w] && t.buffers[w] == s.buffers[w]
    requires forall i | 0 <= i < |s.buffers[w].ids| :: ImageOf(t, s.buffers[w].ids[i]) == ImageOf(s, s.buffers[w].ids[i])
    ensures View(t, w) == View(s, w)
  {
    assert Pixmaps(s, s.buffers[w].ids) == Pixmaps(t, s.buffers[w].ids);
  }

  // ---------- Drawing and rebinding ----------

  function Draw(s: Store, id: XID, image: Image): Store
    requires id in s.multibuffers
  {
    s.(pixmaps := s.pixmaps[s.multibuffers[id].pixmap := image])
  }

  lemma DrawnOwned(s: Store, users: map<Handle, XID>, id: XID, image: Image)
    requires Owned(s, users) && id in s.multibuffers
    ensures Owned(Draw(s, id, image), users)
    ensures forall x | x in s.multibuffers :: ImageOf(Draw(s, id, image), x) == if x == id then image else ImageOf(s, x)
  {
    assert Draw(s, id, image).pixmaps.Keys == s.pixmaps.Keys;
  }

  /** Only the links matter, and which buffers are displayed. */
  lemma LinkedAgain(s: Store, t: Store)
    requires Linked(s) && Resolves(s) && t.windows.Keys == s.windows.Keys
    requires t.multibuffers == s.multibuffers && t.buffers.Keys == s.buffers.Keys && t.drawables == s.drawables
    requires forall v | v in s.buffers :: t.buffers[v].ids == s.buffers[v].ids && t.buffers[v].displayed == s.buffers[v].displayed
    ensures Linked(t) && Resolves(t)
  {
    forall w | w in t.buffers
      ensures BuffersOk(t, w)
    {
      assert BuffersOk(s, w);
      forall i | 0 <= i < |t.buffers[w].ids|
        ensures SlotOk(t, w, i)
      {
        assert SlotOk(s, w, i);
      }
    }
    forall id | id in t.multibuffers
      ensures RecordOk(t, id) && t.drawables[id] == Meaning(t, id)
    {
      assert RecordOk(s, id) && s.drawables[id] == Meaning(s, id);
    }
  }

  lemma DrawKeeps(s: Store, users: map<Handle, XID>, id: XID, image: Image)
    requires Tied(s, users) && id in s.multibuffers
    ensures Tied(Draw(s, id, image), users)
    ensures forall x | x in s.multibuffers :: ImageOf(Draw(s, id, image), x) == if x == id then image else ImageOf(s, x)
  {
    hide Linked, Resolves;
    LinkedAgain(s, Draw(s, id, image));
    DrawnOwned(s, users, id, image);
  }

  /** AliasMultibuffer: the id displayed so far goes back to its pixmap, buffer i stands for the window. */
  function Alias(s: Store, w: WindowId, i: nat): Store
    requires w in s.buffers && i < |s.buffers[w].ids| && s.buffers[w].displayed < |s.buffers[w].ids|
    requires forall x | x in s.buffers[w].ids :: x in s.multibuffers
  {
    var b := s.buffers[w];
    if i == b.displayed then s
    else
      var released := if b.displayed >= 0
                      then s.drawables[b.ids[b.displayed] := OnPixmap(s.multibuffers[b.ids[b.displayed]].pixmap)]
                      else s.drawables;
      s.(drawables := released[b.ids[i] := OnWindow(w)], buffers := s.buffers[w := b.(displayed := i)])
  }

  lemma AliasLinks(s: Store, w: WindowId, i: nat)
    requires Linked(s) && w in s.buffers && i < |s.buffers[w].ids| && s.buffers[w].displayed < |s.buffers[w].ids|
    requires forall x | x in s.buffers[w].ids :: x in s.multibuffers
    ensures Linked(Alias(s, w, i))
  {
    var t := Alias(s, w, i);
    forall v | v in t.buffers
      ensures BuffersOk(t, v)
    {
      assert BuffersOk(s, v);
      forall k | 0 <= k < |t.buffers[v].ids|
        ensures SlotOk(t, v, k)
      {
        assert SlotOk(s, v, k);
      }
    }
    forall id | id in t.multibuffers
      ensures RecordOk(t, id)
    {
      assert RecordOk(s, id);
    }
  }

  lemma AliasResolves(s: Store, w: WindowId, i: nat)
    requires Linked(s) && Resolves(s)
    requires w in s.buffers && i < |s.buffers[w].ids| && i != s.buffers[w].displayed < |s.buffers[w].ids|
    requires forall x | x in s.buffers[w].ids :: x in s.multibuffers
    ensures Resolves(Alias(s, w, i))
  {
    var t, b := Alias(s, w, i), s.buffers[w];
    Slot(s, w, i);
    if b.displayed >= 0 {
      Slot(s, w, b.displayed);
    }
    assert t.drawables.Keys == s.drawables.Keys;
    forall id | id in t.multibuffers
      ensures t.drawables[id] == Meaning(t, id)
    {
      assert s.drawables[id] == Meaning(s, id) && RecordOk(s, id);
    }
  }

  /** Ids keep standing for what they have to, when another buffer is displayed. */
  lemma AliasKeeps(s: Store, users: map<Handle, XID>, w: WindowId, i: nat)
    requires Tied(s, users) && w in s.buffers && i < |s.buffers[w].ids| && s.buffers[w].displayed < |s.buffers[w].ids|
    requires forall x | x in s.buffers[w].ids :: x in s.multibuffers
    ensures Tied(Alias(s, w, i), users)
    ensures Alias(s, w, i).buffers == s.buffers[w := s.buffers[w].(displayed := i)]
  {
    var t, b := Alias(s, w, i), s.buffers[w];
    if i == b.displayed {
      assert s.buffers[w := b.(displayed := i)] == s.buffers;
    } else {
      AliasLinks(s, w, i);
      AliasResolves(s, w, i);
    }
  }

  /** The update action goes to the pixmap of the buffer displayed so far. */
  ghost function DrawPrevious(s: Store, w: WindowId, n: nat): Store
    requires w in s.windows && w in s.buffers && 0 <= s.buffers[w].displayed < |s.buffers[w].ids| && n < |s.buffers[w].ids|
    requires s.buffers[w].ids[s.buffers[w].displayed] in s.multibuffers
  {
    Draw(s, s.buffers[w].ids[s.buffers[w].displayed], Updated(View(s, w), n))
  }

  /** The image of buffer n goes to the window. */
  ghost function CopyOut(s: Store, w: WindowId, n: nat, now: TimeStamp): Store
    requires w in s.windows && w in s.buffers && n < |s.buffers[w].ids|
  {
    var win, b := s.windows[w], s.buffers[w];
    var src := ImageOf(s, b.ids[n]);
    s.(windows := s.windows[w := win.(image := CopyArea(src, src.Keys, win.image, win.visible, 0, 0, win.width, win.height, 0, 0))],
       buffers := s.buffers[w := b.(lastUpdate := now)])
  }

  /** One window of a display request, carried out at time `now`. */
  ghost function Show(s: Store, w: WindowId, n: nat, now: TimeStamp): Store
    requires w in s.windows && w in s.buffers && 0 <= s.buffers[w].displayed < |s.buffers[w].ids| && n < |s.buffers[w].ids|
    requires forall x | x in s.buffers[w].ids :: x in s.multibuffers
  {
    Alias(CopyOut(DrawPrevious(s, w, n), w, n, now), w, n)
  }

  lemma CopyOutIs(s: Store, users: map<Handle, XID>, w: WindowId, n: nat, now: TimeStamp)
    requires Tied(s, users) && w in s.windows && w in s.buffers
    requires 0 <= s.buffers[w].displayed < |s.buffers[w].ids| && n < |s.buffers[w].ids|
    requires s.buffers[w].ids[s.buffers[w].displayed] in s.multibuffers
    ensures CopyOut(DrawPrevious(s, w, n), w, n, now).windows
            == s.windows[w := s.windows[w].(image := Displayed(View(s, w), n).window)]
  {
    hide Linked, Owned, Resolves, Updated;
    var b := s.buffers[w];
    Slot(s, w, n);
    Slot(s, w, b.displayed);
    DrawKeeps(s, users, b.ids[b.displayed], Updated(View(s, w), n));
  }

  lemma AllRecorded(s: Store, w: WindowId)
    requires Linked(s) && w in s.buffers
    ensures forall x | x in s.buffers[w].ids :: x in s.multibuffers
  {
    assert BuffersOk(s, w);
    forall x | x in s.buffers[w].ids
      ensures x in s.multibuffers
    {
      var i :| 0 <= i < |s.buffers[w].ids| && s.buffers[w].ids[i] == x;
      assert SlotOk(s, w, i);
    }
  }

  lemma AliasRest(s: Store, w: WindowId, i: nat)
    requires w in s.buffers && i < |s.buffers[w].ids| && s.buffers[w].displayed < |s.buffers[w].ids|
    requires forall x | x in s.buffers[w].ids :: x in s.multibuffers
    ensures var t := Alias(s, w, i); t.windows == s.windows && t.multibuffers == s.multibuffers && t.pixmaps == s.pixmaps
  {}

  lemma OwnedAgain(s: Store, t: Store, users: map<Handle, XID>)
    requires Owned(s, users) && t.multibuffers == s.multibuffers && t.pixmaps == s.pixmaps
    ensures Owned(t, users)
  {}

  /** What the steps of a display do to the tables; the image of the previous buffer is known by its id. */
  ghost predicate Stepped(s: Store, t: Store, w: WindowId, n: nat, now: TimeStamp)
    requires w in s.windows && w in s.buffers && 0 <= s.buffers[w].displayed < |s.buffers[w].ids| && n < |s.buffers[w].ids|
  {
    && t.multibuffers == s.multibuffers
    && t.buffers == s.buffers[w := s.buffers[w].(displayed := n, lastUpdate := now)]
    && t.windows == s.windows[w := s.windows[w].(image := Displayed(View(s, w), n).window)]
    && forall x | x in s.multibuffers ::
         ImageOf(t, x) == if x == s.buffers[w].ids[s.buffers[w].displayed] then Updated(View(s, w), n) else ImageOf(s, x)
  }

  lemma StepsDone(s: Store, users: map<Handle, XID>, w: WindowId, n: nat, now: TimeStamp)
    requires Tied(s, users) && Displays(s) && w in s.windows && w in s.buffers && n < |s.buffers[w].ids|
    requires forall x | x in s.buffers[w].ids :: x in s.multibuffers
    ensures Tied(Show(s, w, n, now), users)
    ensures Stepped(s, Show(s, w, n, now), w, n, now)
  {
    hide Linked, Resolves, Owned, Updated, Displayed, CopyArea, Alias, View;
    ViewParts(s, w);
    var f, b := View(s, w), s.buffers[w];
    var prev := b.ids[b.displayed];
    var drawn, copied := DrawPrevious(s, w, n), CopyOut(DrawPrevious(s, w, n), w, n, now);
    DrawKeeps(s, users, prev, Updated(f, n));
    CopyOutIs(s, users, w, n, now);
    LinkedAgain(drawn, copied);
    OwnedAgain(drawn, copied, users);
    AliasKeeps(copied, users, w, n);
    AliasRest(copied, w, n);
  }

  /** What one display of a buffer amounts to. */
  ghost predicate Showed(s: Store, t: Store, w: WindowId, n: nat, now: TimeStamp)
    requires Displays(s) && w in s.buffers && n < |s.buffers[w].ids|
  {
    && t.windows.Keys == s.windows.Keys && t.multibuffers == s.multibuffers
    && t.buffers == s.buffers[w := s.buffers[w].(displayed := n, lastUpdate := now)]
    && s.buffers.Keys <= s.windows.Keys
    && View(t, w) == Displayed(View(s, w), n)
    && forall v | v in s.buffers && v != w :: View(t, v) == View(s, v)
  }

  /** A change to the images of one window's buffers is not seen through another. */
  lemma OthersSee(s: Store, t: Store, w: WindowId, v: WindowId)
    requires Linked(s) && v in s.buffers && s.buffers[v].displayed >= 0 && v != w
    requires v in s.windows && v in t.windows && t.windows[v] == s.windows[v]
    requires v in t.buffers && t.buffers[v] == s.buffers[v]
    requires forall x | x in s.multibuffers && s.multibuffers[x].window != w :: ImageOf(t, x) == ImageOf(s, x)
    ensures View(t, v) == View(s, v)
  {
    hide Linked;
    forall i | 0 <= i < |s.buffers[v].ids|
      ensures ImageOf(t, s.buffers[v].ids[i]) == ImageOf(s, s.buffers[v].ids[i])
    {
      Slot(s, v, i);
    }
    SameView(s, t, v);
  }

  lemma OthersStay(s: Store, t: Store, w: WindowId, n: nat, now: TimeStamp)
    requires Linked(s) && Displays(s) && w in s.buffers && n < |s.buffers[w].ids|
    requires w in s.windows && Stepped(s, t, w, n, now)
    ensures s.buffers.Keys <= s.windows.Keys && t.windows.Keys == s.windows.Keys
    ensures forall v | v in s.buffers && v != w :: View(t, v) == View(s, v)
  {
    forall v | v in s.buffers
      ensures v in s.windows
    {
      assert BuffersOk(s, v);
    }
    hide Linked, Displayed, Updated, View;
    forall v | v in s.buffers && v != w
      ensures View(t, v) == View(s, v)
    {
      Slot(s, w, s.buffers[w].displayed);
      OthersSee(s, t, w, v);
    }
  }

  lemma DisplayedParts(f: Frame, n: nat)
    requires Proper(f) && n < |f.pixmaps|
    ensures Displayed(f, n) == f.(pixmaps := f.pixmaps[f.displayed := Updated(f, n)],
                                  window := Displayed(f, n).window, displayed := n)
    ensures Displayed(f, n).window.Keys == f.window.Keys && Updated(f, n).Keys == f.window.Keys
  {}

  lemma WindowsStay(s: Store, t: Store, w: WindowId, n: nat, now: TimeStamp)
    requires Sized(s) && Displays(s) && w in s.buffers && n < |s.buffers[w].ids|
    requires w in s.windows && Proper(View(s, w)) && Stepped(s, t, w, n, now)
    ensures t.multibuffers == s.multibuffers && Displays(t)
    ensures forall v | v in t.windows :: WindowOk(t.windows[v])
    ensures forall v | v in t.buffers ::
              v in t.windows && t.buffers[v].width == t.windows[v].width && t.buffers[v].height == t.windows[v].height
  {
    hide Displayed, Area, SizeOk;
    DisplayedParts(View(s, w), n);
    assert WindowOk(s.windows[w]);
  }

  lemma SizeStays(s: Store, t: Store, w: WindowId, n: nat, now: TimeStamp, id: XID)
    requires w in s.windows && w in s.buffers && 0 <= s.buffers[w].displayed < |s.buffers[w].ids| && n < |s.buffers[w].ids|
    requires Proper(View(s, w)) && Stepped(s, t, w, n, now) && SlotOk(s, w, s.buffers[w].displayed)
    requires id in s.multibuffers && SizeOk(s, id)
    ensures SizeOk(t, id)
  {
    hide Displayed, Updated, Area;
    DisplayedParts(View(s, w), n);
  }

  lemma SizesStay(s: Store, t: Store, w: WindowId, n: nat, now: TimeStamp)
    requires Linked(s) && Sized(s) && Displays(s) && w in s.buffers && n < |s.buffers[w].ids|
    requires w in s.windows && Proper(View(s, w)) && Stepped(s, t, w, n, now)
    ensures Sized(t) && Displays(t)
  {
    hide Stepped, Linked, Area, Proper, SizeOk, View;
    WindowsStay(s, t, w, n, now);
    Slot(s, w, s.buffers[w].displayed);
    forall id | id in s.multibuffers
      ensures SizeOk(t, id)
    {
      SizeStays(s, t, w, n, now, id);
    }
  }

  lemma ViewIsDisplayed(s: Store, t: Store, w: WindowId, n: nat, now: TimeStamp)
    requires Linked(s) && w in s.buffers && 0 <= s.buffers[w].displayed < |s.buffers[w].ids| && n < |s.buffers[w].ids|
    requires w in s.windows && Proper(View(s, w)) && Stepped(s, t, w, n, now)
    ensures View(t, w) == Displayed(View(s, w), n)
  {
    hide Linked, Displayed, Updated, Area;
    var f, b := View(s, w), s.buffers[w];
    DisplayedParts(f, n);
    forall i | 0 <= i < |b.ids|
      ensures Pixmaps(t, b.ids)[i] == f.pixmaps[b.displayed := Updated(f, n)][i]
    {
      Slot(s, w, i);
      Slot(s, w, b.displayed);
    }
    assert Pixmaps(t, b.ids) == Displayed(f, n).pixmaps;
  }

  lemma AfterShow(s: Store, users: map<Handle, XID>, t: Store, w: WindowId, n: nat, now: TimeStamp)
    requires Consistent(s, users) && w in s.buffers && n < |s.buffers[w].ids|
    requires w in s.windows && Proper(View(s, w)) && Stepped(s, t, w, n, now)
    ensures Sized(t) && Displays(t)
    ensures Showed(s, t, w, n, now)
  {
    SizesStay(s, t, w, n, now);
    ViewIsDisplayed(s, t, w, n, now);
    OthersStay(s, t, w, n, now);
    hide Linked, Resolves, Owned, Sized, Proper, Displayed, Updated, View;
  }

  /** Displaying a buffer has its effect on its own window alone. */
  lemma ShowKeeps(s: Store, users: map<Handle, XID>, w: WindowId, n: nat, now: TimeStamp)
    requires Consistent(s, users) && w in s.buffers && n < |s.buffers[w].ids|
    ensures w in s.windows && forall x | x in s.buffers[w].ids :: x in s.multibuffers
    ensures Consistent(Show(s, w, n, now), users)
    ensures Showed(s, Show(s, w, n, now), w, n, now)
  {
    hide Linked, Resolves, Owned, Sized, Proper, Stepped, Show, Showed;
    ViewIsProper(s, users, w);
    AllRecorded(s, w);
    StepsDone(s, users, w, n, now);
    AfterShow(s, users, Show(s, w, n, now), w, n, now);
  }
}
