/** Buffers that come, go, and get a new pixmap. */
module MultibufferChanges {
  import opened BufferImages
  import opened MultibufferModel

  /** Another buffer for window w, with a new pixmap. */
  function Added(s: Store, w: WindowId, id: XID, h: Handle, image: Image): Store
    requires w in s.buffers
  {
    var b := s.buffers[w];
    s.(buffers := s.buffers[w := b.(ids := b.ids + [id])],
       multibuffers := s.multibuffers[id := Multibuffer(w, |b.ids|, h)],
       drawables := s.drawables[id := OnPixmap(h)],
       pixmaps := s.pixmaps[h := image])
  }

  lemma AddedLinks(s: Store, w: WindowId, id: XID, h: Handle, image: Image)
    requires Linked(s) && w in s.buffers && id !in s.multibuffers && s.buffers[w].displayed == -1
    ensures Linked(Added(s, w, id, h, image))
  {
    var t := Added(s, w, id, h, image);
    forall v | v in t.buffers
      ensures BuffersOk(t, v)
    {
      assert BuffersOk(s, v);
      forall i | 0 <= i < |t.buffers[v].ids|
        ensures SlotOk(t, v, i)
      {
        if i < |s.buffers[v].ids| {
          assert SlotOk(s, v, i);
        }
      }
    }
    forall x | x in t.multibuffers
      ensures RecordOk(t, x)
    {
      if x != id {
        assert RecordOk(s, x);
      }
    }
  }

  lemma AddedResolves(s: Store, w: WindowId, id: XID, h: Handle, image: Image)
    requires Linked(s) && Resolves(s) && w in s.buffers && id !in s.multibuffers && s.buffers[w].displayed == -1
    ensures Resolves(Added(s, w, id, h, image))
  {
    var t := Added(s, w, id, h, image);
    forall x | x in t.multibuffers
      ensures t.drawables[x] == Meaning(t, x)
    {
      if x != id {
        assert RecordOk(s, x) && s.drawables[x] == Meaning(s, x);
      }
    }
  }

  lemma AddedOwned(s: Store, users: map<Handle, XID>, w: WindowId, id: XID, h: Handle, image: Image)
    requires Owned(s, users) && w in s.buffers && id !in s.multibuffers && h !in s.pixmaps
    ensures var t := Added(s, w, id, h, image);
            && Owned(t, users[h := id])
            && forall x | x in t.multibuffers :: ImageOf(t, x) == if x == id then image else ImageOf(s, x)
  {}

  lemma AddedKeeps(s: Store, users: map<Handle, XID>, w: WindowId, id: XID, h: Handle, image: Image)
    requires Tied(s, users) && w in s.buffers && id !in s.multibuffers && h !in s.pixmaps
    requires s.buffers[w].displayed == -1
    ensures Tied(Added(s, w, id, h, image), users[h := id])
    ensures var t := Added(s, w, id, h, image);
            forall x | x in t.multibuffers :: ImageOf(t, x) == if x == id then image else ImageOf(s, x)
  {
    AddedLinks(s, w, id, h, image);
    AddedResolves(s, w, id, h, image);
    hide Linked, Resolves;
    AddedOwned(s, users, w, id, h, image);
  }

  /** The last buffer of window w goes, with the pixmap that it owns. */
  function Dropped(s: Store, w: WindowId): Store
    requires w in s.buffers && s.buffers[w].ids != []
    requires s.buffers[w].ids[|s.buffers[w].ids| - 1] in s.multibuffers
  {
    var b := s.buffers[w];
    var id := b.ids[|b.ids| - 1];
    s.(buffers := s.buffers[w := b.(ids := b.ids[..|b.ids| - 1])],
       multibuffers := s.multibuffers - {id},
       drawables := s.drawables - {id},
       pixmaps := s.pixmaps - {s.multibuffers[id].pixmap})
  }

  lemma DroppedLinks(s: Store, w: WindowId)
    requires Linked(s) && w in s.buffers && s.buffers[w].ids != []
    requires s.buffers[w].ids[|s.buffers[w].ids| - 1] in s.multibuffers
    ensures Linked(Dropped(s, w))
  {
    var t := Dropped(s, w);
    Slot(s, w, |s.buffers[w].ids| - 1);
    forall v | v in t.buffers
      ensures BuffersOk(t, v)
    {
      assert BuffersOk(s, v);
      forall i | 0 <= i < |t.buffers[v].ids|
        ensures SlotOk(t, v, i)
      {
        assert SlotOk(s, v, i);
      }
    }
    forall x | x in t.multibuffers
      ensures RecordOk(t, x)
    {
      assert RecordOk(s, x);
    }
  }

  lemma DroppedResolves(s: Store, w: WindowId)
    requires Linked(s) && Resolves(s) && w in s.buffers && s.buffers[w].ids != []
    requires s.buffers[w].ids[|s.buffers[w].ids| - 1] in s.multibuffers
    ensures Resolves(Dropped(s, w))
  {
    var t := Dropped(s, w);
    Slot(s, w, |s.buffers[w].ids| - 1);
    forall x | x in t.multibuffers
      ensures t.drawables[x] == Meaning(t, x)
    {
      assert RecordOk(s, x) && s.drawables[x] == Meaning(s, x);
    }
  }

  lemma DroppedOwned(s: Store, users: map<Handle, XID>, w: WindowId)
    requires Owned(s, users) && w in s.buffers && s.buffers[w].ids != []
    requires s.buffers[w].ids[|s.buffers[w].ids| - 1] in s.multibuffers
    ensures Owned(Dropped(s, w), users - {s.multibuffers[s.buffers[w].ids[|s.buffers[w].ids| - 1]].pixmap})
    ensures forall x | x in Dropped(s, w).multibuffers :: ImageOf(Dropped(s, w), x) == ImageOf(s, x)
  {}

  lemma DroppedKeeps(s: Store, users: map<Handle, XID>, w: WindowId)
    requires Tied(s, users) && w in s.buffers && s.buffers[w].ids != []
    requires s.buffers[w].ids[|s.buffers[w].ids| - 1] in s.multibuffers
    ensures Tied(Dropped(s, w), users - {s.multibuffers[s.buffers[w].ids[|s.buffers[w].ids| - 1]].pixmap})
    ensures forall x | x in Dropped(s, w).multibuffers :: ImageOf(Dropped(s, w), x) == ImageOf(s, x)
  {
    DroppedLinks(s, w);
    DroppedResolves(s, w);
    hide Linked, Resolves;
    DroppedOwned(s, users, w);
  }

  /** A buffer gets a new pixmap; its id follows unless it stands for the window. */
  function Replaced(s: Store, id: XID, h: Handle, image: Image): Store
    requires id in s.multibuffers
  {
    var m := s.multibuffers[id];
    var shown := m.window in s.buffers && m.number == s.buffers[m.window].displayed;
    s.(multibuffers := s.multibuffers[id := m.(pixmap := h)],
       drawables := if shown then s.drawables else s.drawables[id := OnPixmap(h)],
       pixmaps := (s.pixmaps - {m.pixmap})[h := image])
  }

  lemma ReplacedLinks(s: Store, id: XID, h: Handle, image: Image)
    requires Linked(s) && id in s.multibuffers
    ensures Linked(Replaced(s, id, h, image))
  {
    var t := Replaced(s, id, h, image);
    forall v | v in t.buffers
      ensures BuffersOk(t, v)
    {
      assert BuffersOk(s, v);
      forall i | 0 <= i < |t.buffers[v].ids|
        ensures SlotOk(t, v, i)
      {
        assert SlotOk(s, v, i);
      }
    }
    forall x | x in t.multibuffers
      ensures RecordOk(t, x)
    {
      assert RecordOk(s, x);
    }
  }

  lemma ReplacedResolves(s: Store, id: XID, h: Handle, image: Image)
    requires Linked(s) && Resolves(s) && id in s.multibuffers
    ensures Resolves(Replaced(s, id, h, image))
  {
    var t := Replaced(s, id, h, image);
    forall x | x in t.multibuffers
      ensures t.drawables[x] == Meaning(t, x)
    {
      assert RecordOk(s, x) && s.drawables[x] == Meaning(s, x);
    }
  }

  lemma ReplacedOwned(s: Store, users: map<Handle, XID>, id: XID, h: Handle, image: Image)
    requires Owned(s, users) && id in s.multibuffers && h !in s.pixmaps
    ensures Owned(Replaced(s, id, h, image), (users - {s.multibuffers[id].pixmap})[h := id])
    ensures forall x | x in s.multibuffers :: ImageOf(Replaced(s, id, h, image), x) == if x == id then image else ImageOf(s, x)
  {}

  lemma ReplacedKeeps(s: Store, users: map<Handle, XID>, id: XID, h: Handle, image: Image)
    requires Tied(s, users) && id in s.multibuffers && h !in s.pixmaps
    ensures Tied(Replaced(s, id, h, image), (users - {s.multibuffers[id].pixmap})[h := id])
    ensures forall x | x in s.multibuffers :: ImageOf(Replaced(s, id, h, image), x) == if x == id then image else ImageOf(s, x)
  {
    ReplacedLinks(s, id, h, image);
    ReplacedResolves(s, id, h, image);
    hide Linked, Resolves;
    ReplacedOwned(s, users, id, h, image);
  }

  // ---------- What the other windows see of it ----------

  /** Nothing has changed for the other windows. */
  ghost predicate LeftAlone(s: Store, t: Store, w: WindowId) {
    && t.windows.Keys == s.windows.Keys
    && (forall v | v in s.windows && v != w :: t.windows[v] == s.windows[v])
    && (forall v | v in s.buffers && v != w :: v in t.buffers && t.buffers[v] == s.buffers[v])
    && (forall v | v in t.buffers && v != w :: v in s.buffers)
    && forall x | x in s.multibuffers && s.multibuffers[x].window != w ::
         x in t.multibuffers && t.multibuffers[x] == s.multibuffers[x] && ImageOf(t, x) == ImageOf(s, x)
  }

  lemma LeftAloneOn(s: Store, t: Store, u: Store, w: WindowId)
    requires LeftAlone(s, t, w) && LeftAlone(t, u, w)
    ensures LeftAlone(s, u, w)
  {
    hide ImageOf;
  }

  lemma AddedAlone(s: Store, users: map<Handle, XID>, w: WindowId, id: XID, h: Handle, image: Image)
    requires Tied(s, users) && w in s.buffers && id !in s.multibuffers && h !in s.pixmaps && s.buffers[w].displayed == -1
    ensures LeftAlone(s, Added(s, w, id, h, image), w)
  {
    hide Linked, Resolves, Owned;
    AddedKeeps(s, users, w, id, h, image);
  }

  lemma DroppedAlone(s: Store, users: map<Handle, XID>, w: WindowId)
    requires Tied(s, users) && w in s.buffers && s.buffers[w].ids != []
    requires s.buffers[w].ids[|s.buffers[w].ids| - 1] in s.multibuffers
    ensures LeftAlone(s, Dropped(s, w), w)
  {
    hide Linked, Resolves, Owned;
    Slot(s, w, |s.buffers[w].ids| - 1);
    DroppedKeeps(s, users, w);
  }

  lemma ReplacedAlone(s: Store, users: map<Handle, XID>, id: XID, h: Handle, image: Image)
    requires Tied(s, users) && id in s.multibuffers && h !in s.pixmaps
    ensures LeftAlone(s, Replaced(s, id, h, image), s.multibuffers[id].window)
  {
    hide Linked, Resolves, Owned;
    ReplacedKeeps(s, users, id, h, image);
  }

  /** The other windows look as before. */
  lemma AloneSees(s: Store, users: map<Handle, XID>, t: Store, w: WindowId, v: WindowId)
    requires Consistent(s, users) && LeftAlone(s, t, w) && v in s.buffers && v != w
    ensures v in s.windows && v in t.buffers && v in t.windows && t.buffers[v] == s.buffers[v]
    ensures s.buffers[v].displayed >= 0 && View(t, v) == View(s, v)
  {
    hide Resolves, Owned, SizeOk, View;
    assert BuffersOk(s, v);
    OthersSee(s, t, w, v);
  }

  /** Window w itself is in order. */
  ghost predicate WindowInOrder(t: Store, w: WindowId) {
    && w in t.windows && WindowOk(t.windows[w])
    && (w in t.buffers ==>
          var b, win := t.buffers[w], t.windows[w];
          && 0 <= b.displayed < |b.ids| && b.width == win.width && b.height == win.height
          && forall i | 0 <= i < |b.ids| :: ImageOf(t, b.ids[i]).Keys == win.image.Keys)
  }

  lemma WindowsInOrder(s: Store, t: Store, w: WindowId)
    requires Linked(s) && Sized(s) && Displays(s) && LeftAlone(s, t, w) && WindowInOrder(t, w)
    ensures Displays(t)
    ensures forall v | v in t.windows :: WindowOk(t.windows[v])
    ensures forall v | v in t.buffers ::
              v in t.windows && t.buffers[v].width == t.windows[v].width && t.buffers[v].height == t.windows[v].height
  {
    hide Linked, SizeOk, WindowOk;
    forall v | v in t.buffers && v != w
      ensures v in t.windows && t.buffers[v].width == t.windows[v].width && t.buffers[v].height == t.windows[v].height
    {
      assert t.buffers[v] == s.buffers[v];
    }
  }

  lemma RecordInOrder(s: Store, t: Store, w: WindowId, x: XID)
    requires Linked(s) && Linked(t) && Sized(s) && LeftAlone(s, t, w) && WindowInOrder(t, w) && x in t.multibuffers
    ensures SizeOk(t, x)
  {
    assert RecordOk(t, x);
    hide Linked, WindowOk;
    var v := t.multibuffers[x].window;
    if v != w {
      Slot(s, v, t.multibuffers[x].number);
      assert SizeOk(s, x);
    }
  }

  /** If window w is in order and nothing has changed for the others, all is in order. */
  lemma BackInOrder(s: Store, before: map<Handle, XID>, t: Store, users: map<Handle, XID>, w: WindowId)
    requires Consistent(s, before) && Tied(t, users) && LeftAlone(s, t, w) && WindowInOrder(t, w)
    ensures Consistent(t, users)
  {
    hide Linked, Resolves, Owned, LeftAlone, WindowInOrder, WindowOk, SizeOk, Displays;
    WindowsInOrder(s, t, w);
    forall x | x in t.multibuffers
      ensures SizeOk(t, x)
    {
      RecordInOrder(s, t, w, x);
    }
  }

  /** Window w gets or loses the record of its buffers, without there being any. */
  lemma LinksWithout(s: Store, t: Store, w: WindowId)
    requires Linked(s) && w in s.windows && t.windows == s.windows && t.multibuffers == s.multibuffers
    requires w in s.buffers ==> s.buffers[w].ids == []
    requires w in t.buffers ==> t.buffers[w].ids == []
    requires t.buffers - {w} == s.buffers - {w}
    ensures Linked(t)
    ensures forall x | x in s.multibuffers :: s.multibuffers[x].window != w
    ensures LeftAlone(s, t, w) <== t.pixmaps == s.pixmaps
  {
    forall v | v in t.buffers
      ensures BuffersOk(t, v)
    {
      if v != w {
        assert v in t.buffers - {w};
        assert BuffersOk(s, v);
        forall i | 0 <= i < |t.buffers[v].ids|
          ensures SlotOk(t, v, i)
        {
          assert SlotOk(s, v, i);
        }
      }
    }
    forall x | x in t.multibuffers
      ensures RecordOk(t, x) && s.multibuffers[x].window != w
    {
      assert RecordOk(s, x);
      assert s.multibuffers[x].window in s.buffers - {w};
    }
    hide Linked, SlotOk, BuffersOk, RecordOk;
    forall v | v in s.buffers && v != w
      ensures v in t.buffers && t.buffers[v] == s.buffers[v]
    {
      assert v in s.buffers - {w} && (t.buffers - {w})[v] == (s.buffers - {w})[v];
    }
    forall v | v in t.buffers && v != w
      ensures v in s.buffers
    {
      assert v in t.buffers - {w};
    }
  }

  lemma ResolvesWithout(s: Store, t: Store, w: WindowId)
    requires Resolves(s) && t.multibuffers == s.multibuffers && t.drawables == s.drawables
    requires t.buffers - {w} == s.buffers - {w}
    requires forall x | x in s.multibuffers :: s.multibuffers[x].window != w
    ensures Resolves(t)
  {
    forall x | x in t.multibuffers
      ensures t.drawables[x] == Meaning(t, x)
    {
      assert s.drawables[x] == Meaning(s, x);
      var v := s.multibuffers[x].window;
      assert v in t.buffers <==> v in t.buffers - {w};
      assert v in s.buffers <==> v in s.buffers - {w};
      if v in s.buffers {
        assert (t.buffers - {w})[v] == (s.buffers - {w})[v];
      }
    }
  }

  lemma TiedWithout(s: Store, t: Store, users: map<Handle, XID>, w: WindowId)
    requires Tied(s, users) && w in s.windows && t.windows == s.windows && t.multibuffers == s.multibuffers
    requires t.drawables == s.drawables && t.pixmaps == s.pixmaps
    requires w in s.buffers ==> s.buffers[w].ids == []
    requires w in t.buffers ==> t.buffers[w].ids == []
    requires t.buffers - {w} == s.buffers - {w}
    ensures Tied(t, users) && LeftAlone(s, t, w)
    ensures forall x | x in s.multibuffers :: s.multibuffers[x].window != w
  {
    hide Linked, Resolves;
    LinksWithout(s, t, w);
    ResolvesWithout(s, t, w);
  }
}
