/** Multibuffering as the server carries it out, updating its tables in place. */
module Multibuffering {
  import opened BufferImages
  import opened DisplayTimes
  import opened MultibufferChanges
  import opened MultibufferModel
  import opened MultibufferRequests
  import opened Regions
  import opened SleepUntil
  import opened TimeStamps

  class Server {
    var windows: map<WindowId, Window>
    var buffers: map<WindowId, Buffers>
    var multibuffers: map<XID, Multibuffer>
    var drawables: map<XID, Drawable>
    var pixmaps: map<Handle, Image>
    var nextPixmap: Handle
    var currentTime: TimeStamp
    // whose pixmap it is, and when the buffers of a window were displayed since they were created
    ghost var users: map<Handle, XID>
    ghost var shows: map<WindowId, seq<Shown>>

    ghost function Tables(): Store
      reads this
    {
      Store(windows, buffers, multibuffers, drawables, pixmaps)
    }

    ghost predicate Valid()
      reads this
    {
      && Consistent(Tables(), users)
      && (forall h | h in users :: h < nextPixmap)
      && AllTimed(buffers, shows, currentTime)
    }

    constructor (windows: map<WindowId, Window>)
      requires forall w | w in windows :: WindowOk(windows[w])
      ensures Valid() && this.windows == windows && buffers == map[]
    {
      this.windows := windows;
      buffers, multibuffers, drawables, pixmaps, users, shows := map[], map[], map[], map[], map[], map[];
      nextPixmap, currentTime := 0, TimeStamp(0, 0);
    }

    /** A client draws on the id of buffer i: it changes the i-th image of the window, wherever that is kept. */
    method DrawOn(w: WindowId, i: nat, image: Image)
      requires Valid() && w in windows && w in buffers && i < |buffers[w].ids| && image.Keys == windows[w].image.Keys
      modifies `windows, `pixmaps
      ensures Valid() && OneDrawn(old(Tables()), Tables(), w, i, image)
    {
      hide Consistent, AllTimed, OneDrawn;
      DrawnIsOneImage(Tables(), users, w, i, image);
      match drawables[buffers[w].ids[i]] {
        case OnWindow(v) =>
          if v in windows {
            windows := windows[v := windows[v].(image := image)];
          }
        case OnPixmap(h) =>
          pixmaps := pixmaps[h := image];
      }
    }

    method UpdateCurrentTime(reading: Milliseconds)
      requires Valid()
      modifies `currentTime
      ensures Valid()
      ensures Abs(currentTime) >= Abs(old(currentTime)) && currentTime.milliseconds == reading
    {
      currentTime := Advance(currentTime, reading);
      StillTimed(buffers, shows, old(currentTime), currentTime);
    }

    method AliasMultibuffer(w: WindowId, i: nat)
      requires CanAlias(Tables(), w, i)
      modifies `drawables, `buffers
      ensures Tables() == Alias(old(Tables()), w, i)
    {
      var b := buffers[w];
      if i == b.displayed {
        return;
      }
      if b.displayed >= 0 {
        var released := b.ids[b.displayed];
        drawables := drawables[released := OnPixmap(multibuffers[released].pixmap)];
      }
      drawables := drawables[b.ids[i] := OnWindow(w)];
      buffers := buffers[w := b.(displayed := i)];
    }

    /** The update action of window w, on the pixmap of the buffer displayed so far. */
    method UpdatePrevious(w: WindowId, n: nat)
      requires ImagesAt(Tables(), w, n)
      modifies `pixmaps
      ensures Tables() == DrawPrevious(old(Tables()), w, n)
    {
      var win, b := windows[w], buffers[w];
      var prev := multibuffers[b.ids[b.displayed]].pixmap;
      match b.action {
        case Undefined =>
          assert pixmaps[prev := pixmaps[prev]] == pixmaps;
        case Background =>
          pixmaps := pixmaps[prev := FillRect(pixmaps[prev], win.painter)];
        case Untouched =>
          pixmaps := pixmaps[prev := CopyArea(win.image, win.visible, pixmaps[prev], pixmaps[prev].Keys,
                                              0, 0, win.width, win.height, 0, 0)];
        case Copied =>
          var next := multibuffers[b.ids[n]].pixmap;
          pixmaps := pixmaps[prev := CopyArea(pixmaps[next], pixmaps[next].Keys, pixmaps[prev], pixmaps[prev].Keys,
                                              0, 0, win.width, win.height, 0, 0)];
      }
    }

    /** The new buffer is copied to the window. */
    method CopyToWindow(w: WindowId, n: nat)
      requires CanCopy(Tables(), w, n)
      modifies `windows, `buffers
      ensures Tables() == CopyOut(old(Tables()), w, n, currentTime)
    {
      var win := windows[w];
      var next := multibuffers[buffers[w].ids[n]].pixmap;
      var image := CopyArea(pixmaps[next], pixmaps[next].Keys, win.image, win.visible, 0, 0, win.width, win.height, 0, 0);
      windows := windows[w := win.(image := image)];
      buffers := buffers[w := buffers[w].(lastUpdate := currentTime)];
    }

    /** The body of the loop of PerformDisplayRequest. */
    method DisplayOne(w: WindowId, n: nat, ghost delay: nat, ghost waited: bool)
      requires Valid() && w in buffers && n < |buffers[w].ids|
      requires waited ==> Abs(buffers[w].lastUpdate) + delay <= Abs(currentTime)
      modifies `windows, `buffers, `drawables, `pixmaps, `shows
      ensures Valid()
      ensures Showed(old(Tables()), Tables(), w, n, currentTime)
      ensures shows == old(shows)[w := old(shows)[w] + [Shown(Abs(currentTime), delay, waited)]]
    {
      hide Consistent, Showed, AllTimed, DrawPrevious, CopyOut, Alias, ImagesAt, CanCopy, CanAlias;
      ghost var s := Tables();
      StepsReady(s, users, w, n, currentTime);
      ShowKeeps(s, users, w, n, currentTime);
      AllTimedOn(buffers, shows, currentTime, w, n, delay, waited);
      UpdatePrevious(w, n);
      CopyToWindow(w, n);
      AliasMultibuffer(w, n);
      ShowedTables(s, Tables(), w, n, currentTime);
      shows := shows[w := shows[w] + [Shown(Abs(currentTime), delay, waited)]];
    }

    method PerformDisplayRequest(names: seq<XID>, reading: Milliseconds, ghost delay: nat, ghost waited: bool)
      requires Valid() && Fine(multibuffers, names)
      requires waited ==> forall x | x in names :: Ready(Tables(), x, delay, currentTime)
      modifies this
      ensures Valid() && users == old(users)
      ensures Abs(currentTime) >= Abs(old(currentTime)) && currentTime.milliseconds == reading
      ensures Carried(old(Tables()), Tables(), names, |names|, currentTime)
      ensures Logged(old(shows), shows, multibuffers, names, |names|, Shown(Abs(currentTime), delay, waited))
    {
      hide Consistent, Carried, Logged, Showed, Ready, AllTimed, Displays;
      ghost var s := Tables();
      UpdateCurrentTime(reading);
      CarriedNone(s, users, names, currentTime);
      NoneLogged(shows, multibuffers, names, Shown(Abs(currentTime), delay, waited));
      var i := 0;
      while i < |names|
        invariant i <= |names| && Valid() && users == old(users)
        invariant multibuffers == old(multibuffers) && currentTime.milliseconds == reading
        invariant Abs(currentTime) >= Abs(old(currentTime))
        invariant Carried(s, Tables(), names, i, currentTime)
        invariant Logged(old(shows), shows, multibuffers, names, i, Shown(Abs(currentTime), delay, waited))
      {
        var m := multibuffers[names[i]];
        ghost var t, logged := Tables(), shows;
        NextReady(s, t, users, names, i, currentTime);
        OnRecord(buffers, shows, currentTime, m.window);
        if waited {
          StillDue(s, t, names[i], delay, old(currentTime), currentTime);
        }
        DisplayOne(m.window, m.number, delay, waited);
        CarriedStep(s, t, Tables(), names, i, currentTime);
        LoggedStep(old(shows), logged, multibuffers, names, i, Shown(Abs(currentTime), delay, waited));
        i := i + 1;
      }
    }

    /** The buffers that a request names, and the time from which it may be carried out. */
    method LookUp(names: seq<XID>, minDelay: Milliseconds) returns (fault: Outcome, activateTime: TimeStamp)
      requires Valid()
      ensures fault == Fault(multibuffers, names)
      ensures fault == Done ==> Abs(activateTime) == WakeTime(buffers, multibuffers, names, minDelay)
    {
      hide Consistent, AllTimed, SameWindowBefore, Fault, WakeTime;
      activateTime := TimeStamp(0, 0);
      NoNames(buffers, multibuffers, names, minDelay);
      var i := 0;
      while i < |names|
        invariant i <= |names|
        invariant Fault(multibuffers, names[..i]) == Done
        invariant Abs(activateTime) == WakeTime(buffers, multibuffers, names[..i], minDelay)
      {
        OneName(buffers, multibuffers, names, i, minDelay);
        if names[i] !in multibuffers {
          return BadBuffer(names[i]), activateTime;
        }
        var w := multibuffers[names[i]].window;
        assert w in buffers by {
          HasWindow(Tables(), users, names[i]);
        }
        var j := 0;
        while j < i
          invariant j <= i
          invariant !NamedIn(multibuffers, names, j, w)
        {
          if names[j] in multibuffers && multibuffers[names[j]].window == w {
            SameAgain(multibuffers, names, i, j);
            return BadMatch(names[i]), activateTime;
          }
          j := j + 1;
        }
        NoneAgain(multibuffers, names, i);
        var bufferTime := Bump(buffers[w].lastUpdate, minDelay);
        if Later(bufferTime, activateTime) {
          activateTime := bufferTime;
        }
        i := i + 1;
      }
      assert names[..i] == names;
      fault := Done;
    }

    /**
      * ProcDisplayImageBuffers. A request that comes too early sleeps and is executed again when its client
      * is woken; it is carried out all the same if it cannot be put to sleep.
      */
    method DisplayImageBuffers(client: nat, names: seq<XID>, minDelay: Milliseconds, reading: Milliseconds, reading2: Milliseconds,
                               sleepers: Sleepers, request: nat, ticket: nat, canRegister: bool) returns (outcome: Outcome)
      requires Valid() && sleepers.Valid() && ticket == sleepers.nextTicket
      requires forall r | r in sleepers.pending :: r.id != request
      modifies this, sleepers
      ensures Valid() && sleepers.Valid() && users == old(users)
      ensures Abs(currentTime) >= Abs(old(currentTime))
      // a bad name leaves everything as it was
      ensures !Fine(old(multibuffers), names) ==>
                && outcome == Fault(old(multibuffers), names) && outcome != Done && !outcome.Asleep?
                && Tables() == old(Tables()) && shows == old(shows) && sleepers.pending == old(sleepers.pending)
      ensures Fine(old(multibuffers), names) ==> outcome.Done? || outcome.Asleep?
      // it sleeps only if it comes too early, and until it does not
      ensures outcome.Asleep? ==>
                && Fine(old(multibuffers), names)
                && Abs(outcome.until) == WakeTime(old(buffers), old(multibuffers), names, minDelay) > Abs(currentTime)
                && Tables() == old(Tables()) && shows == old(shows)
                && sleepers.pending == Insert(old(sleepers.pending), Request(request, client, outcome.until, ticket))
      // once it does not, or if it cannot sleep, it is carried out
      ensures outcome.Done? ==>
                && Fine(old(multibuffers), names)
                && sleepers.pending == old(sleepers.pending)
                && Carried(old(Tables()), Tables(), names, |names|, currentTime)
                && (old(sleepers.handlerRegistered) || canRegister ==>
                      forall x | x in names :: Ready(old(Tables()), x, minDelay, currentTime))
      ensures outcome.Done? && names != [] ==> exists waited ::
                Logged(old(shows), shows, multibuffers, names, |names|, Shown(Abs(currentTime), minDelay, waited))
                && (old(sleepers.handlerRegistered) || canRegister ==> waited)
    {
      hide Consistent, AllTimed, Carried, Logged, InOrder, DistinctIds;
      FaultIff(multibuffers, names);
      if names == [] {
        CarriedNone(Tables(), users, names, currentTime);
        return Done;
      }
      var fault, activateTime := LookUp(names, minDelay);
      if fault != Done {
        return fault;
      }
      UpdateCurrentTime(reading);
      var waited := !Later(activateTime, currentTime);
      if !waited {
        var ok := sleepers.ClientSleepUntil(client, activateTime, request, ticket, canRegister);
        if ok {
          return Asleep(activateTime);
        }
      } else {
        AllReady(Tables(), users, names, minDelay, currentTime);
      }
      PerformDisplayRequest(names, reading2, minDelay, waited);
      outcome := Done;
    }

    /** FreeResource for the last buffer of window w: first what the id stands for, then its record. */
    method FreeLast(w: WindowId)
      requires Tied(Tables(), users) && w in buffers && buffers[w].ids != []
      requires buffers[w].ids[|buffers[w].ids| - 1] in multibuffers
      modifies `buffers, `multibuffers, `drawables, `pixmaps, `users
      ensures Tied(Tables(), users) && users.Keys <= old(users).Keys
      ensures Tables() == Dropped(old(Tables()), w)
    {
      hide Tied;
      DroppedKeeps(Tables(), users, w);
      LastStandsFor(Tables(), users, w);
      var last := |buffers[w].ids| - 1;
      var id := buffers[w].ids[last];
      var pixmap;
      match drawables[id] {
        case OnWindow(v) =>
          pixmap := multibuffers[buffers[v].ids[buffers[v].displayed]].pixmap;
        case OnPixmap(h) =>
          pixmap := h;
      }
      users := users - {multibuffers[id].pixmap};
      pixmaps := pixmaps - {pixmap};
      drawables := drawables - {id};
      multibuffers := multibuffers - {id};
      buffers := buffers[w := buffers[w].(ids := buffers[w].ids[..last])];
    }

    /** The buffers of window w and their pixmaps are gone, the other windows are left alone. */
    method DestroyImageBuffers(w: WindowId)
      requires Valid() && w in windows
      modifies `buffers, `multibuffers, `drawables, `pixmaps, `users, `shows
      ensures Valid()
      ensures LeftAlone(old(Tables()), Tables(), w) && OthersKept(old(Tables()), Tables(), w)
      ensures buffers == old(buffers) - {w} && shows == old(shows) - {w}
    {
      ghost var s, before := Tables(), users;
      hide Consistent, Tied, LeftAlone, AllTimed, OthersKept;
      SameAlone(s, w);
      StartsTied(s, users, w);
      if w !in buffers {
        assert buffers == buffers - {w};
        AloneKeepsOthers(s, before, s, w);
        NoShows(buffers, shows, currentTime, w);
        return;
      }
      var i := |buffers[w].ids|;
      while i > 0
        invariant w in s.buffers && 0 <= i <= |s.buffers[w].ids| && shows == old(shows)
        invariant Tied(Tables(), users) && users.Keys <= before.Keys
        invariant buffers == s.buffers[w := s.buffers[w].(ids := s.buffers[w].ids[..i])]
        invariant windows == s.windows && LeftAlone(s, Tables(), w)
      {
        ghost var t := Tables();
        LastRecorded(t, users, w);
        OneFewer(s, t, w, i);
        DroppedAlone(t, users, w);
        FreeLast(w);
        LeftAloneOn(s, t, Tables(), w);
        i := i - 1;
      }
      ghost var t := Tables();
      buffers := buffers - {w};
      WithoutRecord(s, before, t, Tables(), users, w);
      AloneKeepsOthers(s, before, Tables(), w);
      shows := shows - {w};
      DroppedShows(s.buffers, old(shows), currentTime, w);
    }

    /** All the ids have to be free. */
    method CheckIds(ids: seq<XID>) returns (fault: Outcome)
      ensures fault == FirstTaken(multibuffers, ids)
      ensures fault == Done <==> forall x | x in ids :: x !in multibuffers
    {
      NoneTaken(multibuffers, ids);
      var k := 0;
      while k < |ids|
        invariant k <= |ids|
        invariant forall j | 0 <= j < k :: ids[j] !in multibuffers
      {
        if ids[k] in multibuffers {
          FirstTakenIs(multibuffers, ids, k);
          return BadIDChoice(ids[k]);
        }
        k := k + 1;
      }
      fault := Done;
    }

    /** The loop of CreateImageBuffers. */
    method AddBuffers(w: WindowId, ids: seq<XID>, ghost action: Action, blanks: seq<Image>, ghost t: Store, ghost images: seq<Image>)
      requires Tied(Tables(), users) && (forall h | h in users :: h < nextPixmap) && Distinct(ids)
      requires w in windows && |blanks| == |ids| && images == NewFrame(windows[w], action, blanks).pixmaps
      requires Adding(t, Tables(), w, ids, 0, action, images)
      modifies `users, `buffers, `multibuffers, `drawables, `pixmaps, `nextPixmap
      ensures Tied(Tables(), users) && (forall h | h in users :: h < nextPixmap)
      ensures Adding(t, Tables(), w, ids, |ids|, action, images)
    {
      hide Tied, Adding;
      var i := 0;
      while i < |ids|
        invariant i <= |ids| && w in windows
        invariant Tied(Tables(), users) && forall h | h in users :: h < nextPixmap
        invariant Adding(t, Tables(), w, ids, i, action, images)
      {
        OneAdded(t, Tables(), users, w, ids, i, action, images, nextPixmap);
        var pixmap := if i > 0 then FillRect(blanks[i], windows[w].painter) else blanks[i];
        users := users[nextPixmap := ids[i]];
        buffers := buffers[w := buffers[w].(ids := buffers[w].ids + [ids[i]])];
        multibuffers := multibuffers[ids[i] := Multibuffer(w, i, nextPixmap)];
        drawables := drawables[ids[i] := OnPixmap(nextPixmap)];
        pixmaps := pixmaps[nextPixmap := pixmap];
        nextPixmap := nextPixmap + 1;
        i := i + 1;
      }
    }

    /** Buffers for a window that has none. */
    method NewBuffers(w: WindowId, ids: seq<XID>, action: Action, blanks: seq<Image>)
      requires Valid() && w in windows && w !in buffers && ids != [] && Distinct(ids)
      requires forall x | x in ids :: x !in multibuffers
      requires |blanks| == |ids| && forall i | 0 <= i < |ids| :: blanks[i].Keys == windows[w].image.Keys
      modifies `users, `buffers, `multibuffers, `drawables, `pixmaps, `nextPixmap, `shows
      ensures Valid() && shows == old(shows)[w := []]
      ensures Created(old(Tables()), old(Tables()), Tables(), users, w, ids, action, NewFrame(windows[w], action, blanks).pixmaps)
    {
      hide Consistent, Tied, AllTimed, Adding, CanAlias, Alias, Created, LeftAlone;
      ghost var t, before, images := Tables(), users, NewFrame(windows[w], action, blanks).pixmaps;
      StartsTied(t, users, w);
      SameAlone(t, w);
      buffers := buffers[w := Buffers([], -1, action, TimeStamp(0, 0), windows[w].width, windows[w].height)];
      NoneAdded(t, Tables(), users, w, ids, action, images);
      AddBuffers(w, ids, action, blanks, t, images);
      AllAdded(t, t, before, Tables(), users, w, ids, action, images);
      AliasMultibuffer(w, 0);
      CreatedParts(t, Tables(), users, w, ids, action, images);
      StartedShows(t.buffers, shows, currentTime, w, buffers[w]);
      shows := shows[w := []];
    }

    /**
      * CreateImageBuffers: the buffers that w had go, and new ones come, all cleared to the background but the
      * first, which the window stands for. `blanks` is what the new pixmaps hold when they are created.
      */
    method CreateImageBuffers(w: WindowId, ids: seq<XID>, action: Action, blanks: seq<Image>) returns (outcome: Outcome)
      requires Valid() && w in windows && Distinct(ids)
      requires |blanks| == |ids| && forall i | 0 <= i < |ids| :: blanks[i].Keys == windows[w].image.Keys
      modifies this
      ensures Valid() && currentTime == old(currentTime)
      ensures outcome == if ids == [] then BadLength else FirstTaken(old(multibuffers), ids)
      ensures outcome == Done <==> ids != [] && forall x | x in ids :: x !in old(multibuffers)
      ensures outcome != Done ==> Tables() == old(Tables()) && shows == old(shows)
      ensures outcome == Done ==>
                && LeftAlone(old(Tables()), Tables(), w) && OthersKept(old(Tables()), Tables(), w) && windows == old(windows)
                && w in buffers && buffers[w].ids == ids && buffers[w].displayed == 0
                && Abs(buffers[w].lastUpdate) == 0 && shows == old(shows)[w := []]
                && View(Tables(), w) == NewFrame(windows[w], action, blanks)
                && FreshBuffers(View(Tables(), w), blanks)
    {
      hide Consistent, LeftAlone, OthersKept, AllTimed, View, Created, FreshBuffers, NewFrame, FirstTaken;
      NewFrameIs(windows[w], action, blanks);
      if ids == [] {
        return BadLength;
      }
      outcome := CheckIds(ids);
      if outcome != Done {
        return;
      }
      ghost var s, all := Tables(), users;
      DestroyImageBuffers(w);
      ghost var t := Tables();
      StillFree(s, all, t, users, w, ids);
      NewBuffers(w, ids, action, blanks);
      CreatedParts(t, Tables(), users, w, ids, action, NewFrame(windows[w], action, blanks).pixmaps);
      LeftAloneOn(s, t, Tables(), w);
      AloneKeepsOthers(s, all, Tables(), w);
      assert (old(shows) - {w})[w := []] == old(shows)[w := []];
    }

    method NewPixmap(src: Image, blank: Image, clear: bool, forget: bool, c: Clipped, ghost dx: int, ghost dy: int,
                     ghost oldWidth: nat, ghost oldHeight: nat, ghost width: nat, ghost height: nat, painter: Painter)
      returns (pixmap: Image)
      requires src.Keys == Area(oldWidth, oldHeight) && blank.Keys == Area(width, height)
      requires Clips(c.sourcex, c.savewidth, c.destx, dx, oldWidth, width)
      requires Clips(c.sourcey, c.saveheight, c.desty, dy, oldHeight, height)
      ensures pixmap == Resized(src, blank, clear, !forget, dx, dy, painter)
    {
      pixmap := blank;
      if clear {
        pixmap := FillRect(pixmap, painter);
      }
      if !forget {
        ClippedIsMoved(c, dx, dy, oldWidth, oldHeight, width, height, src, pixmap);
        pixmap := CopyArea(src, src.Keys, pixmap, pixmap.Keys, c.sourcex, c.sourcey, c.savewidth, c.saveheight, c.destx, c.desty);
      }
    }

    /** The loop of MultibufferPositionWindow: every buffer gets a new pixmap, and its id follows unless it is displayed. */
    method ResizeBuffers(w: WindowId, oldWidth: nat, oldHeight: nat, blanks: seq<Image>, clear: bool, forget: bool,
                         c: Clipped, ghost dx: int, ghost dy: int, ghost images: seq<Image>)
      requires Tied(Tables(), users) && (forall h | h in users :: h < nextPixmap)
      requires w in windows && w in buffers && |blanks| == |images| == |buffers[w].ids|
      requires Clips(c.sourcex, c.savewidth, c.destx, dx, oldWidth, windows[w].width)
      requires Clips(c.sourcey, c.saveheight, c.desty, dy, oldHeight, windows[w].height)
      requires forall i | 0 <= i < |blanks| ::
                 && blanks[i].Keys == Area(windows[w].width, windows[w].height)
                 && ImageOf(Tables(), buffers[w].ids[i]).Keys == Area(oldWidth, oldHeight)
                 && images[i] == Resized(ImageOf(Tables(), buffers[w].ids[i]), blanks[i], clear, !forget, dx, dy, windows[w].painter)
      modifies `users, `multibuffers, `drawables, `pixmaps, `nextPixmap
      ensures Tied(Tables(), users) && (forall h | h in users :: h < nextPixmap)
      ensures Resizing(old(Tables()), Tables(), w, |images|, images)
    {
      hide Tied, Resizing, Clips, Area, CopyArea, Moved, FillRect;
      ghost var s := Tables();
      var b := buffers[w];
      NoneResized(s, w, images);
      var i := 0;
      while i < |b.ids|
        invariant i <= |b.ids|
        invariant Tied(Tables(), users) && forall h | h in users :: h < nextPixmap
        invariant Resizing(s, Tables(), w, i, images)
      {
        var id := b.ids[i];
        OneResized(s, Tables(), users, w, i, images, nextPixmap);
        var before := multibuffers[id].pixmap;
        var pixmap := NewPixmap(pixmaps[before], blanks[i], clear, forget, c, dx, dy, oldWidth, oldHeight,
                                windows[w].width, windows[w].height, windows[w].painter);
        users := (users - {before})[nextPixmap := id];
        pixmaps := (pixmaps - {before})[nextPixmap := pixmap];
        multibuffers := multibuffers[id := multibuffers[id].(pixmap := nextPixmap)];
        if i != b.displayed {
          drawables := drawables[id := OnPixmap(nextPixmap)];
        }
        nextPixmap := nextPixmap + 1;
        i := i + 1;
      }
    }

    /** The part of MultibufferPositionWindow for a window whose size has changed. */
    method ResizeWindow(w: WindowId, win: Window, blanks: seq<Image>, forget: bool, destx: int, desty: int)
      requires Valid() && w in windows && w in buffers && WindowOk(win)
      requires |blanks| == |buffers[w].ids| && forall i | 0 <= i < |blanks| :: blanks[i].Keys == win.image.Keys
      modifies `windows, `buffers, `users, `multibuffers, `drawables, `pixmaps, `nextPixmap
      ensures Valid() && LeftAlone(old(Tables()), Tables(), w) && OthersKept(old(Tables()), Tables(), w)
      ensures windows == old(windows)[w := win]
      ensures buffers == old(buffers)[w := old(buffers)[w].(width := win.width, height := win.height)]
      ensures Viewed(old(Tables()), w)
      ensures View(Tables(), w) == ResizedFrame(old(View(Tables(), w)), win, blanks, forget, destx, desty)
    {
      hide Consistent, Tied, LeftAlone, OthersKept, AllTimed, WindowOk, Resizing, Clips, ResizedFrame, View;
      ghost var s, before := Tables(), users;
      var b := buffers[w];
      ReadyToResize(s, users, w, win, blanks, forget, destx, desty);
      ReshapedTimes(s.buffers, shows, currentTime, w, b.(width := win.width, height := win.height));
      ReshapedKeeps(s, users, w, win);
      ghost var images := ResizedFrame(View(s, w), win, blanks, forget, destx, desty).pixmaps;
      windows := windows[w := win];
      var clear := b.width < win.width || b.height < win.height || forget;
      var c := ClipCopy(b.width, b.height, win.width, win.height, destx, desty);
      buffers := buffers[w := b.(width := win.width, height := win.height)];
      ResizeBuffers(w, b.width, b.height, blanks, clear, forget, c, destx, desty, images);
      AllResized(s, before, Tables(), users, w, win, blanks, images, forget, destx, desty);
      AloneKeepsOthers(s, before, Tables(), w);
    }

    /**
      * MultibufferPositionWindow. Window w has come to look like `win`, with its corner at `corner`; `recorded` is the
      * corner that was recorded at its last resize.
      */
    method PositionWindow(w: WindowId, win: Window, blanks: seq<Image>, gravity: Gravity, recorded: Point, corner: Point)
      requires Valid() && w in windows && WindowOk(win)
      requires w in buffers ==> |blanks| == |buffers[w].ids| && forall i | 0 <= i < |blanks| :: blanks[i].Keys == win.image.Keys
      modifies this
      ensures Valid() && LeftAlone(old(Tables()), Tables(), w) && OthersKept(old(Tables()), Tables(), w)
      ensures shows == old(shows) && currentTime == old(currentTime)
      ensures buffers.Keys == old(buffers).Keys && windows[w] == win
      ensures w in old(buffers) ==>
                && Viewed(old(Tables()), w)
                && buffers[w] == old(buffers)[w].(width := win.width, height := win.height)
                && View(Tables(), w) == if old(buffers)[w].width == win.width && old(buffers)[w].height == win.height
                                        then old(View(Tables(), w)).(window := win.image, visible := win.visible, painter := win.painter)
                                        else
                                          var dw, dh := win.width - old(buffers)[w].width, win.height - old(buffers)[w].height;
                                          var dest := Displacement(recorded, corner, dw, dh, gravity);
                                          ResizedFrame(old(View(Tables(), w)), win, blanks, gravity == Forget, dest.x, dest.y)
      // the contents of the buffers are found where the gravity wants them
      ensures w in old(buffers) && (old(buffers)[w].width != win.width || old(buffers)[w].height != win.height) ==>
                BuffersMoved(old(View(Tables(), w)), View(Tables(), w), blanks, gravity, recorded, corner)
    {
      hide Consistent, LeftAlone, OthersKept, AllTimed, WindowOk, ResizedFrame, Viewed, View, BuffersMoved, Displacement;
      ghost var s, before := Tables(), users;
      if w in buffers && (buffers[w].width != win.width || buffers[w].height != win.height) {
        var dw, dh := win.width - buffers[w].width, win.height - buffers[w].height;
        var dest := Displacement(recorded, corner, dw, dh, gravity);
        ViewedSize(s, before, w);
        FrameMoved(View(s, w), win, blanks, gravity, recorded, corner);
        ResizeWindow(w, win, blanks, gravity == Forget, dest.x, dest.y);
      } else {
        windows := windows[w := win];
        SameSize(s, before, Tables(), w, win);
        AloneKeepsOthers(s, before, Tables(), w);
      }
    }
  }
}
