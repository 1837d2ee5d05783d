/** The images of one multibuffered window: what displaying a buffer and resizing do to them. */
module BufferImages {
  import opened Regions

  type Pixel = nat
  type Image = map<Point, Pixel>

  datatype Action = Undefined | Background | Untouched | Copied

  /** Background painter, or None when the background paints nothing. */
  datatype Painter = None | Paint(color: Point -> Pixel)

  /**
    * A window and its buffers. `visible` is the part of the window that nothing obscures. The pixmap of
    * the displayed buffer is kept but not used: the window stands for that buffer.
    */
  datatype Frame = Frame(window: Image, visible: Region, painter: Painter, pixmaps: seq<Image>, displayed: nat,
                         action: Action, width: nat, height: nat)

  function Area(width: nat, height: nat): Region {
    Points(Box(0, 0, width, height))
  }

  ghost predicate Proper(f: Frame) {
    && f.displayed < |f.pixmaps|
    && f.window.Keys == Area(f.width, f.height) && f.visible <= f.window.Keys
    && forall i | 0 <= i < |f.pixmaps| :: f.pixmaps[i].Keys == f.window.Keys
  }

  /** What a client sees when it names buffer 0, 1, 2, ... */
  ghost function Logical(f: Frame): seq<Image>
    requires f.displayed < |f.pixmaps|
  {
    f.pixmaps[f.displayed := f.window]
  }

  ghost predicate Unobscured(f: Frame) {
    f.visible == f.window.Keys
  }

  /**
    * CopyArea: a w by h rectangle goes from (sx, sy) to (dx, dy), as far as the source can be read
    * (`from`) and the destination written (`onto`).
    */
  function CopyArea(src: Image, from: Region, dst: Image, onto: Region,
                    sx: int, sy: int, w: int, h: int, dx: int, dy: int): Image
  {
    map p: Point | p in dst ::
      var q := Point(p.x - dx + sx, p.y - dy + sy);
      if dx <= p.x < dx + w && dy <= p.y < dy + h && p in onto && q in from && q in src then src[q] else dst[p]
  }

  /** PolyFillRect over the whole image with the background painter. */
  function FillRect(dst: Image, painter: Painter): Image {
    match painter
    case None => dst
    case Paint(color) => map p: Point | p in dst :: color(p)
  }

  /** The update action, applied to the pixmap of the buffer displayed so far when buffer n comes up. */
  function Updated(f: Frame, n: nat): (r: Image)
    requires f.displayed < |f.pixmaps| && n < |f.pixmaps|
    ensures r.Keys == f.pixmaps[f.displayed].Keys
  {
    var prev := f.pixmaps[f.displayed];
    match f.action
    case Undefined => prev
    case Background => FillRect(prev, f.painter)
    case Untouched => CopyArea(f.window, f.visible, prev, prev.Keys, 0, 0, f.width, f.height, 0, 0)
    case Copied => CopyArea(f.pixmaps[n], f.pixmaps[n].Keys, prev, prev.Keys, 0, 0, f.width, f.height, 0, 0)
  }

  /** The loop body of PerformDisplayRequest. */
  function Displayed(f: Frame, n: nat): (r: Frame)
    requires f.displayed < |f.pixmaps| && n < |f.pixmaps|
    ensures |r.pixmaps| == |f.pixmaps|
    ensures Proper(f) ==> Proper(r)
  {
    var pixmaps := f.pixmaps[f.displayed := Updated(f, n)];
    var window := CopyArea(pixmaps[n], pixmaps[n].Keys, f.window, f.visible, 0, 0, f.width, f.height, 0, 0);
    f.(pixmaps := pixmaps, window := window, displayed := n)
  }

  lemma CopyAll(src: Image, dst: Image, w: nat, h: nat)
    requires src.Keys == Area(w, h) && dst.Keys == Area(w, h)
    ensures CopyArea(src, src.Keys, dst, dst.Keys, 0, 0, w, h, 0, 0) == src
  {
    var r := CopyArea(src, src.Keys, dst, dst.Keys, 0, 0, w, h, 0, 0);
    forall p | p in r
      ensures r[p] == src[p]
    {
      assert Point(p.x - 0 + 0, p.y - 0 + 0) == p;
    }
  }

  /**
    * Displaying another buffer of an unobscured window changes at most the image of the buffer that was
    * displayed before, and that one as the update action says: not at all under Untouched, to the image
    * that comes up under Copied. Under Background it becomes the background, laid over what its pixmap
    * held; under Undefined it becomes what its pixmap held.
    */
  lemma DisplayKeepsImages(f: Frame, n: nat)
    requires Proper(f) && Unobscured(f) && n < |f.pixmaps| && n != f.displayed
    ensures Logical(Displayed(f, n)) == match f.action
                                        case Untouched => Logical(f)
                                        case Copied => Logical(f)[f.displayed := Logical(f)[n]]
                                        case Background => Logical(f)[f.displayed := FillRect(f.pixmaps[f.displayed], f.painter)]
                                        case Undefined => Logical(f)[f.displayed := f.pixmaps[f.displayed]]
    ensures f.action.Background? && f.painter.Paint? ==>
              forall p | p in f.window :: p in Logical(Displayed(f, n))[f.displayed]
                                          && Logical(Displayed(f, n))[f.displayed][p] == f.painter.color(p)
    ensures f.action.Background? && f.painter.None? ==> Logical(Displayed(f, n))[f.displayed] == f.pixmaps[f.displayed]
  {
    CopyAll(f.pixmaps[n], f.window, f.width, f.height);
    CopyAll(f.window, f.pixmaps[f.displayed], f.width, f.height);
    CopyAll(f.pixmaps[n], f.pixmaps[f.displayed], f.width, f.height);
  }

  /** On an obscured window the same holds of the points that can be seen; the others keep their old colors. */
  lemma DisplayKeepsVisible(f: Frame, n: nat, p: Point)
    requires Proper(f) && n < |f.pixmaps| && n != f.displayed && p in f.window
    ensures Logical(Displayed(f, n))[n][p] == if p in f.visible then Logical(f)[n][p] else f.window[p]
    ensures f.action.Untouched? && p in f.visible ==>
              Logical(Displayed(f, n))[f.displayed][p] == Logical(f)[f.displayed][p]
    ensures f.action.Copied? ==> Logical(Displayed(f, n))[f.displayed][p] == Logical(f)[n][p]
    ensures forall i | 0 <= i < |f.pixmaps| && i != n && i != f.displayed ::
              Logical(Displayed(f, n))[i] == Logical(f)[i]
  {
    assert Point(p.x - 0 + 0, p.y - 0 + 0) == p;
  }

  /**
    * Displaying the buffer that is displayed already is harmless only if the action is Untouched: otherwise
    * the window is overwritten with the unused pixmap.
    */
  lemma RedisplayIff(f: Frame)
    requires Proper(f) && Unobscured(f)
    ensures Logical(Displayed(f, f.displayed)) == Logical(f) <==>
            match f.action
            case Untouched => true
            case Background => f.window == FillRect(f.pixmaps[f.displayed], f.painter)
            case _ => f.window == f.pixmaps[f.displayed]
  {
    var r := Displayed(f, f.displayed);
    var prev := f.pixmaps[f.displayed];
    CopyAll(r.pixmaps[f.displayed], f.window, f.width, f.height);
    CopyAll(f.window, prev, f.width, f.height);
    CopyAll(prev, prev, f.width, f.height);
    assert Logical(r)[f.displayed] == r.window;
    assert Logical(f)[f.displayed] == f.window;
    if r.window == f.window {
      assert Logical(r) == Logical(f);
    }
  }

  /** A one-pixel window that is displayed again loses its color to the unused pixmap. */
  lemma RedisplayLosesImage(p: Point, shown: Pixel, unused: Pixel, action: Action)
    requires p == Point(0, 0) && shown != unused && (action.Undefined? || action.Copied?)
    ensures var f := Frame(map[p := shown], {p}, None, [map[p := unused]], 0, action, 1, 1);
            && Proper(f) && Unobscured(f)
            && Logical(f) == [map[p := shown]] && Logical(Displayed(f, 0)) == [map[p := unused]]
  {
    var f := Frame(map[p := shown], {p}, None, [map[p := unused]], 0, action, 1, 1);
    var r := Displayed(f, 0);
    assert Area(1, 1) == {p};
    CopyAll(f.pixmaps[0], f.pixmaps[0], 1, 1);
    assert Updated(f, 0) == map[p := unused];
    assert r.pixmaps == [map[p := unused]];
    CopyAll(r.pixmaps[0], f.window, 1, 1);
  }

  /** An image moved by (dx, dy), laid over another. */
  ghost function Moved(src: Image, dx: int, dy: int, onto: Image): Image {
    map p: Point | p in onto :: if Point(p.x - dx, p.y - dy) in src then src[Point(p.x - dx, p.y - dy)] else onto[p]
  }

  datatype Clipped = Clipped(sourcex: int, sourcey: int, savewidth: int, saveheight: int, destx: int, desty: int)

  /** Along one axis: `save` pixels from `source` on go to `dest` on, which is where a shift by d lands in the new size. */
  predicate Clips(source: int, save: int, dest: int, d: int, oldSize: nat, newSize: nat) {
    && dest - source == d
    && dest == (if d < 0 then 0 else d)
    && dest + save == (if d + oldSize > newSize then newSize else d + oldSize)
  }

  lemma OneAxis(source: int, save: int, dest: int, d: int, oldSize: nat, newSize: nat, x: int)
    requires Clips(source, save, dest, d, oldSize, newSize) && 0 <= x < newSize
    ensures dest <= x < dest + save <==> 0 <= x - d < oldSize
    ensures x - dest + source == x - d
  {}

  lemma ClippedPoint(c: Clipped, dx: int, dy: int, oldWidth: nat, oldHeight: nat, width: nat, height: nat, p: Point)
    requires p in Area(width, height)
    requires Clips(c.sourcex, c.savewidth, c.destx, dx, oldWidth, width)
    requires Clips(c.sourcey, c.saveheight, c.desty, dy, oldHeight, height)
    ensures Point(p.x - dx, p.y - dy) == Point(p.x - c.destx + c.sourcex, p.y - c.desty + c.sourcey)
    ensures Point(p.x - dx, p.y - dy) in Area(oldWidth, oldHeight) <==>
            c.destx <= p.x < c.destx + c.savewidth && c.desty <= p.y < c.desty + c.saveheight
  {
    OneAxis(c.sourcex, c.savewidth, c.destx, dx, oldWidth, width, p.x);
    OneAxis(c.sourcey, c.saveheight, c.desty, dy, oldHeight, height, p.y);
  }

  /** Copying the clipped rectangle moves the whole image, as far as it fits. */
  lemma ClippedIsMoved(c: Clipped, dx: int, dy: int, oldWidth: nat, oldHeight: nat, width: nat, height: nat,
                       src: Image, onto: Image)
    requires src.Keys == Area(oldWidth, oldHeight) && onto.Keys == Area(width, height)
    requires Clips(c.sourcex, c.savewidth, c.destx, dx, oldWidth, width)
    requires Clips(c.sourcey, c.saveheight, c.desty, dy, oldHeight, height)
    ensures CopyArea(src, src.Keys, onto, onto.Keys, c.sourcex, c.sourcey, c.savewidth, c.saveheight, c.destx, c.desty)
            == Moved(src, dx, dy, onto)
  {
    hide Area, Clips;
    var copied := CopyArea(src, src.Keys, onto, onto.Keys, c.sourcex, c.sourcey, c.savewidth, c.saveheight, c.destx, c.desty);
    var moved := Moved(src, dx, dy, onto);
    forall p | p in onto
      ensures copied[p] == moved[p]
    {
      ClippedPoint(c, dx, dy, oldWidth, oldHeight, width, height, p);
    }
  }

  /** Clip the copied rectangle to the old and the new size. */
  method ClipCopy(oldWidth: nat, oldHeight: nat, width: nat, height: nat, dx: int, dy: int) returns (c: Clipped)
    ensures Clips(c.sourcex, c.savewidth, c.destx, dx, oldWidth, width)
    ensures Clips(c.sourcey, c.saveheight, c.desty, dy, oldHeight, height)
  {
    var destx, desty := dx, dy;
    var sourcex, sourcey := 0, 0;
    var savewidth: int, saveheight: int := oldWidth, oldHeight;
    if destx < 0 {
      savewidth := savewidth + destx;
      sourcex := sourcex - destx;
      destx := 0;
    }
    if destx + savewidth > width {
      savewidth := width - destx;
    }
    if desty < 0 {
      saveheight := saveheight + desty;
      sourcey := sourcey - desty;
      desty := 0;
    }
    if desty + saveheight > height {
      saveheight := height - desty;
    }
    c := Clipped(sourcex, sourcey, savewidth, saveheight, destx, desty);
  }

  // ---------- Bit gravity ----------

  datatype Gravity = Forget | NorthWest | North | NorthEast | West | Center | East | SouthWest | South | SouthEast | Static

  /** Division truncates toward zero. */
  function Half(d: int): int {
    if d >= 0 then d / 2 else -(-d / 2)
  }

  /** GravityTranslate: where the old contents go when a window grows by (dw, dh); `was` is where they were on the screen. */
  function GravityTranslate(at: Point, was: Point, dw: int, dh: int, gravity: Gravity): Point {
    match gravity
    case North => Point(at.x + Half(dw), at.y)
    case NorthEast => Point(at.x + dw, at.y)
    case West => Point(at.x, at.y + Half(dh))
    case Center => Point(at.x + Half(dw), at.y + Half(dh))
    case East => Point(at.x + dw, at.y + Half(dh))
    case SouthWest => Point(at.x, at.y + dh)
    case South => Point(at.x + Half(dw), at.y + dh)
    case SouthEast => Point(at.x + dw, at.y + dh)
    case Static => was
    case _ => at
  }

  /** The displacement that MultibufferPositionWindow asks for: it takes the vertical one from `corner.x`. */
  function Displacement(recorded: Point, corner: Point, dw: int, dh: int, gravity: Gravity): Point {
    var dx, dy := corner.x - recorded.x, corner.x - recorded.y;
    GravityTranslate(Point(0, 0), Point(-dx, -dy), dw, dh, gravity)
  }

  /**
    * When a window moves from `before` to `corner` while it is resized, its contents go where its gravity wants them
    * if and only if that is not Static, or the recorded corner makes up for the mistake.
    */
  lemma DisplacementIff(recorded: Point, before: Point, corner: Point, dw: int, dh: int, gravity: Gravity)
    ensures Displacement(recorded, corner, dw, dh, gravity)
            == GravityTranslate(Point(0, 0), Point(before.x - corner.x, before.y - corner.y), dw, dh, gravity) <==>
            gravity != Static || (recorded.x == before.x && recorded.y - corner.x == before.y - corner.y)
  {
    assert Displacement(recorded, corner, dw, dh, Static) == Point(recorded.x - corner.x, recorded.y - corner.x);
  }

  /** Contents that are to stay where they are on the screen go up with a window that moves to the right. */
  lemma StaticContentsSlip(dw: int, dh: int)
    ensures var before, corner := Point(0, 0), Point(4, 0);
            && Displacement(before, corner, dw, dh, Static) == Point(-4, -4)
            && GravityTranslate(Point(0, 0), Point(before.x - corner.x, before.y - corner.y), dw, dh, Static) == Point(-4, 0)
  {}

  /** One buffer of a resized window: a new pixmap, cleared if need be, with the old image moved onto it. */
  ghost function Resized(src: Image, blank: Image, clear: bool, keep: bool, dx: int, dy: int, painter: Painter): (r: Image)
    ensures r.Keys == blank.Keys
  {
    var cleared := if clear then FillRect(blank, painter) else blank;
    if keep then Moved(src, dx, dy, cleared) else cleared
  }

  /** Where the contents go along one axis: with its near edge, with its far edge, or in the middle. */
  datatype Side = Near | Middle | Far

  ghost function Horizontal(gravity: Gravity): Side {
    match gravity
    case NorthEast | East | SouthEast => Far
    case North | Center | South => Middle
    case _ => Near
  }

  ghost function Vertical(gravity: Gravity): Side {
    match gravity
    case SouthWest | South | SouthEast => Far
    case West | Center | East => Middle
    case _ => Near
  }

  /**
    * A pixel at place `x` of an axis that was `before` long lands on place `x'` of the new one. It is as far from the
    * near edge, or from the far edge, as it was; in the middle, the margins that come or go on the two sides differ by
    * at most 1, and the one at the near edge is not the larger.
    */
  ghost predicate Lands(side: Side, before: nat, after: nat, x: int, x': int) {
    match side
    case Near => x' == x
    case Far => after - 1 - x' == before - 1 - x
    case Middle =>
      var near, far := x' - x, (after - 1 - x') - (before - 1 - x);
      -1 <= near - far <= 1 && if after >= before then near <= far else far <= near
  }

  /** A pixel of the old buffer lands on one of the new; under Static gravity as far away as the move of the window takes it. */
  ghost predicate PixelLands(gravity: Gravity, recorded: Point, corner: Point, oldWidth: nat, oldHeight: nat, width: nat, height: nat,
                             p: Point, q: Point)
  {
    if gravity == Static then q.x - p.x == recorded.x - corner.x && q.y - p.y == recorded.y - corner.x
    else Lands(Horizontal(gravity), oldWidth, width, p.x, q.x) && Lands(Vertical(gravity), oldHeight, height, p.y, q.y)
  }

  /**
    * A buffer before and after a resize: each old pixel is found where it lands, unless the gravity is Forget. Where none
    * lands there is the background if the window has grown in some direction, or the gravity is Forget, else what the
    * new pixmap held.
    */
  ghost predicate BufferMoved(before: Image, after: Image, blank: Image, painter: Painter, gravity: Gravity, recorded: Point, corner: Point,
                              oldWidth: nat, oldHeight: nat, width: nat, height: nat)
    requires blank.Keys == after.Keys
  {
    && (forall q :: q in after <==> 0 <= q.x < width && 0 <= q.y < height)
    && (gravity != Forget ==>
          forall p, q | p in before && q in after && PixelLands(gravity, recorded, corner, oldWidth, oldHeight, width, height, p, q) ::
            after[q] == before[p])
    && forall q | q in after
                  && (gravity == Forget ||
                      forall p | p in before :: !PixelLands(gravity, recorded, corner, oldWidth, oldHeight, width, height, p, q)) ::
         after[q] == if painter.Paint? && (width > oldWidth || height > oldHeight || gravity == Forget) then painter.color(q) else blank[q]
  }

  lemma LandsIff(gravity: Gravity, recorded: Point, corner: Point, oldWidth: nat, oldHeight: nat, width: nat, height: nat, p: Point, q: Point)
    requires gravity != Forget
    ensures var d := Displacement(recorded, corner, width - oldWidth, height - oldHeight, gravity);
            PixelLands(gravity, recorded, corner, oldWidth, oldHeight, width, height, p, q) <==> p == Point(q.x - d.x, q.y - d.y)
  {}

  lemma LandsFrom(gravity: Gravity, recorded: Point, corner: Point, oldWidth: nat, oldHeight: nat, width: nat, height: nat, q: Point)
    requires gravity != Forget
    ensures var d := Displacement(recorded, corner, width - oldWidth, height - oldHeight, gravity);
            forall p :: PixelLands(gravity, recorded, corner, oldWidth, oldHeight, width, height, p, q) <==> p == Point(q.x - d.x, q.y - d.y)
  {
    hide PixelLands, Displacement;
    var d := Displacement(recorded, corner, width - oldWidth, height - oldHeight, gravity);
    forall p
      ensures PixelLands(gravity, recorded, corner, oldWidth, oldHeight, width, height, p, q) <==> p == Point(q.x - d.x, q.y - d.y)
    {
      LandsIff(gravity, recorded, corner, oldWidth, oldHeight, width, height, p, q);
    }
  }

  lemma ResizedAt(src: Image, blank: Image, clear: bool, keep: bool, dx: int, dy: int, painter: Painter, q: Point)
    requires q in blank
    ensures var r, p := Resized(src, blank, clear, keep, dx, dy, painter), Point(q.x - dx, q.y - dy);
            r[q] == if keep && p in src then src[p] else if clear && painter.Paint? then painter.color(q) else blank[q]
  {}

  lemma ResizedPoint(src: Image, blank: Image, painter: Painter, gravity: Gravity, recorded: Point, corner: Point,
                     oldWidth: nat, oldHeight: nat, width: nat, height: nat, clear: bool, q: Point)
    requires q in blank && clear == (oldWidth < width || oldHeight < height || gravity == Forget)
    ensures var d := Displacement(recorded, corner, width - oldWidth, height - oldHeight, gravity);
            var color := Resized(src, blank, clear, gravity != Forget, d.x, d.y, painter)[q];
            && (gravity != Forget ==>
                  forall p | p in src && PixelLands(gravity, recorded, corner, oldWidth, oldHeight, width, height, p, q) :: color == src[p])
            && (gravity == Forget || (forall p | p in src :: !PixelLands(gravity, recorded, corner, oldWidth, oldHeight, width, height, p, q))
                ==> color == if painter.Paint? && (width > oldWidth || height > oldHeight || gravity == Forget) then painter.color(q) else blank[q])
  {
    var d := Displacement(recorded, corner, width - oldWidth, height - oldHeight, gravity);
    hide PixelLands, Displacement, Resized;
    ResizedAt(src, blank, clear, gravity != Forget, d.x, d.y, painter, q);
    if gravity != Forget {
      LandsFrom(gravity, recorded, corner, oldWidth, oldHeight, width, height, q);
    }
  }

  /** The gravity of a window decides where the contents of a resized buffer are found. */
  lemma ResizedIs(src: Image, blank: Image, painter: Painter, gravity: Gravity, recorded: Point, corner: Point,
                  oldWidth: nat, oldHeight: nat, width: nat, height: nat, clear: bool)
    requires blank.Keys == Area(width, height)
    requires clear == (oldWidth < width || oldHeight < height || gravity == Forget)
    ensures var d := Displacement(recorded, corner, width - oldWidth, height - oldHeight, gravity);
            BufferMoved(src, Resized(src, blank, clear, gravity != Forget, d.x, d.y, painter), blank, painter, gravity, recorded, corner,
                        oldWidth, oldHeight, width, height)
  {
    hide PixelLands, Displacement, Resized;
    assert forall q :: q in blank <==> 0 <= q.x < width && 0 <= q.y < height;
    hide Area;
    forall q | q in blank {
      ResizedPoint(src, blank, painter, gravity, recorded, corner, oldWidth, oldHeight, width, height, clear, q);
    }
  }

  /** That of all buffers of a window. */
  ghost predicate BuffersMoved(f: Frame, g: Frame, blanks: seq<Image>, gravity: Gravity, recorded: Point, corner: Point) {
    && |g.pixmaps| == |f.pixmaps| == |blanks|
    && forall i | 0 <= i < |blanks| ::
         && g.pixmaps[i].Keys == blanks[i].Keys
         && BufferMoved(f.pixmaps[i], g.pixmaps[i], blanks[i], g.painter, gravity, recorded, corner, f.width, f.height, g.width, g.height)
  }

  /** New buffers: the first is displayed, and the others have the background. */
  ghost predicate FreshBuffers(f: Frame, blanks: seq<Image>) {
    && |f.pixmaps| == |blanks| && f.displayed == 0
    && forall i | 0 <= i < |blanks| ::
         && f.pixmaps[i].Keys == blanks[i].Keys
         && forall p | p in blanks[i] ::
              f.pixmaps[i][p] == if i > 0 && f.painter.Paint? then f.painter.color(p) else blanks[i][p]
  }
}
