/**
 * XineramaGetImageData: one image of the logical screen is assembled from the
 * images of the physical screens.
 */
module Xinerama {
  import opened ByteBits
  import opened Blit
  import opened Regions

  /** Pixel bits of the logical screen: bit `k` of the pixel at (x, y). */
  type Framebuffer = (int, int, nat) -> bool

  /**
   * One physical screen: its rectangle on the logical screen, the origin of the
   * drawable on it, and its GetImage hook, which takes drawable coordinates.
   */
  datatype Screen = Screen(x: int, y: int, width: nat, height: nat, drawX: int, drawY: int,
                           getImage: (int, int, nat, nat) -> seq<Byte>)

  /** XineramaScreenRegions, as XineramaInitData builds them. */
  function ScreenRegion(s: Screen): Region {
    Points(Box(s.x, s.y, s.x + s.width, s.y + s.height))
  }

  /** Bytes of a scanline of `w` pixels, padded to 32 bits. */
  function PixmapBytePad(w: nat, bpp: nat): (pitch: nat)
    ensures w * bpp <= 8 * pitch < w * bpp + 32 && pitch % 4 == 0
  {
    (w * bpp + 31) / 32 * 4
  }

  /** `img` holds the `w` by `h` pixels of `fb` from (x, y) on; bits past a row's pixels are arbitrary. */
  ghost predicate ImageOf(img: seq<Byte>, pitch: nat, fb: Framebuffer, x: int, y: int, bpp: nat, w: nat, h: nat)
    requires bpp > 0
  {
    forall r: nat, b: nat | r < h && b < w * bpp :: RowBit(img, pitch, r, b) == fb(x + b / bpp, y + r, b % bpp)
  }

  /** The screen shows its part of the logical framebuffer. */
  ghost predicate Agrees(s: Screen, fb: Framebuffer, bpp: nat)
    requires bpp > 0
  {
    forall x: int, y: int, w: nat, h: nat
      | Points(Box(x + s.drawX + s.x, y + s.drawY + s.y, x + s.drawX + s.x + w, y + s.drawY + s.y + h)) <= ScreenRegion(s) ::
        && |s.getImage(x, y, w, h)| == RowStart(PixmapBytePad(w, bpp), h)
        && ImageOf(s.getImage(x, y, w, h), PixmapBytePad(w, bpp), fb, x + s.drawX + s.x, y + s.drawY + s.y, bpp, w, h)
  }

  datatype Overlap = RgnOut | RgnIn | RgnPart

  function RectInRegion(region: Region, box: Box): Overlap {
    if Points(box) <= region then RgnIn else if Points(box) !! region then RgnOut else RgnPart
  }

  /** Points of the logical screen that some screen shows. */
  function Covered(screens: seq<Screen>): Region {
    if screens == [] then {} else Covered(screens[..|screens| - 1]) + ScreenRegion(screens[|screens| - 1])
  }

  /** The logical point whose pixel holds bit `b` of row `r` of an image that starts at `org`. */
  function PixelAt(org: Point, bpp: nat, r: nat, b: nat): Point
    requires bpp > 0
  {
    Point(org.x + b / bpp, org.y + r)
  }

  /** The image shows `fb` exactly on the points of `done` and is `before` elsewhere. */
  ghost predicate Assembled(before: seq<Byte>, image: seq<Byte>, pitch: nat, bpp: nat, org: Point,
                            fb: Framebuffer, done: Region)
    requires bpp > 0
  {
    && |image| == |before|
    && forall r: nat, b: nat | b < 8 * pitch ::
         RowBit(image, pitch, r, b) ==
         var p := PixelAt(org, bpp, r, b);
         if p in done then fb(p.x, p.y, b % bpp) else RowBit(before, pitch, r, b)
  }

  lemma MulMono(a: nat, c: nat, m: nat)
    ensures a <= c ==> a * m <= c * m
  {}

  lemma DivModUnique(n: nat, d: nat, q: nat, m: nat)
    requires d > 0 && m < d && n == q * d + m
    ensures n / d == q && n % d == m
  {
    var k := n / d;
    assert n == k * d + n % d;
    MulMono(q + 1, k, d);
    MulMono(k + 1, q, d);
    assert (q + 1) * d == q * d + d && (k + 1) * d == k * d + d;
  }

  lemma PixelColumn(x: nat, w: nat, bpp: nat, b: nat)
    requires bpp > 0
    ensures (x + w) * bpp == x * bpp + w * bpp
    ensures x * bpp <= b < x * bpp + w * bpp <==> x <= b / bpp < x + w
    ensures x * bpp <= b ==> (b - x * bpp) / bpp == b / bpp - x && (b - x * bpp) % bpp == b % bpp
  {
    var q, m := b / bpp, b % bpp;
    assert b == q * bpp + m;
    MulMono(x, q, bpp);
    MulMono(x + w, q, bpp);
    MulMono(q + 1, x, bpp);
    MulMono(q + 1, x + w, bpp);
    assert (q + 1) * bpp == q * bpp + bpp;
    if x * bpp <= b {
      assert x <= q;
      DivModUnique(b - x * bpp, bpp, q - x, m);
    }
  }

  /** Writing the image of a box turns its points into done points. */
  lemma AssembleBox(before: seq<Byte>, mid: seq<Byte>, after: seq<Byte>, pitch: nat, bpp: nat, org: Point,
                    fb: Framebuffer, done: Region, p: Box, img: seq<Byte>, srcPitch: nat)
    requires bpp > 0 && p.x1 < p.x2 && p.y1 < p.y2 && org.x <= p.x1 && org.y <= p.y1
    requires Assembled(before, mid, pitch, bpp, org, fb, done)
    requires ImageOf(img, srcPitch, fb, p.x1, p.y1, bpp, p.x2 - p.x1, p.y2 - p.y1)
    requires BoxWritten(mid, after, pitch, (p.x1 - org.x) * bpp, p.y1 - org.y, img, srcPitch,
                        (p.x2 - p.x1) * bpp, p.y2 - p.y1)
    ensures Assembled(before, after, pitch, bpp, org, fb, done + Points(p))
  {
    hide RowBit;
    var x, y, w, h := p.x1 - org.x, p.y1 - org.y, p.x2 - p.x1, p.y2 - p.y1;
    forall r: nat, b: nat | b < 8 * pitch
      ensures RowBit(after, pitch, r, b) ==
              var q := PixelAt(org, bpp, r, b);
              if q in done + Points(p) then fb(q.x, q.y, b % bpp) else RowBit(before, pitch, r, b)
    {
      PixelColumn(x, w, bpp, b);
      if y <= r < y + h && x * bpp <= b < x * bpp + w * bpp {
        assert RowBit(after, pitch, r, b) == RowBit(img, srcPitch, r - y, b - x * bpp);
      } else {
        assert RowBit(after, pitch, r, b) == RowBit(mid, pitch, r, b);
      }
    }
  }

  /** The driver hook at work: GetImage fills the front of `mem`. */
  method GetImage(s: Screen, x: int, y: int, w: nat, h: nat, mem: array<Byte>)
    requires |s.getImage(x, y, w, h)| <= mem.Length
    modifies mem
    ensures mem[..] == s.getImage(x, y, w, h) + old(mem[..])[|s.getImage(x, y, w, h)|..]
  {
    var img := s.getImage(x, y, w, h);
    forall k | 0 <= k < |img| {
      mem[k] := img[k];
    }
  }

  lemma PrefixBits(mem: seq<Byte>, img: seq<Byte>, rest: seq<Byte>, pitch: nat, h: nat, r: nat, b: nat)
    requires mem == img + rest && |img| == RowStart(pitch, h) && b < 8 * pitch
    ensures RowBit(mem, pitch, r, b) ==
            if r < h then RowBit(img, pitch, r, b)
            else FlatBit(rest, 8 * RowStart(pitch, r) + b - 8 * |img|)
  {
    hide Bit, RowStart;
    if r < h {
      RowsInOrder(pitch, r, h);
    } else if h < r {
      RowsInOrder(pitch, h, r);
    }
    var n := 8 * RowStart(pitch, r) + b;
    if r >= h {
      assert (n - 8 * |img|) / 8 == n / 8 - |img| && (n - 8 * |img|) % 8 == n % 8;
    }
  }

  lemma PrefixImage(mem: seq<Byte>, img: seq<Byte>, rest: seq<Byte>, pitch: nat, fb: Framebuffer,
                    x: int, y: int, bpp: nat, w: nat, h: nat)
    requires bpp > 0 && w * bpp <= 8 * pitch
    requires mem == img + rest && |img| == RowStart(pitch, h)
    requires ImageOf(img, pitch, fb, x, y, bpp, w, h)
    ensures ImageOf(mem, pitch, fb, x, y, bpp, w, h)
  {
    hide RowBit;
    forall r: nat, b: nat | r < h && b < w * bpp
      ensures RowBit(mem, pitch, r, b) == fb(x + b / bpp, y + r, b % bpp)
    {
      PrefixBits(mem, img, rest, pitch, h, r, b);
    }
  }

  /** Before its box is copied, no bit of it is set in a planar image. */
  lemma StillClear(before: seq<Byte>, image: seq<Byte>, pitch: nat, org: Point, fb: Framebuffer, done: Region,
                   width: nat, height: nat, p: Box)
    requires Assembled(before, image, pitch, 1, org, fb, done)
    requires width <= 8 * pitch && BoxClear(before, pitch, 0, 0, width, height)
    requires org.x <= p.x1 < p.x2 <= org.x + width && org.y <= p.y1 < p.y2 <= org.y + height
    requires Points(p) !! done
    ensures BoxClear(image, pitch, p.x1 - org.x, p.y1 - org.y, p.x2 - p.x1, p.y2 - p.y1)
  {
    hide RowBit;
    forall r: nat, b: nat | p.y1 - org.y <= r < p.y2 - org.y && p.x1 - org.x <= b < p.x2 - org.x
      ensures !RowBit(image, pitch, r, b)
    {
      assert PixelAt(org, 1, r, b) in Points(p);
      assert !RowBit(before, pitch, r, b);
    }
  }

  /** Fetches one box of the grabbed region into scratch memory, which grows when it is too small. */
  method FetchBox(s: Screen, p: Box, bpp: nat, scratchMem: array<Byte>, ghost fb: Framebuffer)
    returns (scratch: array<Byte>, scratchPitch: nat)
    requires bpp > 0
    requires Agrees(s, fb, bpp)
    requires p.x1 < p.x2 && p.y1 < p.y2 && Points(p) <= ScreenRegion(s)
    modifies scratchMem
    ensures scratch == scratchMem || fresh(scratch)
    ensures (p.x2 - p.x1) * bpp <= 8 * scratchPitch && RowStart(scratchPitch, p.y2 - p.y1) <= scratch.Length
    ensures ImageOf(scratch[..], scratchPitch, fb, p.x1, p.y1, bpp, p.x2 - p.x1, p.y2 - p.y1)
  {
    hide RowBit, RowStart;
    var w: nat, h: nat := p.x2 - p.x1, p.y2 - p.y1;
    scratchPitch := PixmapBytePad(w, bpp);
    var sizeNeeded := scratchPitch * h;
    assert sizeNeeded == RowStart(scratchPitch, h) by { RowStartIs(scratchPitch, h, 0); }
    scratch := scratchMem;
    if sizeNeeded > scratch.Length {
      scratch := new Byte[sizeNeeded];
    }
    var x, y := p.x1 - s.drawX - s.x, p.y1 - s.drawY - s.y;
    assert Box(x + s.drawX + s.x, y + s.drawY + s.y, x + s.drawX + s.x + w, y + s.drawY + s.y + h) == p;
    ghost var rest := scratch[..][sizeNeeded..];
    GetImage(s, x, y, w, h, scratch);
    PrefixImage(scratch[..], s.getImage(x, y, w, h), rest, scratchPitch, fb, p.x1, p.y1, bpp, w, h);
  }

  lemma LowerRows(pitch: nat, r: nat, h: nat)
    requires r <= h
    ensures RowStart(pitch, r) <= RowStart(pitch, h)
  {
    if r < h {
      RowsInOrder(pitch, r, h);
    }
  }

  lemma ByteColumns(x: nat, w: nat, width: nat, j: nat, bpp: nat, pitch: nat, scratchPitch: nat)
    requires bpp == 8 * j && x + w <= width
    requires width * bpp <= 8 * pitch && w * bpp <= 8 * scratchPitch
    ensures 8 * (x * j) == x * bpp && 8 * (w * j) == w * bpp
    ensures x * j + w * j <= pitch && w * j <= scratchPitch
  {
    MulMono(x + w, width, bpp);
    assert (x + w) * bpp == x * bpp + w * bpp;
    assert x * bpp == 8 * (x * j);
    assert w * bpp == 8 * (w * j);
  }

  /** Fetches one box of the grabbed region and copies it over. */
  method CopyBox(s: Screen, srcBox: Box, p: Box, bpp: nat, data: array<Byte>, pitch: nat,
                 scratchMem: array<Byte>, ghost before: seq<Byte>, ghost fb: Framebuffer, ghost done: Region)
    returns (scratch: array<Byte>)
    requires bpp == 1 || (bpp > 0 && bpp % 8 == 0)
    requires Agrees(s, fb, bpp)
    requires srcBox.x1 <= p.x1 < p.x2 <= srcBox.x2 && srcBox.y1 <= p.y1 < p.y2 <= srcBox.y2
    requires Points(p) <= ScreenRegion(s) && Points(p) !! done
    requires (srcBox.x2 - srcBox.x1) * bpp <= 8 * pitch && RowStart(pitch, srcBox.y2 - srcBox.y1) <= data.Length
    requires Assembled(before, data[..], pitch, bpp, Point(srcBox.x1, srcBox.y1), fb, done)
    requires bpp == 1 ==> BoxClear(before, pitch, 0, 0, srcBox.x2 - srcBox.x1, srcBox.y2 - srcBox.y1)
    requires scratchMem != data
    modifies data, scratchMem
    ensures scratch != data && (scratch == scratchMem || fresh(scratch))
    ensures Assembled(before, data[..], pitch, bpp, Point(srcBox.x1, srcBox.y1), fb, done + Points(p))
  {
    hide RowBit, RowStart, Agrees, ScreenRegion, Points, Assembled, BoxClear, BoxWritten, ImageOf;
    var scratchPitch;
    scratch, scratchPitch := FetchBox(s, p, bpp, scratchMem, fb);
    ghost var org, img, mid := Point(srcBox.x1, srcBox.y1), scratch[..], data[..];
    var x: nat, y: nat := p.x1 - srcBox.x1, p.y1 - srcBox.y1;
    var w: nat, h: nat := p.x2 - p.x1, p.y2 - p.y1;
    LowerRows(pitch, y + h, srcBox.y2 - srcBox.y1);
    if bpp == 1 {
      StillClear(before, mid, pitch, org, fb, done, srcBox.x2 - srcBox.x1, srcBox.y2 - srcBox.y1, p);
      BlitBitBox(data, pitch, scratch, scratchPitch, x, y, w, h);
    } else {
      var j := bpp / 8;
      ByteColumns(x, w, srcBox.x2 - srcBox.x1, j, bpp, pitch, scratchPitch);
      BlitByteBox(data, pitch, scratch, scratchPitch, x * j, y, w * j, h);
    }
    AssembleBox(before, mid, data[..], pitch, bpp, org, fb, done, p, img, scratchPitch);
  }

  lemma {:induction false} UnionHolds(boxes: seq<Box>, k: nat)
    requires k < |boxes|
    ensures Points(boxes[k]) <= Union(boxes)
    ensures Union(boxes[..k + 1]) == Union(boxes[..k]) + Points(boxes[k])
  {
    hide Points;
    assert boxes[..k + 1][..k] == boxes[..k];
    if k + 1 < |boxes| {
      UnionHolds(boxes[..|boxes| - 1], k);
      assert boxes[..|boxes| - 1][..k + 1] == boxes[..k + 1] && boxes[..|boxes| - 1][..k] == boxes[..k];
    }
  }

  /** A nonempty box lies within the bounds of a box that holds its points. */
  lemma BoxWithin(p: Box, box: Box)
    requires p.x1 < p.x2 && p.y1 < p.y2 && Points(p) <= Points(box)
    ensures box.x1 <= p.x1 && p.x2 <= box.x2 && box.y1 <= p.y1 && p.y2 <= box.y2
  {
    assert Point(p.x1, p.y1) in Points(p) && Point(p.x2 - 1, p.y2 - 1) in Points(p);
  }

  /** The next rectangle of the grabbed region lies in the box and on the screen, and is not done yet. */
  lemma NextRectangle(s: Screen, srcBox: Box, pbox: seq<Box>, k: nat, done: Region, grab: Region)
    requires k < |pbox|
    requires Decomposes(pbox, grab) && grab <= Points(srcBox) * ScreenRegion(s) && grab !! done
    ensures Points(pbox[k]) <= ScreenRegion(s) && Points(pbox[k]) !! done + Union(pbox[..k])
    ensures pbox[k].x1 < pbox[k].x2 && srcBox.x1 <= pbox[k].x1 && pbox[k].x2 <= srcBox.x2
    ensures pbox[k].y1 < pbox[k].y2 && srcBox.y1 <= pbox[k].y1 && pbox[k].y2 <= srcBox.y2
    ensures done + Union(pbox[..k]) + Points(pbox[k]) == done + Union(pbox[..k + 1])
  {
    UnionHolds(pbox, k);
    BoxWithin(pbox[k], srcBox);
  }

  lemma NoRectangles(done: Region)
    ensures done + Union([]) == done
  {}

  lemma WholeUnion(boxes: seq<Box>, region: Region)
    requires Decomposes(boxes, region)
    ensures Union(boxes) == region
  {}

  /** Copies every rectangle of the grabbed region. */
  method CopyGrab(s: Screen, srcBox: Box, pbox: seq<Box>, bpp: nat, data: array<Byte>, pitch: nat,
                  scratchMem: array<Byte>, ghost before: seq<Byte>, ghost fb: Framebuffer,
                  ghost done: Region, ghost grab: Region)
    returns (scratch: array<Byte>)
    requires bpp == 1 || (bpp > 0 && bpp % 8 == 0)
    requires Agrees(s, fb, bpp)
    requires srcBox.x1 <= srcBox.x2 && srcBox.y1 <= srcBox.y2
    requires Decomposes(pbox, grab) && grab <= Points(srcBox) * ScreenRegion(s) && grab !! done
    requires (srcBox.x2 - srcBox.x1) * bpp <= 8 * pitch && RowStart(pitch, srcBox.y2 - srcBox.y1) <= data.Length
    requires Assembled(before, data[..], pitch, bpp, Point(srcBox.x1, srcBox.y1), fb, done)
    requires bpp == 1 ==> BoxClear(before, pitch, 0, 0, srcBox.x2 - srcBox.x1, srcBox.y2 - srcBox.y1)
    requires scratchMem != data
    modifies data, scratchMem
    ensures scratch != data && (scratch == scratchMem || fresh(scratch))
    ensures Assembled(before, data[..], pitch, bpp, Point(srcBox.x1, srcBox.y1), fb, done + grab)
  {
    hide RowBit, RowStart, Agrees, ScreenRegion, Assembled, BoxClear, Points, Decomposes, Union;
    scratch := scratchMem;
    NoRectangles(done);
    assert Union(pbox) == grab by { WholeUnion(pbox, grab); }
    var nbox := |pbox|;
    assert pbox[..0] == [];
    while nbox > 0
      invariant 0 <= nbox <= |pbox|
      invariant scratch != data && (scratch == scratchMem || fresh(scratch))
      invariant Assembled(before, data[..], pitch, bpp, Point(srcBox.x1, srcBox.y1), fb, done + Union(pbox[..|pbox| - nbox]))
    {
      var k := |pbox| - nbox;
      nbox := nbox - 1;
      NextRectangle(s, srcBox, pbox, k, done, grab);
      scratch := CopyBox(s, srcBox, pbox[k], bpp, data, pitch, scratch, before, fb, done + Union(pbox[..k]));
    }
    assert pbox[..|pbox|] == pbox;
  }

  lemma CoveredStep(screens: seq<Screen>, i: nat)
    requires i < |screens|
    ensures Covered(screens[..i + 1]) == Covered(screens[..i]) + ScreenRegion(screens[i])
  {
    assert screens[..i + 1][..i] == screens[..i];
  }

  /** One screen holds the whole source box, so its driver writes the image by itself. */
  ghost predicate WholeBox(screens: seq<Screen>, box: Box) {
    exists i | 0 <= i < |screens| :: Points(box) <= ScreenRegion(screens[i])
  }

  /**
   * What the finished image shows: `fb` on the points of the source box that some
   * screen covers, and `before` elsewhere.  Only the padding of a row past the
   * image width may be anything, and only when one screen holds the whole box.
   */
  ghost predicate ImageShows(before: seq<Byte>, image: seq<Byte>, pitch: nat, bpp: nat, box: Box,
                             fb: Framebuffer, screens: seq<Screen>)
    requires bpp > 0 && box.x1 <= box.x2 && box.y1 <= box.y2
  {
    && |image| == |before|
    && forall r: nat, b: nat
         | b < 8 * pitch && (b < (box.x2 - box.x1) * bpp || r >= box.y2 - box.y1 || !WholeBox(screens, box)) ::
         RowBit(image, pitch, r, b) ==
         var p := PixelAt(Point(box.x1, box.y1), bpp, r, b);
         if p in Points(box) * Covered(screens) then fb(p.x, p.y, b % bpp) else RowBit(before, pitch, r, b)
  }

  /** The box of the logical screen that the request names. */
  function SourceBox(first: Screen, left: int, top: int, width: nat, height: nat, isRoot: bool): Box {
    var x1 := if isRoot then left else left + first.drawX + first.x;
    var y1 := if isRoot then top else top + first.drawY + first.y;
    Box(x1, y1, x1 + width, y1 + height)
  }

  lemma NothingDone(before: seq<Byte>, pitch: nat, bpp: nat, org: Point, fb: Framebuffer)
    requires bpp > 0
    ensures Assembled(before, before, pitch, bpp, org, fb, {})
  {}

  lemma {:induction false} CoveredPrefix(screens: seq<Screen>, i: nat)
    requires i <= |screens|
    ensures Covered(screens[..i]) <= Covered(screens)
  {
    if i < |screens| {
      CoveredPrefix(screens[..|screens| - 1], i);
      assert screens[..|screens| - 1][..i] == screens[..i];
    } else {
      assert screens[..i] == screens;
    }
  }

  lemma Finish(before: seq<Byte>, image: seq<Byte>, pitch: nat, bpp: nat, box: Box, fb: Framebuffer, screens: seq<Screen>)
    requires bpp > 0 && box.x1 <= box.x2 && box.y1 <= box.y2
    requires Assembled(before, image, pitch, bpp, Point(box.x1, box.y1), fb, Points(box) * Covered(screens))
    ensures ImageShows(before, image, pitch, bpp, box, fb, screens)
  {}

  lemma WholeImageBit(before: seq<Byte>, mid: seq<Byte>, after: seq<Byte>, img: seq<Byte>, pitch: nat, bpp: nat,
                      box: Box, fb: Framebuffer, done: Region, r: nat, b: nat)
    requires bpp > 0 && box.x1 <= box.x2 && box.y1 <= box.y2
    requires done <= Points(box)
    requires |img| == RowStart(pitch, box.y2 - box.y1) && |img| <= |mid| && after == img + mid[|img|..]
    requires ImageOf(img, pitch, fb, box.x1, box.y1, bpp, box.x2 - box.x1, box.y2 - box.y1)
    requires Assembled(before, mid, pitch, bpp, Point(box.x1, box.y1), fb, done)
    requires b < 8 * pitch && (b < (box.x2 - box.x1) * bpp || r >= box.y2 - box.y1)
    ensures RowBit(after, pitch, r, b) ==
            var p := PixelAt(Point(box.x1, box.y1), bpp, r, b);
            if p in Points(box) then fb(p.x, p.y, b % bpp) else RowBit(before, pitch, r, b)
  {
    hide RowBit, RowStart, FlatBit;
    var w: nat, h: nat := box.x2 - box.x1, box.y2 - box.y1;
    PixelColumn(0, w, bpp, b);
    PrefixBits(after, img, mid[|img|..], pitch, h, r, b);
    assert mid == mid[..|img|] + mid[|img|..];
    PrefixBits(mid, mid[..|img|], mid[|img|..], pitch, h, r, b);
  }

  lemma WholeImageShows(before: seq<Byte>, mid: seq<Byte>, after: seq<Byte>, img: seq<Byte>, pitch: nat, bpp: nat,
                        box: Box, fb: Framebuffer, done: Region, screens: seq<Screen>, i: nat)
    requires bpp > 0 && box.x1 <= box.x2 && box.y1 <= box.y2 && (box.x2 - box.x1) * bpp <= 8 * pitch
    requires i < |screens| && Points(box) <= ScreenRegion(screens[i]) && done <= Points(box)
    requires |img| == RowStart(pitch, box.y2 - box.y1) && |img| <= |mid| && after == img + mid[|img|..]
    requires ImageOf(img, pitch, fb, box.x1, box.y1, bpp, box.x2 - box.x1, box.y2 - box.y1)
    requires Assembled(before, mid, pitch, bpp, Point(box.x1, box.y1), fb, done)
    ensures ImageShows(before, after, pitch, bpp, box, fb, screens)
  {
    hide RowBit, RowStart, FlatBit, Points;
    assert WholeBox(screens, box);
    assert Points(box) * Covered(screens) == Points(box) by {
      CoveredStep(screens, i);
      CoveredPrefix(screens, i + 1);
    }
    forall r: nat, b: nat | b < 8 * pitch && (b < (box.x2 - box.x1) * bpp || r >= box.y2 - box.y1)
      ensures RowBit(after, pitch, r, b) ==
              var p := PixelAt(Point(box.x1, box.y1), bpp, r, b);
              if p in Points(box) then fb(p.x, p.y, b % bpp) else RowBit(before, pitch, r, b)
    {
      WholeImageBit(before, mid, after, img, pitch, bpp, box, fb, done, r, b);
    }
  }

  /** The whole-box path: the driver of screen `i` writes straight into the image. */
  method WholeImage(s: Screen, srcBox: Box, bpp: nat, data: array<Byte>, pitch: nat,
                    ghost before: seq<Byte>, ghost fb: Framebuffer, ghost done: Region, ghost screens: seq<Screen>, ghost i: nat)
    requires bpp > 0 && srcBox.x1 <= srcBox.x2 && srcBox.y1 <= srcBox.y2
    requires i < |screens| && s == screens[i] && Agrees(s, fb, bpp)
    requires Points(srcBox) <= ScreenRegion(s) && done <= Points(srcBox)
    requires pitch == PixmapBytePad(srcBox.x2 - srcBox.x1, bpp)
    requires RowStart(pitch, srcBox.y2 - srcBox.y1) <= data.Length
    requires Assembled(before, data[..], pitch, bpp, Point(srcBox.x1, srcBox.y1), fb, done)
    modifies data
    ensures ImageShows(before, data[..], pitch, bpp, srcBox, fb, screens)
  {
    hide RowBit, RowStart, Assembled, ImageShows, Points;
    var x, y := srcBox.x1 - s.drawX - s.x, srcBox.y1 - s.drawY - s.y;
    var width: nat, height: nat := srcBox.x2 - srcBox.x1, srcBox.y2 - srcBox.y1;
    assert Box(x + s.drawX + s.x, y + s.drawY + s.y, x + s.drawX + s.x + width, y + s.drawY + s.y + height) == srcBox;
    ghost var mid := data[..];
    GetImage(s, x, y, width, height, data);
    WholeImageShows(before, mid, data[..], s.getImage(x, y, width, height), pitch, bpp, srcBox, fb, done, screens, i);
  }

  /** The point of the logical screen is inside the rectangle of the screen. */
  predicate Shows(s: Screen, x: int, y: int) {
    s.x <= x < s.x + s.width && s.y <= y < s.y + s.height
  }

  /** On the root the image starts at (left, top) of the logical screen. */
  ghost predicate ShowsRoot(before: seq<Byte>, image: seq<Byte>, pitch: nat, bpp: nat, screens: seq<Screen>, fb: Framebuffer,
                            left: int, top: int, width: nat, height: nat)
    requires bpp > 0
  {
    forall r: nat, b: nat | r < height && b < width * bpp ::
      RowBit(image, pitch, r, b) ==
      if exists i | 0 <= i < |screens| :: Shows(screens[i], left + b / bpp, top + r)
      then fb(left + b / bpp, top + r, b % bpp) else RowBit(before, pitch, r, b)
  }

  /** Where screen s shows the pixel, it is the one that its driver gives for the same coordinates of the drawable. */
  ghost predicate ShowsDrawable(image: seq<Byte>, pitch: nat, bpp: nat, s: Screen, left: int, top: int, width: nat, height: nat)
    requires bpp > 0
  {
    forall r: nat, b: nat | r < height && b < width * bpp && Shows(s, left + b / bpp + s.drawX + s.x, top + r + s.drawY + s.y) ::
      RowBit(image, pitch, r, b) == RowBit(s.getImage(left + b / bpp, top + r, 1, 1), PixmapBytePad(1, bpp), 0, b % bpp)
  }

  /** Pixels that no screen shows are left alone. */
  ghost predicate LeavesHidden(before: seq<Byte>, image: seq<Byte>, pitch: nat, bpp: nat, screens: seq<Screen>,
                               left: int, top: int, width: nat, height: nat)
    requires bpp > 0 && |screens| > 0
  {
    forall r: nat, b: nat | r < height && b < width * bpp
      && (forall i | 0 <= i < |screens| ::
            !Shows(screens[i], left + b / bpp + screens[0].drawX + screens[0].x, top + r + screens[0].drawY + screens[0].y)) ::
      RowBit(image, pitch, r, b) == RowBit(before, pitch, r, b)
  }

  /** The drawable is at the same place of the logical screen on both screens. */
  predicate SamePlace(s: Screen, t: Screen) {
    s.drawX + s.x == t.drawX + t.x && s.drawY + s.y == t.drawY + t.y
  }

  /** A point is covered exactly when some screen shows it. */
  lemma {:induction false} CoveredMeans(screens: seq<Screen>, p: Point)
    ensures p in Covered(screens) <==> exists i | 0 <= i < |screens| :: p in ScreenRegion(screens[i])
  {
    if screens != [] {
      var n := |screens| - 1;
      CoveredMeans(screens[..n], p);
      if i :| 0 <= i < |screens| && p in ScreenRegion(screens[i]) {
        assert i < n ==> screens[..n][i] == screens[i];
      }
    }
  }

  /** What one bit of the image is, by the point of the logical screen that it belongs to. */
  lemma BitOfImage(before: seq<Byte>, image: seq<Byte>, pitch: nat, bpp: nat, box: Box, fb: Framebuffer, screens: seq<Screen>, r: nat, b: nat)
    requires bpp > 0 && box.x1 <= box.x2 && box.y1 <= box.y2
    requires ImageShows(before, image, pitch, bpp, box, fb, screens)
    requires r < box.y2 - box.y1 && b < (box.x2 - box.x1) * bpp <= 8 * pitch
    ensures b / bpp < box.x2 - box.x1
    ensures RowBit(image, pitch, r, b) ==
            if exists i | 0 <= i < |screens| :: Shows(screens[i], box.x1 + b / bpp, box.y1 + r)
            then fb(box.x1 + b / bpp, box.y1 + r, b % bpp) else RowBit(before, pitch, r, b)
  {
    hide RowBit, Covered, WholeBox;
    PixelColumn(0, box.x2 - box.x1, bpp, b);
    var p := PixelAt(Point(box.x1, box.y1), bpp, r, b);
    CoveredMeans(screens, p);
    assert p in Points(box);
    if i :| 0 <= i < |screens| && p in ScreenRegion(screens[i]) {
      assert Shows(screens[i], p.x, p.y);
    }
  }

  lemma OnePoint(s: Screen, x: int, y: int)
    requires Shows(s, x, y)
    ensures Points(Box(x, y, x + 1, y + 1)) <= ScreenRegion(s)
  {}

  /** One pixel of the framebuffer, by the driver of a screen that shows it. */
  lemma OnePixel(s: Screen, fb: Framebuffer, bpp: nat, x: int, y: int, k: nat)
    requires bpp > 0 && Agrees(s, fb, bpp) && k < bpp && Shows(s, x + s.drawX + s.x, y + s.drawY + s.y)
    ensures RowBit(s.getImage(x, y, 1, 1), PixmapBytePad(1, bpp), 0, k) == fb(x + s.drawX + s.x, y + s.drawY + s.y, k)
  {
    var w: nat, h: nat := 1, 1;
    OnePoint(s, x + s.drawX + s.x, y + s.drawY + s.y);
    DivModUnique(k, bpp, 0, k);
    hide RowBit, RowStart, Points, ScreenRegion, Shows, PixmapBytePad;
    assert ImageOf(s.getImage(x, y, w, h), PixmapBytePad(w, bpp), fb, x + s.drawX + s.x, y + s.drawY + s.y, bpp, w, h);
    hide Agrees;
    assert k < w * bpp;
  }

  /** Screen s shows all of the requested part of the drawable, whose coordinates there are those of the request. */
  predicate ShowsAll(s: Screen, first: Screen, left: int, top: int, width: nat, height: nat, isRoot: bool) {
    && 0 <= left + s.drawX && left + s.drawX + width <= s.width
    && 0 <= top + s.drawY && top + s.drawY + height <= s.height
    && if isRoot then s.drawX + s.x == 0 && s.drawY + s.y == 0 else SamePlace(s, first)
  }

  /** The reply is what the driver of screen s gives for the request. */
  ghost predicate IsDrivers(image: seq<Byte>, pitch: nat, bpp: nat, s: Screen, left: int, top: int, width: nat, height: nat)
    requires bpp > 0
  {
    forall r: nat, b: nat | r < height && b < width * bpp ::
      RowBit(image, pitch, r, b) == RowBit(s.getImage(left, top, width, height), PixmapBytePad(width, bpp), r, b)
  }

  lemma DriversImage(s: Screen, fb: Framebuffer, bpp: nat, x: int, y: int, w: nat, h: nat)
    requires bpp > 0 && Agrees(s, fb, bpp)
    requires 0 <= x + s.drawX && x + s.drawX + w <= s.width && 0 <= y + s.drawY && y + s.drawY + h <= s.height
    ensures ImageOf(s.getImage(x, y, w, h), PixmapBytePad(w, bpp), fb, x + s.drawX + s.x, y + s.drawY + s.y, bpp, w, h)
  {
    var box := Box(x + s.drawX + s.x, y + s.drawY + s.y, x + s.drawX + s.x + w, y + s.drawY + s.y + h);
    assert Points(box) <= ScreenRegion(s);
    hide RowBit, RowStart, Points, ScreenRegion, ImageOf, PixmapBytePad;
  }

  lemma ReplyIsDrivers(before: seq<Byte>, image: seq<Byte>, pitch: nat, bpp: nat, fb: Framebuffer, screens: seq<Screen>,
                       left: int, top: int, width: nat, height: nat, isRoot: bool, i: nat)
    requires bpp > 0 && width * bpp <= 8 * pitch && i < |screens| && Agrees(screens[i], fb, bpp)
    requires ImageShows(before, image, pitch, bpp, SourceBox(screens[0], left, top, width, height, isRoot), fb, screens)
    requires ShowsAll(screens[i], screens[0], left, top, width, height, isRoot)
    ensures IsDrivers(image, pitch, bpp, screens[i], left, top, width, height)
  {
    hide RowBit, ImageShows, Agrees;
    var s, box := screens[i], SourceBox(screens[0], left, top, width, height, isRoot);
    DriversImage(s, fb, bpp, left, top, width, height);
    assert box.x1 == left + s.drawX + s.x && box.y1 == top + s.drawY + s.y;
    hide SourceBox;
    forall r: nat, b: nat | r < height && b < width * bpp
      ensures RowBit(image, pitch, r, b) == fb(box.x1 + b / bpp, box.y1 + r, b % bpp)
    {
      BitOfImage(before, image, pitch, bpp, box, fb, screens, r, b);
      PixelColumn(0, width, bpp, b);
      assert Shows(s, box.x1 + b / bpp, box.y1 + r);
    }
  }

  /** The reply in the terms of the request. */
  lemma ReplyShows(before: seq<Byte>, image: seq<Byte>, pitch: nat, bpp: nat, fb: Framebuffer, screens: seq<Screen>,
                   left: int, top: int, width: nat, height: nat, isRoot: bool)
    requires |screens| > 0 && bpp > 0 && width * bpp <= 8 * pitch
    requires forall i | 0 <= i < |screens| :: Agrees(screens[i], fb, bpp)
    requires ImageShows(before, image, pitch, bpp, SourceBox(screens[0], left, top, width, height, isRoot), fb, screens)
    ensures isRoot ==> ShowsRoot(before, image, pitch, bpp, screens, fb, left, top, width, height)
    ensures !isRoot ==> LeavesHidden(before, image, pitch, bpp, screens, left, top, width, height)
    ensures !isRoot ==> forall i | 0 <= i < |screens| && SamePlace(screens[i], screens[0]) ::
              ShowsDrawable(image, pitch, bpp, screens[i], left, top, width, height)
    ensures forall i | 0 <= i < |screens| && ShowsAll(screens[i], screens[0], left, top, width, height, isRoot) ::
              IsDrivers(image, pitch, bpp, screens[i], left, top, width, height)
  {
    hide RowBit, ImageShows, Agrees, IsDrivers, ShowsAll;
    forall i | 0 <= i < |screens| && ShowsAll(screens[i], screens[0], left, top, width, height, isRoot) {
      ReplyIsDrivers(before, image, pitch, bpp, fb, screens, left, top, width, height, isRoot, i);
    }
    var box := SourceBox(screens[0], left, top, width, height, isRoot);
    forall r: nat, b: nat | r < height && b < width * bpp
      ensures RowBit(image, pitch, r, b) ==
              if exists i | 0 <= i < |screens| :: Shows(screens[i], box.x1 + b / bpp, box.y1 + r)
              then fb(box.x1 + b / bpp, box.y1 + r, b % bpp) else RowBit(before, pitch, r, b)
    {
      BitOfImage(before, image, pitch, bpp, box, fb, screens, r, b);
    }
    if !isRoot {
      forall i | 0 <= i < |screens| && SamePlace(screens[i], screens[0])
        ensures ShowsDrawable(image, pitch, bpp, screens[i], left, top, width, height)
      {
        var s := screens[i];
        forall r: nat, b: nat | r < height && b < width * bpp && Shows(s, left + b / bpp + s.drawX + s.x, top + r + s.drawY + s.y)
          ensures RowBit(image, pitch, r, b) == RowBit(s.getImage(left + b / bpp, top + r, 1, 1), PixmapBytePad(1, bpp), 0, b % bpp)
        {
          OnePixel(s, fb, bpp, left + b / bpp, top + r, b % bpp);
        }
      }
    }
  }

  method XineramaGetImageData(screens: seq<Screen>, rects: Region -> seq<Box>,
                              left: int, top: int, width: nat, height: nat, bpp: nat,
                              data: array<Byte>, pitch: nat, isRoot: bool, ghost fb: Framebuffer)
    requires |screens| > 0
    requires bpp == 1 || (bpp > 0 && bpp % 8 == 0)
    requires pitch == PixmapBytePad(width, bpp) && RowStart(pitch, height) <= data.Length
    // the caller hands over a cleared planar image
    requires bpp == 1 ==> BoxClear(data[..], pitch, 0, 0, width, height)
    // all screens show one logical framebuffer
    requires forall i | 0 <= i < |screens| :: Agrees(screens[i], fb, bpp)
    requires forall region :: Decomposes(rects(region), region)
    modifies data
    ensures ImageShows(old(data[..]), data[..], pitch, bpp, SourceBox(screens[0], left, top, width, height, isRoot), fb, screens)
    // on the root the image is that part of the logical screen; of a window it is what each screen's driver shows of it
    ensures isRoot ==> ShowsRoot(old(data[..]), data[..], pitch, bpp, screens, fb, left, top, width, height)
    ensures !isRoot ==> LeavesHidden(old(data[..]), data[..], pitch, bpp, screens, left, top, width, height)
    ensures !isRoot ==> forall i | 0 <= i < |screens| && SamePlace(screens[i], screens[0]) ::
              ShowsDrawable(data[..], pitch, bpp, screens[i], left, top, width, height)
    // what one screen shows all of is that screen's own reply
    ensures forall i | 0 <= i < |screens| && ShowsAll(screens[i], screens[0], left, top, width, height, isRoot) ::
              IsDrivers(data[..], pitch, bpp, screens[i], left, top, width, height)
  {
    hide ShowsAll, IsDrivers, ShowsRoot, LeavesHidden, ShowsDrawable, SamePlace;
    hide RowBit, RowStart, Agrees, ScreenRegion, Assembled, BoxClear, Points, ImageShows, Decomposes;
    var srcBox := SourceBox(screens[0], left, top, width, height, isRoot);
    var srcRegion := Points(srcBox);
    var scratch := new Byte[0];
    ghost var before, org := data[..], Point(srcBox.x1, srcBox.y1);
    NothingDone(before, pitch, bpp, org, fb);
    assert Points(srcBox) - srcRegion == {};
    assert srcRegion == Points(srcBox) - Covered(screens[..0]);
    var i := 0;
    while i < |screens|
      invariant 0 <= i <= |screens|
      invariant fresh(scratch)
      invariant srcRegion == Points(srcBox) - Covered(screens[..i])
      invariant Assembled(before, data[..], pitch, bpp, org, fb, Points(srcBox) - srcRegion)
    {
      CoveredStep(screens, i);
      var inOut := RectInRegion(ScreenRegion(screens[i]), srcBox);
      if inOut == RgnIn {
        WholeImage(screens[i], srcBox, bpp, data, pitch, before, fb, Points(srcBox) - srcRegion, screens, i);
        ReplyShows(before, data[..], pitch, bpp, fb, screens, left, top, width, height, isRoot);
        return;
      }
      if inOut == RgnPart {
        var grab := srcRegion * ScreenRegion(screens[i]);
        var pbox := rects(grab);
        WholeUnion(pbox, grab);
        if |pbox| > 0 {
          scratch := CopyGrab(screens[i], srcBox, pbox, bpp, data, pitch, scratch, before, fb, Points(srcBox) - srcRegion, grab);
          assert Points(srcBox) - srcRegion + grab == Points(srcBox) - (srcRegion - grab);
          srcRegion := srcRegion - grab;
          if srcRegion == {} {
            CoveredPrefix(screens, i + 1);
            assert Points(srcBox) - srcRegion == Points(srcBox) * Covered(screens);
            Finish(before, data[..], pitch, bpp, srcBox, fb, screens);
            ReplyShows(before, data[..], pitch, bpp, fb, screens, left, top, width, height, isRoot);
            return;
          }
        } else {
          NoRectangles({});
        }
      }
      i := i + 1;
    }
    assert screens[..|screens|] == screens;
    assert Points(srcBox) - srcRegion == Points(srcBox) * Covered(screens);
    Finish(before, data[..], pitch, bpp, srcBox, fb, screens);
    ReplyShows(before, data[..], pitch, bpp, fb, screens, left, top, width, height, isRoot);
  }
}
