/** Lists of points that are drawn on the root: one request for each screen, relative to its origin. */
module ScreenPoints {
  import opened Regions

  const HALF: int := 0x8000

  /** A signed 16-bit number. */
  type Int16 = n: int | -0x8000 <= n < 0x8000

  function Wrap16(n: int): Int16 {
    (n + HALF) % (2 * HALF) - HALF
  }

  datatype Mode = Origin | Previous

  datatype PointRequest = PointRequest(drawable: nat, gc: nat, mode: Mode, points: seq<Point>)

  predicate Is16(p: Point) {
    -HALF <= p.x < HALF && -HALF <= p.y < HALF
  }

  function Minus(p: Point, dx: int, dy: int): Point {
    Point(Wrap16(p.x - dx), Wrap16(p.y - dy))
  }

  function Plus(p: Point, q: Point): Point {
    Point(Wrap16(p.x + q.x), Wrap16(p.y + q.y))
  }

  /** The points themselves: in mode Previous each is relative to the one before. */
  function Absolute(mode: Mode, points: seq<Point>): (r: seq<Point>)
    ensures |r| == |points|
  {
    if mode.Origin? || points == [] then points
    else
      var front := Absolute(mode, points[..|points| - 1]);
      var last := points[|points| - 1];
      front + [if front == [] then last else Plus(front[|front| - 1], last)]
  }

  /** The list with its first n points moved. */
  function Shifted(points: seq<Point>, n: nat, dx: int, dy: int): (r: seq<Point>)
    ensures |r| == |points|
    ensures forall i | 0 <= i < |points| :: r[i] == if i < n then Minus(points[i], dx, dy) else points[i]
  {
    seq(|points|, i requires 0 <= i < |points| => if i < n then Minus(points[i], dx, dy) else points[i])
  }

  /** How many points have to be moved: all, or in mode Previous the first. */
  function ToMove(mode: Mode, count: nat): nat {
    if mode.Previous? then 1 else count
  }

  lemma SameClass(n: int, k: int)
    ensures Wrap16(n + k * (2 * HALF)) == Wrap16(n)
  {}

  lemma WrapSum(a: int, b: int)
    ensures Wrap16(Wrap16(a) + b) == Wrap16(a + b)
  {
    var k := (a + HALF) / (2 * HALF);
    assert Wrap16(a) == a - k * (2 * HALF);
    SameClass(a + b, -k);
  }

  lemma WrapMoves(a: int, b: int, d: int)
    ensures Wrap16(Wrap16(a - d) + b) == Wrap16(Wrap16(a + b) - d)
  {
    WrapSum(a - d, b);
    WrapSum(a + b, -d);
    assert a - d + b == a + b + -d;
  }

  lemma StepMoves(p: Point, q: Point, dx: int, dy: int)
    ensures Plus(Minus(p, dx, dy), q) == Minus(Plus(p, q), dx, dy)
  {
    hide Wrap16;
    WrapMoves(p.x, q.x, dx);
    WrapMoves(p.y, q.y, dy);
  }

  /** Moving the first point moves them all. */
  lemma {:induction false} AllMove(mode: Mode, points: seq<Point>, dx: int, dy: int)
    ensures forall i | 0 <= i < |points| ::
              Absolute(mode, Shifted(points, ToMove(mode, |points|), dx, dy))[i] == Minus(Absolute(mode, points)[i], dx, dy)
  {
    if mode.Previous? && points != [] {
      var n := |points| - 1;
      var front := points[..n];
      var shifted := Shifted(points, 1, dx, dy);
      AllMove(mode, front, dx, dy);
      assert shifted[..n] == Shifted(front, 1, dx, dy);
      if n > 0 {
        StepMoves(Absolute(mode, front)[n - 1], points[n], dx, dy);
      }
    }
  }

  /** Without an offset nothing has to be moved. */
  lemma NoOffset(points: seq<Point>, n: nat)
    requires forall i | 0 <= i < |points| :: Is16(points[i])
    ensures Shifted(points, n, 0, 0) == points
  {}

  /** Point `p` of a screen with its origin at (dx, dy) is point `q` of the root; coordinates are modulo 2^16. */
  predicate SamePlace(p: Point, q: Point, dx: int, dy: int) {
    Is16(p) && (p.x + dx - q.x) % 0x1_0000 == 0 && (p.y + dy - q.y) % 0x1_0000 == 0
  }

  lemma WrapIs(n: int)
    ensures -HALF <= Wrap16(n) < HALF && (Wrap16(n) - n) % (2 * HALF) == 0
  {}

  lemma MinusIs(p: Point, dx: int, dy: int)
    ensures SamePlace(Minus(p, dx, dy), p, dx, dy)
  {
    hide Wrap16;
    WrapIs(p.x - dx);
    WrapIs(p.y - dy);
  }

  /** Every point is drawn at its place on the root, or if it is not drawn there, where the client has it. */
  ghost predicate DrawnInPlace(q: PointRequest, mode: Mode, points: seq<Point>, isRoot: bool, dx: int, dy: int) {
    && |Absolute(q.mode, q.points)| == |points|
    && forall i | 0 <= i < |points| ::
         if isRoot then SamePlace(Absolute(q.mode, q.points)[i], Absolute(mode, points)[i], dx, dy)
         else Absolute(q.mode, q.points)[i] == Absolute(mode, points)[i]
  }

  /** The request draws the client's points, less the origin of the screen if they are on the root. */
  ghost predicate Draws(q: PointRequest, drawable: nat, gc: nat, mode: Mode, points: seq<Point>, isRoot: bool, dx: int, dy: int) {
    && q.drawable == drawable && q.gc == gc && q.mode == mode && |q.points| == |points|
    && forall i | 0 <= i < |points| ::
         Absolute(q.mode, q.points)[i] == if isRoot then Minus(Absolute(mode, points)[i], dx, dy) else Absolute(mode, points)[i]
  }

  lemma ScreenIs(points: seq<Point>, mode: Mode, isRoot: bool, dx: int, dy: int)
    requires forall i | 0 <= i < |points| :: Is16(points[i])
    ensures var moved := if isRoot && (dx != 0 || dy != 0) then Shifted(points, ToMove(mode, |points|), dx, dy) else points;
            forall i | 0 <= i < |points| ::
              Absolute(mode, moved)[i] == if isRoot then Minus(Absolute(mode, points)[i], dx, dy) else Absolute(mode, points)[i]
  {
    NoOffset(points, ToMove(mode, |points|));
    AllMove(mode, points, dx, dy);
  }

  lemma DrawsInPlace(q: PointRequest, drawable: nat, gc: nat, mode: Mode, points: seq<Point>, isRoot: bool, dx: int, dy: int)
    requires Draws(q, drawable, gc, mode, points, isRoot, dx, dy)
    ensures DrawnInPlace(q, mode, points, isRoot, dx, dy)
  {
    hide Minus, SamePlace, Absolute;
    forall i | 0 <= i < |points| {
      MinusIs(Absolute(mode, points)[i], dx, dy);
    }
  }

  method Restore(buffer: array<Point>, origPts: seq<Point>)
    requires buffer.Length == |origPts|
    modifies buffer
    ensures buffer[..] == origPts
  {
    for i: int := 0 to buffer.Length
      invariant buffer[..i] == origPts[..i]
    {
      buffer[i] := origPts[i];
    }
  }

  /** The first n points move in place. */
  method MovePoints(buffer: array<Point>, n: nat, dx: int, dy: int)
    requires n <= buffer.Length
    modifies buffer
    ensures buffer[..] == Shifted(old(buffer[..]), n, dx, dy)
  {
    ghost var before := buffer[..];
    for i: int := 0 to n
      invariant forall k | 0 <= k < i :: buffer[k] == Minus(before[k], dx, dy)
      invariant forall k | i <= k < buffer.Length :: buffer[k] == before[k]
    {
      buffer[i] := Minus(buffer[i], dx, dy);
    }
  }

  /**
    * The loop over the screens of PolyPoint, PolyLine and FillPoly: `buffer` holds the points of the request,
    * rewritten for each screen; `sent` is what the screens get. `accepted` tells which screens answer with
    * success: the first that does not is the last that is asked.
    */
  method SendPoints(buffer: array<Point>, mode: Mode, isRoot: bool, drawables: seq<nat>, gcs: seq<nat>,
                    xs: seq<int>, ys: seq<int>, accepted: seq<bool>) returns (sent: seq<PointRequest>)
    requires |drawables| == |gcs| == |xs| == |ys| == |accepted|
    requires forall i | 0 <= i < buffer.Length :: Is16(buffer[i])
    modifies buffer
    ensures buffer.Length == 0 ==> sent == []
    ensures buffer.Length > 0 ==>
              && |sent| <= |accepted| && (forall p | 0 <= p < |sent| - 1 :: accepted[p])
              && (|sent| < |accepted| ==> |sent| > 0 && !accepted[|sent| - 1])
    ensures forall p | 0 <= p < |sent| ::
              p < |xs| && Draws(sent[p], drawables[p], gcs[p], mode, old(buffer[..]), isRoot, xs[p], ys[p])
              && DrawnInPlace(sent[p], mode, old(buffer[..]), isRoot, xs[p], ys[p])
  {
    sent := [];
    if buffer.Length == 0 {
      return;
    }
    var origPts := buffer[..];
    var j := 0;
    while j < |xs|
      invariant j <= |xs| && j == |sent|
      invariant j == 0 ==> buffer[..] == origPts
      invariant forall p | 0 <= p < |sent| :: accepted[p]
      invariant forall p | 0 <= p < |sent| :: Draws(sent[p], drawables[p], gcs[p], mode, origPts, isRoot, xs[p], ys[p])
                                              && DrawnInPlace(sent[p], mode, origPts, isRoot, xs[p], ys[p])
    {
      if j > 0 {
        Restore(buffer, origPts);
      }
      if isRoot && (xs[j] != 0 || ys[j] != 0) {
        MovePoints(buffer, ToMove(mode, buffer.Length), xs[j], ys[j]);
      }
      ScreenIs(origPts, mode, isRoot, xs[j], ys[j]);
      sent := sent + [PointRequest(drawables[j], gcs[j], mode, buffer[..])];
      DrawsInPlace(sent[j], drawables[j], gcs[j], mode, origPts, isRoot, xs[j], ys[j]);
      if !accepted[j] {
        break;
      }
      j := j + 1;
    }
  }
}
