/** Regions as finite sets of points. */
module Regions {
  datatype Point = Point(x: int, y: int)
  type Region = set<Point>

  /** A box holds the points with x1 <= x < x2 and y1 <= y < y2. */
  datatype Box = Box(x1: int, y1: int, x2: int, y2: int)

  function Points(b: Box): (r: Region)
    ensures forall p :: p in r <==> b.x1 <= p.x < b.x2 && b.y1 <= p.y < b.y2
  {
    set x: int, y: int | b.x1 <= x < b.x2 && b.y1 <= y < b.y2 :: Point(x, y)
  }

  function Union(boxes: seq<Box>): Region {
    if boxes == [] then {} else Union(boxes[..|boxes| - 1]) + Points(boxes[|boxes| - 1])
  }

  lemma {:induction false} UnionMeans(boxes: seq<Box>)
    ensures forall p :: p in Union(boxes) <==> exists k | 0 <= k < |boxes| :: p in Points(boxes[k])
  {
    if boxes != [] {
      UnionMeans(boxes[..|boxes| - 1]);
    }
  }

  /** The rectangles of a region: nonempty, disjoint, and together the region. */
  ghost predicate Decomposes(boxes: seq<Box>, region: Region) {
    && Union(boxes) == region
    && forall k | 0 <= k < |boxes| ::
         boxes[k].x1 < boxes[k].x2 && boxes[k].y1 < boxes[k].y2 && Points(boxes[k]) !! Union(boxes[..k])
  }
}
