/** Damage regions. A GDK region is modelled by the finite set of integer
    pixels it covers, so `union_with_rect` and `subtract` are set union and
    set difference. */
module Regions {

  type Point = (int, int)
  type Region = set<Point>

  /** A GDK rectangle: origin and extent. A rectangle whose width or height
      is not positive covers no pixel. */
  datatype Rect = Rect(x: int, y: int, w: int, h: int)

  predicate InRect(r: Rect, px: int, py: int)
  {
    r.x <= px < r.x + r.w && r.y <= py < r.y + r.h
  }

  /** The pixels a rectangle covers (`region_rectangle`). */
  function Points(r: Rect): (g: Region)
    ensures forall px: int, py: int :: (px, py) in g <==> InRect(r, px, py)
  {
    set px: int, py: int | r.x <= px < r.x + r.w && r.y <= py < r.y + r.h :: (px, py)
  }

  /** `region.union_with_rect(rect)` */
  function UnionWithRect(g: Region, r: Rect): Region
  {
    g + Points(r)
  }

  /** `region.subtract(region_rectangle(rect))` */
  function SubtractRect(g: Region, r: Rect): Region
  {
    g - Points(r)
  }

  lemma {:induction false} NonEmptyRectHasPoints(r: Rect)
    requires r.w > 0 && r.h > 0
    ensures (r.x, r.y) in Points(r)
  {
  }

  /** A rectangle with a non-positive side adds nothing to a region. */
  lemma EmptyRectUnion(g: Region, r: Rect)
    requires r.w <= 0 || r.h <= 0
    ensures UnionWithRect(g, r) == g
  {
    assert Points(r) == {};
  }

  /** Taking a non-empty rectangle out of a region that contains it strictly
      shrinks the region; this is what makes each draw step progress. */
  lemma SubtractShrinks(g: Region, r: Rect)
    requires Points(r) <= g && Points(r) != {}
    ensures SubtractRect(g, r) < g
    ensures |SubtractRect(g, r)| < |g|
  {
    var p :| p in Points(r);
    assert p in g && p !in SubtractRect(g, r);
  }

  /** Every region has a rectangle inside it, and a non-empty one when the
      region is non-empty: the contract the rectangle chooser has to meet
      can be met. */
  lemma ChoiceExists(g: Region) returns (r: Rect)
    ensures Points(r) <= g
    ensures g != {} ==> Points(r) != {}
  {
    if g == {} {
      r := Rect(0, 0, 0, 0);
      assert Points(r) == {};
    } else {
      var p :| p in g;
      r := Rect(p.0, p.1, 1, 1);
      assert Points(r) == {p} by {
        forall q | q in Points(r) ensures q == p {
          assert InRect(r, q.0, q.1);
        }
      }
    }
  }
}
