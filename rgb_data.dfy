/** Turning a damaged rectangle of a window's pixmap into the bytes of a
    `draw` packet (`ServerSource._get_rgb_data`): the rectangle is clipped
    to the pixmap, captured into a pixbuf whose rows may be padded, and the
    rows are repacked into tight RGB24 rows. */
module RgbData {
  import opened Regions

  /** The window's "client-contents" pixmap: its size, and an opaque
      handle naming the native pixmap (and so its current pixels, which
      reach the model only through the capture). */
  datatype Pixmap = Pixmap(handle: nat, width: int, height: int)

  /** What `get_from_drawable` + `get_pixels` + `get_rowstride` yield for a
      clipped rectangle: a byte buffer whose rows start every `rowstride`
      bytes. */
  datatype Pixbuf = Pixbuf(rowstride: int, pixels: seq<bv8>)

  /** The layout a GdkPixbuf guarantees for an RGB24 image of `width` x
      `height` pixels: rows are at least `3 * width` bytes apart and the
      buffer holds every row, the last one possibly without its padding. */
  predicate Fits(pb: Pixbuf, width: int, height: int)
  {
    && width > 0 && height > 0
    && pb.rowstride >= width * 3
    && (height - 1) * pb.rowstride + width * 3 <= |pb.pixels| <= height * pb.rowstride
  }

  /** The native capture, as a function of the pixmap and the clipped rectangle. */
  type Capture = (Pixmap, Rect) -> Pixbuf

  ghost predicate CaptureFits(capture: Capture)
  {
    forall pm: Pixmap, c: Rect :: c.w > 0 && c.h > 0 ==> Fits(capture(pm, c), c.w, c.h)
  }

  /** The rectangle that is sent for damage `r`: lines 151-157 of xscreen/server.py.
      Only the right and bottom edges are clipped; an empty result is the
      all-zero rectangle. */
  function Clip(pm: Pixmap, r: Rect): (c: Rect)
    ensures c == Rect(0, 0, 0, 0) || (c.x == r.x && c.y == r.y && c.w > 0 && c.h > 0)
    ensures c.w > 0 ==> c.x + c.w <= pm.width && c.y + c.h <= pm.height
    ensures c.w > 0 ==> c.w <= r.w && c.h <= r.h
    ensures forall px: int, py: int ::
              InRect(c, px, py) <==> InRect(r, px, py) && px < pm.width && py < pm.height
  {
    var width := if r.x + r.w > pm.width then pm.width - r.x else r.w;
    var height := if r.y + r.h > pm.height then pm.height - r.y else r.h;
    if width <= 0 || height <= 0 then Rect(0, 0, 0, 0) else Rect(r.x, r.y, width, height)
  }

  /** Row `i` of a padded buffer, without its padding. */
  function Row(raw: seq<bv8>, rowstride: nat, rowwidth: nat, i: nat): seq<bv8>
    requires rowwidth <= rowstride && i * rowstride + rowwidth <= |raw|
  {
    raw[i * rowstride .. i * rowstride + rowwidth]
  }

  lemma RowInBounds(raw: seq<bv8>, rowstride: nat, rowwidth: nat, height: nat, i: nat)
    requires rowwidth <= rowstride && height > 0 && (height - 1) * rowstride + rowwidth <= |raw|
    requires i < height
    ensures i * rowstride + rowwidth <= |raw|
  {
    assert i * rowstride <= (height - 1) * rowstride by {
      assert i <= height - 1;
    }
  }

  ghost predicate Padded(raw: seq<bv8>, rowstride: nat, rowwidth: nat, height: nat)
  {
    rowwidth <= rowstride && (height > 0 ==> (height - 1) * rowstride + rowwidth <= |raw|)
  }

  /** The first `height` rows of a padded buffer, each without its padding,
      one after the other. */
  function PackRows(raw: seq<bv8>, rowstride: nat, rowwidth: nat, height: nat): seq<bv8>
    requires Padded(raw, rowstride, rowwidth, height)
    decreases height
  {
    if height == 0 then []
    else
      RowInBounds(raw, rowstride, rowwidth, height, height - 1);
      PackRows(raw, rowstride, rowwidth, height - 1) + Row(raw, rowstride, rowwidth, height - 1)
  }

  /** The repacked data holds exactly `height` rows of `rowwidth` bytes. */
  lemma {:induction false} PackRowsLength(raw: seq<bv8>, rowstride: nat, rowwidth: nat, height: nat)
    requires Padded(raw, rowstride, rowwidth, height)
    ensures |PackRows(raw, rowstride, rowwidth, height)| == height * rowwidth
  {
    if height > 0 {
      PackRowsLength(raw, rowstride, rowwidth, height - 1);
      assert height * rowwidth == (height - 1) * rowwidth + rowwidth;
    }
  }

  lemma MulMonotone(a: nat, b: nat, k: nat)
    requires a <= b
    ensures a * k <= b * k
  {
  }

  /** Row `i` of the repacked data is row `i` of the buffer without its padding. */
  lemma {:induction false} PackRowsRow(raw: seq<bv8>, rowstride: nat, rowwidth: nat, height: nat, i: nat)
    requires Padded(raw, rowstride, rowwidth, height)
    requires i < height
    ensures |PackRows(raw, rowstride, rowwidth, height)| == height * rowwidth
    ensures (i + 1) * rowwidth <= height * rowwidth
    ensures i * rowstride + rowwidth <= |raw|
    ensures PackRows(raw, rowstride, rowwidth, height)[i * rowwidth .. (i + 1) * rowwidth]
         == raw[i * rowstride .. i * rowstride + rowwidth]
  {
    PackRowsLength(raw, rowstride, rowwidth, height);
    MulMonotone(i + 1, height, rowwidth);
    RowInBounds(raw, rowstride, rowwidth, height, i);
    RowInBounds(raw, rowstride, rowwidth, height, height - 1);
    var whole := PackRows(raw, rowstride, rowwidth, height);
    var front := PackRows(raw, rowstride, rowwidth, height - 1);
    PackRowsLength(raw, rowstride, rowwidth, height - 1);
    assert whole == front + Row(raw, rowstride, rowwidth, height - 1);
    var lo, hi := i * rowwidth, (i + 1) * rowwidth;
    assert hi == lo + rowwidth;
    if i < height - 1 {
      PackRowsRow(raw, rowstride, rowwidth, height - 1, i);
      assert hi <= |front|;
      assert whole[lo .. hi] == front[lo .. hi];
    } else {
      assert lo == |front|;
      assert whole[lo .. hi] == Row(raw, rowstride, rowwidth, height - 1);
    }
  }

  /** When the rows are not padded (and the buffer holds exactly the rows),
      repacking changes nothing: the source's shortcut returns the buffer. */
  lemma {:induction false} PackRowsTight(raw: seq<bv8>, rowwidth: nat, height: nat)
    requires |raw| == height * rowwidth
    ensures Padded(raw, rowwidth, rowwidth, height)
    ensures PackRows(raw, rowwidth, rowwidth, height) == raw
  {
    if height > 0 {
      var front := raw[..(height - 1) * rowwidth];
      assert |raw| == (height - 1) * rowwidth + rowwidth;
      PackRowsTight(front, rowwidth, height - 1);
      PackRowsPrefix(raw, front, rowwidth, rowwidth, height - 1);
      assert raw == front + raw[(height - 1) * rowwidth ..];
    }
  }

  /** Only the bytes of the first `height` rows matter to the packing. */
  lemma {:induction false} PackRowsPrefix(raw: seq<bv8>, prefix: seq<bv8>, rowstride: nat, rowwidth: nat, height: nat)
    requires Padded(prefix, rowstride, rowwidth, height)
    requires prefix <= raw
    ensures Padded(raw, rowstride, rowwidth, height)
    ensures PackRows(raw, rowstride, rowwidth, height) == PackRows(prefix, rowstride, rowwidth, height)
  {
    if height > 0 {
      RowInBounds(prefix, rowstride, rowwidth, height, height - 1);
      PackRowsPrefix(raw, prefix, rowstride, rowwidth, height - 1);
    }
  }

  /** `"".join(rows)` */
  function Join(rows: seq<seq<bv8>>): seq<bv8>
  {
    if rows == [] then [] else Join(rows[..|rows| - 1]) + rows[|rows| - 1]
  }

  /** The repacking loop of xscreen/server.py, lines 162-170. */
  method Repack(raw: seq<bv8>, rowstride: nat, rowwidth: nat, height: nat) returns (data: seq<bv8>)
    requires Padded(raw, rowstride, rowwidth, height)
    ensures data == PackRows(raw, rowstride, rowwidth, height)
  {
    var rows: seq<seq<bv8>> := [];
    for i := 0 to height
      invariant |rows| == i
      invariant Join(rows) == PackRows(raw, rowstride, rowwidth, i)
    {
      RowInBounds(raw, rowstride, rowwidth, height, i);
      rows := rows + [raw[i * rowstride .. i * rowstride + rowwidth]];
      assert rows[..i] == rows[..|rows| - 1];
    }
    data := Join(rows);
  }

  /** What `_get_rgb_data` returns: the clipped rectangle and its bytes. */
  datatype RgbResult = RgbResult(x: int, y: int, w: int, h: int, data: seq<bv8>)

  /** The value `_get_rgb_data` computes, given the native capture. */
  function RgbDataOf(pm: Pixmap, r: Rect, capture: Capture): RgbResult
    requires CaptureFits(capture)
  {
    var c := Clip(pm, r);
    if c.w <= 0 then RgbResult(0, 0, 0, 0, [])
    else
      var pb := capture(pm, c);
      assert Fits(pb, c.w, c.h);
      RgbResult(c.x, c.y, c.w, c.h, PackRows(pb.pixels, pb.rowstride, c.w * 3, c.h))
  }

  /** The facts about a fitting pixbuf that the repacking needs. */
  lemma {:induction false} FitsPacks(pb: Pixbuf, width: int, height: int)
    requires Fits(pb, width, height)
    ensures pb.rowstride >= 0 && width * 3 >= 0
    ensures Padded(pb.pixels, pb.rowstride, width * 3, height)
    ensures |PackRows(pb.pixels, pb.rowstride, width * 3, height)| == width * height * 3
    ensures pb.rowstride == width * 3 ==> PackRows(pb.pixels, pb.rowstride, width * 3, height) == pb.pixels
  {
    PackRowsLength(pb.pixels, pb.rowstride, width * 3, height);
    assert height * (width * 3) == width * height * 3;
    if pb.rowstride == width * 3 {
      assert (height - 1) * pb.rowstride + width * 3 == height * pb.rowstride;
      PackRowsTight(pb.pixels, width * 3, height);
    }
  }

  /** The shape of what `_get_rgb_data` returns: either the empty answer,
      or a non-empty rectangle at the requested origin (a negative one
      included) that ends no further right or lower than the pixmap, never
      exceeds the request, and comes with `w * h * 3` bytes. */
  lemma RgbDataOfShape(pm: Pixmap, r: Rect, capture: Capture)
    requires CaptureFits(capture)
    ensures var res := RgbDataOf(pm, r, capture);
      && |res.data| == res.w * res.h * 3
      && (res.w == 0 <==> res.h == 0)
      && (res.w == 0 ==> res == RgbResult(0, 0, 0, 0, []))
      && (res.w > 0 ==> res.w > 0 && res.h > 0 && res.x == r.x && res.y == r.y && res.w <= r.w && res.h <= r.h)
      && (res.w > 0 ==> res.x + res.w <= pm.width && res.y + res.h <= pm.height)
  {
    var c := Clip(pm, r);
    if c.w > 0 {
      FitsPacks(capture(pm, c), c.w, c.h);
    }
  }

  /** `_get_rgb_data(pixmap, x, y, width, height)`. */
  method GetRgbData(pm: Pixmap, r: Rect, capture: Capture) returns (res: RgbResult)
    requires CaptureFits(capture)
    ensures res == RgbDataOf(pm, r, capture)
    ensures |res.data| == res.w * res.h * 3
    ensures res.w == 0 <==> res.h == 0
    ensures res.w == 0 ==> res == RgbResult(0, 0, 0, 0, [])
    ensures res.w > 0 ==> res.x == r.x && res.y == r.y && res.x + res.w <= pm.width && res.y + res.h <= pm.height
  {
    var width := r.w;
    var height := r.h;
    if r.x + width > pm.width {
      width := pm.width - r.x;
    }
    if r.y + height > pm.height {
      height := pm.height - r.y;
    }
    if width <= 0 || height <= 0 {
      return RgbResult(0, 0, 0, 0, []);
    }
    var c := Rect(r.x, r.y, width, height);
    assert c == Clip(pm, r);
    var pb := capture(pm, c);
    FitsPacks(pb, width, height);
    var rowwidth := width * 3;
    var data;
    if rowwidth == pb.rowstride {
      data := pb.pixels;
    } else {
      data := Repack(pb.pixels, pb.rowstride, rowwidth, height);
    }
    res := RgbResult(r.x, r.y, width, height, data);
  }
}
