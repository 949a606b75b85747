/** What the two ends agree on: the metadata the server exports is what the
    viewer can read, the viewer shows the title and size hints the server
    read from the native window, and a `draw` packet paints exactly the
    captured pixels. */
module Wire {
  import opened Packets
  import opened Regions
  import opened RgbData
  import opened Server
  import opened ClientWindows

  /** Every metadata dictionary of the server's shape is one the viewer can
      read: a text title and pairs under the size-constraint keys. */
  lemma WellTypedIsReadable(md: Metadata)
    requires WellTyped(md)
    ensures Readable(md)
  {
    forall i | 0 <= i < |HintTable| && HintTable[i].key in md
      ensures md[HintTable[i].key].Pair?
    {
      assert HintTable[i].key in SizeKeys;
    }
  }

  /** The title the viewer shows for a `new-window` packet is the native
      window's title (or the placeholder when it has none), followed by the
      fixed suffix. */
  lemma TitleShown(p: WindowProps)
    ensures TitleKey in NewWindowMetadata(p) ==> NewWindowMetadata(p)[TitleKey].Text?
    ensures var t := TitleFor(NewWindowMetadata(p));
      |t| >= |ViaSuffix| &&
      t == (if p.title.Some? then p.title.value else Untitled) + ViaSuffix
  {
    NewWindowMetadataShape(p);
    var t := TitleFor(NewWindowMetadata(p));
    assert t == t[..|t| - |ViaSuffix|] + t[|t| - |ViaSuffix|..];
  }

  /** The geometry hints the viewer sets for a `new-window` packet are the
      native window's maximum, minimum and base sizes and its resize
      increment, each hint present exactly when the window has that
      attribute. (The aspect ratios travel but the viewer ignores them.) */
  lemma {:induction false} HintsShown(p: WindowProps)
    ensures Readable(NewWindowMetadata(p))
    ensures var hints := HintsUpTo(NewWindowMetadata(p), |HintTable|);
      forall name ::
        var attr := HintFor(p.hints, HintTable[RowOf(name)].key);
        && (name in hints <==> attr.Some?)
        && (name in hints ==> hints[name] == if IsWidth(name) then attr.value.0 else attr.value.1)
  {
    var md := NewWindowMetadata(p);
    NewWindowMetadataShape(p);
    WellTypedIsReadable(md);
    HintsUpToShape(md, |HintTable|);
    var t := ExportedMetadata(p, TitleProperty);
    var s := ExportedMetadata(p, SizeHintsProperty);
    forall name
      ensures var key := HintTable[RowOf(name)].key;
        key in md ==> md[key] == Pair(HintFor(p.hints, key).value.0, HintFor(p.hints, key).value.1)
    {
      var key := HintTable[RowOf(name)].key;
      assert key in SizeKeys && key != TitleKey;
      if key in md {
        assert key in s;
      }
    }
  }

  /** Equal slices have equal bytes at the same offset. */
  lemma {:induction false} SliceByte(a: seq<bv8>, b: seq<bv8>, lo: nat, lo': nat, n: nat, k: nat)
    requires lo + n <= |a| && lo' + n <= |b| && k < n
    requires a[lo .. lo + n] == b[lo' .. lo' + n]
    ensures a[lo + k] == b[lo' + k]
  {
    assert a[lo .. lo + n][k] == b[lo' .. lo' + n][k];
  }

  lemma NextRow(j: nat, rowwidth: nat)
    ensures (j + 1) * rowwidth == j * rowwidth + rowwidth
  {
  }

  lemma PixelOffset(i: int, j: int, w: int, rowstride: int)
    requires 0 <= i && 0 <= j && 0 <= w && 0 <= rowstride
    ensures (j * w + i) * 3 == j * (w * 3) + 3 * i
    ensures 0 <= j * (w * 3) && 0 <= j * rowstride
  {
  }

  /** Byte k of row j of the repacked data is byte k of row j of the
      buffer. */
  lemma {:induction false} PackRowsByte(raw: seq<bv8>, rowstride: nat, rowwidth: nat, height: nat, j: nat, k: nat)
    requires Padded(raw, rowstride, rowwidth, height)
    requires j < height && k < rowwidth
    ensures j * rowwidth + k < |PackRows(raw, rowstride, rowwidth, height)|
    ensures j * rowstride + k < |raw|
    ensures PackRows(raw, rowstride, rowwidth, height)[j * rowwidth + k] == raw[j * rowstride + k]
  {
    PackRowsRow(raw, rowstride, rowwidth, height, j);
    NextRow(j, rowwidth);
    SliceByte(PackRows(raw, rowstride, rowwidth, height), raw, j * rowwidth, j * rowstride, rowwidth, k);
  }

  /** Pixel (i, j) of the repacked rows of a fitting pixbuf is the pixel at
      column i of row j of the pixbuf. */
  lemma {:induction false} PackedPixel(pb: Pixbuf, w: int, h: int, i: int, j: int)
    requires Fits(pb, w, h) && 0 <= i < w && 0 <= j < h
    ensures pb.rowstride >= 0 && w * 3 >= 0 && Padded(pb.pixels, pb.rowstride, w * 3, h)
    ensures var o := j * pb.rowstride + 3 * i;
      0 <= o && o + 2 < |pb.pixels| &&
      RgbPixel(PackRows(pb.pixels, pb.rowstride, w * 3, h), w, i, j) == Pixel(pb.pixels[o], pb.pixels[o + 1], pb.pixels[o + 2])
  {
    FitsPacks(pb, w, h);
    var rw := w * 3;
    var data := PackRows(pb.pixels, pb.rowstride, rw, h);
    PackRowsByte(pb.pixels, pb.rowstride, rw, h, j, 3 * i);
    PackRowsByte(pb.pixels, pb.rowstride, rw, h, j, 3 * i + 1);
    PackRowsByte(pb.pixels, pb.rowstride, rw, h, j, 3 * i + 2);
    PixelOffset(i, j, w, pb.rowstride);
    var lo, o := j * rw + 3 * i, j * pb.rowstride + 3 * i;
    assert (j * w + i) * 3 == lo;
    assert 0 <= lo && lo + 2 < |data|;
    assert data[lo] == pb.pixels[o] && data[lo + 1] == pb.pixels[o + 1] && data[lo + 2] == pb.pixels[o + 2];
  }

  /** Pixel (i, j) of a `draw` packet's data, as the viewer reads it, is the
      pixel at column i of row j of the captured buffer: the repacking
      drops only the padding. */
  lemma {:induction false} DrawnPixel(pm: Pixmap, r: Rect, capture: Capture, i: int, j: int)
    requires CaptureFits(capture)
    requires var res := RgbDataOf(pm, r, capture); 0 <= i < res.w && 0 <= j < res.h
    ensures var c := Clip(pm, r);
      var pb := capture(pm, c);
      var o := j * pb.rowstride + 3 * i;
      0 <= o && o + 2 < |pb.pixels| &&
      RgbPixel(RgbDataOf(pm, r, capture).data, c.w, i, j) == Pixel(pb.pixels[o], pb.pixels[o + 1], pb.pixels[o + 2])
  {
    var c := Clip(pm, r);
    var pb := capture(pm, c);
    assert c.w > 0 && c.h > 0;
    assert Fits(pb, c.w, c.h);
    PackedPixel(pb, c.w, c.h, i, j);
    assert RgbDataOf(pm, r, capture).data == PackRows(pb.pixels, pb.rowstride, c.w * 3, c.h);
  }
}
