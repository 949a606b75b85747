/** One window on the viewer (`ClientWindow`): its metadata, the title and
    geometry hints derived from it, a backing store of pixels that `draw`
    packets paint into, and the translation of local window-manager events
    into request packets for the server, sent only when something changed. */
module ClientWindows {
  import opened Packets

  datatype Pixel = Pixel(r: bv8, g: bv8, b: bv8)

  /** The colour `set_source_rgb(1, 1, 1)` fills newly exposed area with. */
  const White := Pixel(0xff, 0xff, 0xff)

  const ViaSuffix := " (via XScreen)"
  const Untitled := "<untitled window>"

  /** The metadata shapes the viewer reads: a text title and size pairs. */
  ghost predicate Readable(md: Metadata)
  {
    && (TitleKey in md ==> md[TitleKey].Text?)
    && (forall i :: 0 <= i < |HintTable| ==> HintTable[i].key in md ==> md[HintTable[i].key].Pair?)
  }

  /** The window title shown for metadata `md`: the metadata's title, or a
      placeholder, followed by a fixed suffix. The title can be read back
      from it. */
  function TitleFor(md: Metadata): (t: string)
    requires TitleKey in md ==> md[TitleKey].Text?
    ensures |t| >= |ViaSuffix| && t[|t| - |ViaSuffix|..] == ViaSuffix
    ensures t[..|t| - |ViaSuffix|] == if TitleKey in md then md[TitleKey].s else Untitled
  {
    var title := if TitleKey in md then md[TitleKey].s else Untitled;
    var t := title + ViaSuffix;
    assert t[..|title|] == title;
    t
  }

  /** One row of the table in `update_metadata`: a metadata key and the two
      geometry-hint names its pair sets. */
  datatype HintRow = HintRow(key: string, first: HintName, second: HintName)

  /** The keyword arguments of `set_geometry_hints` the viewer uses. */
  datatype HintName =
    | MaxWidth | MaxHeight | MinWidth | MinHeight
    | BaseWidth | BaseHeight | WidthInc | HeightInc

  const HintTable: seq<HintRow> := [
    HintRow(MaximumSizeKey, MaxWidth, MaxHeight),
    HintRow(MinimumSizeKey, MinWidth, MinHeight),
    HintRow(BaseSizeKey, BaseWidth, BaseHeight),
    HintRow(IncrementKey, WidthInc, HeightInc)
  ]

  /** Whether any size-constraint key the viewer reads is present. */
  predicate HasSizeKey(md: Metadata)
  {
    exists i :: 0 <= i < |HintTable| && HintTable[i].key in md
  }

  /** The `set_geometry_hints` calls `update_metadata` makes for merged
      metadata `md`: one call with the hints of the whole table, or none. */
  function HintsCalls(md: Metadata): seq<map<HintName, int>>
    requires Readable(md)
  {
    if HasSizeKey(md) then [HintsUpTo(md, |HintTable|)] else []
  }

  /** The hints set by the first `n` rows of the table, applied in order. */
  function HintsUpTo(md: Metadata, n: nat): map<HintName, int>
    requires Readable(md) && n <= |HintTable|
  {
    if n == 0 then map[]
    else
      var row := HintTable[n - 1];
      var earlier := HintsUpTo(md, n - 1);
      if row.key in md then earlier[row.first := md[row.key].a][row.second := md[row.key].b]
      else earlier
  }

  /** The row of the table that sets hint `name`. */
  function RowOf(name: HintName): (i: nat)
    ensures i < |HintTable|
  {
    match name
    case MaxWidth | MaxHeight => 0
    case MinWidth | MinHeight => 1
    case BaseWidth | BaseHeight => 2
    case WidthInc | HeightInc => 3
  }

  /** Whether `name` is set from the first half of its row's pair. */
  predicate IsWidth(name: HintName)
  {
    name.MaxWidth? || name.MinWidth? || name.BaseWidth? || name.WidthInc?
  }

  /** `RowOf` and `IsWidth` locate every name in the table, and every
      name of the table is located: each hint name appears in one row only. */
  lemma TableIndex()
    ensures forall name: HintName ::
      (if IsWidth(name) then HintTable[RowOf(name)].first else HintTable[RowOf(name)].second) == name
    ensures forall i :: 0 <= i < |HintTable| ==>
      RowOf(HintTable[i].first) == i && IsWidth(HintTable[i].first) &&
      RowOf(HintTable[i].second) == i && !IsWidth(HintTable[i].second)
  {
  }

  /** After `n` rows, a hint is set exactly when its row is among them and
      its key is present, and then to its half of that key's pair. */
  lemma {:induction false} HintsUpToShape(md: Metadata, n: nat)
    requires Readable(md) && n <= |HintTable|
    ensures forall name :: name in HintsUpTo(md, n) <==> RowOf(name) < n && HintTable[RowOf(name)].key in md
    ensures forall name :: name in HintsUpTo(md, n) ==>
      var pair := md[HintTable[RowOf(name)].key];
      HintsUpTo(md, n)[name] == if IsWidth(name) then pair.a else pair.b
  {
    if n > 0 {
      HintsUpToShape(md, n - 1);
      TableIndex();
      var row := HintTable[n - 1];
      var earlier := HintsUpTo(md, n - 1);
      forall name
        ensures name in HintsUpTo(md, n) <==> RowOf(name) < n && HintTable[RowOf(name)].key in md
        ensures name in HintsUpTo(md, n) ==>
          var pair := md[HintTable[RowOf(name)].key];
          HintsUpTo(md, n)[name] == if IsWidth(name) then pair.a else pair.b
      {
        if RowOf(name) == n - 1 {
          assert name == if IsWidth(name) then row.first else row.second;
        } else {
          assert name != row.first && name != row.second;
        }
      }
    }
  }

  /** The hints are empty exactly when no size-constraint key is present,
      so `set_geometry_hints` is called only when some key is. */
  lemma HintsEmpty(md: Metadata)
    requires Readable(md)
    ensures HintsUpTo(md, |HintTable|) == map[] <==> forall i :: 0 <= i < |HintTable| ==> HintTable[i].key !in md
  {
    HintsUpToShape(md, |HintTable|);
    TableIndex();
    if HintsUpTo(md, |HintTable|) == map[] {
      forall i | 0 <= i < |HintTable| ensures HintTable[i].key !in md {
        assert HintTable[i].first !in HintsUpTo(md, |HintTable|);
      }
    } else {
      var name :| name in HintsUpTo(md, |HintTable|);
    }
  }

  /** The loop of `update_metadata` that collects geometry hints. */
  method GeometryHints(md: Metadata) returns (hints: map<HintName, int>)
    requires Readable(md)
    ensures hints == HintsUpTo(md, |HintTable|)
  {
    hints := map[];
    for i := 0 to |HintTable|
      invariant hints == HintsUpTo(md, i)
    {
      var row := HintTable[i];
      if row.key in md {
        var pair := md[row.key];
        hints := hints[row.first := pair.a][row.second := pair.b];
      }
    }
  }

  /** The colour of pixel (i, j) of an RGB24 image `width` pixels wide. */
  function RgbPixel(data: seq<bv8>, width: int, i: int, j: int): Pixel
  {
    var o := (j * width + i) * 3;
    if 0 <= o && o + 2 < |data| then Pixel(data[o], data[o + 1], data[o + 2]) else White
  }

  /** A fresh w x h store holding `src` where the two overlap and white
      everywhere else. */
  method Reallocated(src: array2<Pixel>, w: nat, h: nat) returns (nb: array2<Pixel>)
    ensures fresh(nb) && nb.Length0 == w && nb.Length1 == h
    ensures forall i, j :: 0 <= i < w && 0 <= j < h ==>
      nb[i, j] == if i < src.Length0 && j < src.Length1 then src[i, j] else White
  {
    nb := new Pixel[w, h];
    for i := 0 to w
      invariant forall i', j :: 0 <= i' < i && 0 <= j < h ==>
        nb[i', j] == if i' < src.Length0 && j < src.Length1 then src[i', j] else White
    {
      for j := 0 to h
        invariant forall i', j' :: 0 <= i' < i && 0 <= j' < h ==>
          nb[i', j'] == if i' < src.Length0 && j' < src.Length1 then src[i', j'] else White
        invariant forall j' :: 0 <= j' < j ==>
          nb[i, j'] == if i < src.Length0 && j' < src.Length1 then src[i, j'] else White
      {
        nb[i, j] := if i < src.Length0 && j < src.Length1 then src[i, j] else White;
      }
    }
  }

  class ClientWindow {
    const protocol: PacketQueue
    const id: WindowId
    /** `_pos` and `_size`: the geometry last reported to the server. */
    var pos: (int, int)
    var size: (int, int)
    /** `_backing`: column `i`, row `j` is `backing[i, j]`. */
    var backing: array2<Pixel>
    /** `_metadata` */
    var metadata: Metadata
    /** What `set_title` was last given. */
    var title: string
    /** Every `set_geometry_hints` call, in order. */
    var hintsSet: seq<map<HintName, int>>
    /** What `set_default_size` was given. */
    var defaultSize: (int, int)

    ghost predicate Valid()
      reads this
    {
      Readable(metadata)
    }

    /** A new window has a 1x1 backing store, has reported nothing yet
        (position (-1, -1), size 1x1) and takes its metadata. */
    constructor (protocol: PacketQueue, id: WindowId, x: int, y: int, w: int, h: int, md: Metadata)
      requires Readable(md)
      ensures Valid() && this.protocol == protocol && this.id == id
      ensures pos == (-1, -1) && size == (1, 1)
      ensures fresh(backing) && backing.Length0 == 1 && backing.Length1 == 1
      ensures metadata == md && title == TitleFor(md)
      ensures hintsSet == HintsCalls(md)
      ensures defaultSize == (w, h)
    {
      this.protocol := protocol;
      this.id := id;
      pos := (-1, -1);
      size := (1, 1);
      backing := new Pixel[1, 1]((i, j) => White);
      metadata := map[];
      title := "";
      hintsSet := [];
      defaultSize := (w, h);
      new;
      assert map[] + md == md;
      UpdateMetadata(md);
    }

    /** `update_metadata`: merge (given keys override, the others keep
        their values), set the title, and set geometry hints when there are
        any. */
    method UpdateMetadata(md: Metadata)
      requires Valid() && Readable(md)
      modifies this
      ensures Valid()
      ensures metadata == old(metadata) + md
      ensures forall k :: k in metadata <==> k in old(metadata) || k in md
      ensures forall k :: k in md ==> metadata[k] == md[k]
      ensures forall k :: k in old(metadata) && k !in md ==> metadata[k] == old(metadata)[k]
      ensures title == TitleFor(metadata)
      ensures hintsSet == old(hintsSet) + HintsCalls(metadata)
      ensures pos == old(pos) && size == old(size) && backing == old(backing) && defaultSize == old(defaultSize)
    {
      metadata := metadata + md;
      title := TitleFor(metadata);
      var hints := GeometryHints(metadata);
      HintsEmpty(metadata);
      if hints != map[] {
        hintsSet := hintsSet + [hints];
      }
    }

    /** `_new_backing(w, h)`: a new w x h store; the old content stays where
        it was, and everything outside the old extent is white. (The source
        paints the old pixmap at the origin and then fills the polygon
        (old_w, 0) (w, 0) (w, h) (0, h) (0, old_h) (old_w, old_h); under the
        non-zero winding rule that polygon covers exactly the part of the new
        store outside the old extent, whether it grew or shrank.) */
    method NewBacking(w: nat, h: nat)
      modifies this
      ensures fresh(backing) && backing.Length0 == w && backing.Length1 == h
      ensures forall i, j :: 0 <= i < w && 0 <= j < h ==>
        backing[i, j] == if i < old(backing.Length0) && j < old(backing.Length1) then old(backing[i, j]) else White
      ensures pos == old(pos) && size == old(size) && metadata == old(metadata) && title == old(title)
      ensures hintsSet == old(hintsSet) && defaultSize == old(defaultSize)
    {
      backing := Reallocated(backing, w, h);
    }

    /** `draw`: the data must hold exactly `width * height` RGB24 pixels
        (otherwise the assertion fails and nothing is painted); then the
        rectangle is painted into the backing store, clipped to it. */
    method Draw(x: int, y: int, width: int, height: int, data: seq<bv8>) returns (ok: bool)
      modifies backing
      ensures ok <==> |data| == width * height * 3
      ensures !ok ==> unchanged(backing)
      ensures ok ==> forall i, j :: 0 <= i < backing.Length0 && 0 <= j < backing.Length1 ==>
        backing[i, j] == if x <= i < x + width && y <= j < y + height
                         then RgbPixel(data, width, i - x, j - y) else old(backing[i, j])
    {
      ok := |data| == width * height * 3;
      if !ok {
        return;
      }
      var row := 0;
      while row < height
        invariant 0 <= row && (row <= height || row == 0)
        invariant forall i, j :: 0 <= i < backing.Length0 && 0 <= j < backing.Length1 ==>
          backing[i, j] == if x <= i < x + width && y <= j < y + row
                           then RgbPixel(data, width, i - x, j - y) else old(backing[i, j])
      {
        var col := 0;
        while col < width
          invariant 0 <= col && (col <= width || col == 0)
          invariant forall i, j :: 0 <= i < backing.Length0 && 0 <= j < backing.Length1 ==>
            backing[i, j] == if x <= i < x + width && y <= j < y + row
                             then RgbPixel(data, width, i - x, j - y)
                             else if j == y + row && x <= i < x + col
                             then RgbPixel(data, width, i - x, j - y)
                             else old(backing[i, j])
        {
          var px, py := x + col, y + row;
          if 0 <= px < backing.Length0 && 0 <= py < backing.Length1 {
            backing[px, py] := RgbPixel(data, width, col, row);
          }
          col := col + 1;
        }
        row := row + 1;
      }
    }

    /** `do_map_event`: report the whole current geometry once and record it. */
    method MapEvent(x: int, y: int, w: int, h: int)
      modifies this, protocol
      ensures protocol.queued == old(protocol.queued) + [MapWindow(id, x, y, w, h)]
      ensures pos == (x, y) && size == (w, h)
      ensures backing == old(backing) && metadata == old(metadata) && title == old(title)
      ensures hintsSet == old(hintsSet) && defaultSize == old(defaultSize)
    {
      protocol.QueuePacket(MapWindow(id, x, y, w, h));
      pos := (x, y);
      size := (w, h);
    }

    /** `do_configure_event`: a move is reported only when the position
        changed, a resize only when the size changed, and only a resize
        reallocates the backing store. */
    method ConfigureEvent(x: int, y: int, w: nat, h: nat)
      modifies this, protocol
      ensures pos == (x, y) && size == (w, h)
      ensures protocol.queued == old(protocol.queued)
        + (if (x, y) != old(pos) then [MoveWindow(id, x, y)] else [])
        + (if (w, h) != old(size) then [ResizeWindow(id, w, h)] else [])
      ensures (w, h) == old(size) ==> backing == old(backing)
      ensures (w, h) != old(size) ==>
        && fresh(backing) && backing.Length0 == w && backing.Length1 == h
        && forall i, j :: 0 <= i < w && 0 <= j < h ==>
             backing[i, j] == if i < old(backing.Length0) && j < old(backing.Length1) then old(backing[i, j]) else White
      ensures metadata == old(metadata) && title == old(title) && hintsSet == old(hintsSet) && defaultSize == old(defaultSize)
    {
      if (x, y) != pos {
        pos := (x, y);
        protocol.QueuePacket(MoveWindow(id, x, y));
      }
      if (w, h) != size {
        size := (w, h);
        protocol.QueuePacket(ResizeWindow(id, w, h));
        NewBacking(w, h);
      }
    }

    /** `do_unmap_event` */
    method UnmapEvent()
      modifies protocol
      ensures protocol.queued == old(protocol.queued) + [UnmapWindow(id)]
    {
      protocol.QueuePacket(UnmapWindow(id));
    }

    /** `do_delete_event`: ask the server to close the window, and keep it
        open here (the event is handled). */
    method DeleteEvent() returns (handled: bool)
      modifies protocol
      ensures protocol.queued == old(protocol.queued) + [CloseWindow(id)]
      ensures handled
    {
      protocol.QueuePacket(CloseWindow(id));
      handled := true;
    }
  }
}
