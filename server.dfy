/** The server session (`XScreenServer`): it gives every managed window a
    stable id, keeps the id tables, turns window events into packets and
    damage for the active connection, and applies the viewer's requests to
    the desktop manager. */
module Server {
  import opened Packets
  import opened Regions
  import opened RgbData
  import opened Scheduler
  import opened Desktop

  /** The window's `size-hints` property; every attribute may be absent. */
  datatype SizeHints = SizeHints(
    maxSize: Option<(int, int)>,
    minSize: Option<(int, int)>,
    baseSize: Option<(int, int)>,
    resizeInc: Option<(int, int)>,
    minAspect: Option<(int, int)>,
    maxAspect: Option<(int, int)>)

  /** What the server reads from a native window: its title, its size hints
      and the geometry of its client window. */
  datatype WindowProps = WindowProps(title: Option<string>, hints: SizeHints, geometry: Geometry)

  /** `_window_export_properties` */
  datatype ExportedProperty = TitleProperty | SizeHintsProperty

  /** The size-hints attribute that the table of `_make_metadata` exports
      under metadata key `key`. */
  function HintFor(h: SizeHints, key: string): Option<(int, int)>
  {
    if key == MaximumSizeKey then h.maxSize
    else if key == MinimumSizeKey then h.minSize
    else if key == BaseSizeKey then h.baseSize
    else if key == IncrementKey then h.resizeInc
    else if key == MinimumAspectKey then h.minAspect
    else if key == MaximumAspectKey then h.maxAspect
    else None
  }

  /** The metadata `_make_metadata` exports for one property: the title when
      the window has one; each size hint that is present, under its key. */
  function ExportedMetadata(p: WindowProps, name: ExportedProperty): Metadata
  {
    match name
    case TitleProperty =>
      if p.title.Some? then map[TitleKey := Text(p.title.value)] else map[]
    case SizeHintsProperty =>
      map k | k in SizeKeys && HintFor(p.hints, k).Some? ::
        Pair(HintFor(p.hints, k).value.0, HintFor(p.hints, k).value.1)
  }

  /** The metadata of a `new-window` packet: title and size hints together. */
  function NewWindowMetadata(p: WindowProps): Metadata
  {
    ExportedMetadata(p, TitleProperty) + ExportedMetadata(p, SizeHintsProperty)
  }

  /** What the server exports is always well typed, and each key appears
      exactly when the window has the corresponding property. */
  lemma {:induction false} NewWindowMetadataShape(p: WindowProps)
    ensures WellTyped(NewWindowMetadata(p))
    ensures TitleKey in NewWindowMetadata(p) <==> p.title.Some?
    ensures p.title.Some? ==> NewWindowMetadata(p)[TitleKey] == Text(p.title.value)
    ensures forall k :: k in SizeKeys ==>
      (k in NewWindowMetadata(p) <==> HintFor(p.hints, k).Some?)
  {
    var t := ExportedMetadata(p, TitleProperty);
    var s := ExportedMetadata(p, SizeHintsProperty);
    assert TitleKey !in SizeKeys;
    assert TitleKey !in s;
    forall k | k in s ensures s[k].Pair? && k in SizeKeys {
    }
  }

  /** `_make_metadata(window, propname)`, with its loop over the table of
      size-hint attributes. */
  method MakeMetadata(p: WindowProps, name: ExportedProperty) returns (md: Metadata)
    ensures md == ExportedMetadata(p, name)
    ensures WellTyped(md)
  {
    match name {
      case TitleProperty =>
        if p.title.Some? {
          md := map[TitleKey := Text(p.title.value)];
        } else {
          md := map[];
        }
      case SizeHintsProperty =>
        md := map[];
        for i := 0 to |SizeKeys|
          invariant forall k :: k in md <==> k in SizeKeys[..i] && HintFor(p.hints, k).Some?
          invariant forall k :: k in md ==> md[k] == Pair(HintFor(p.hints, k).value.0, HintFor(p.hints, k).value.1)
        {
          var attr := HintFor(p.hints, SizeKeys[i]);
          if attr.Some? {
            md := md[SizeKeys[i] := Pair(attr.value.0, attr.value.1)];
          }
          assert SizeKeys[..i + 1] == SizeKeys[..i] + [SizeKeys[i]];
        }
        assert SizeKeys[..|SizeKeys|] == SizeKeys;
    }
  }

  /** The position of the first occurrence of `c` in `s`. */
  function FirstIndex(s: seq<Conn>, c: Conn): (i: nat)
    requires c in s
    ensures i < |s| && s[i] == c && c !in s[..i]
  {
    if s[0] == c then 0
    else
      var i := FirstIndex(s[1..], c) + 1;
      assert s[..i] == [s[0]] + s[1..][..i - 1];
      i
  }

  /** The list of connections after `list.remove(proto)`: the first
      occurrence goes, if there is one, and the order of the rest is kept. */
  function RemoveFirst(s: seq<Conn>, c: Conn): (r: seq<Conn>)
    ensures c in s ==> |r| == |s| - 1
    ensures c in s ==> exists i :: 0 <= i < |s| && s[i] == c && c !in s[..i] && r == s[..i] + s[i + 1..]
    ensures c !in s ==> r == s
    ensures forall d :: d != c ==> (d in r <==> d in s)
  {
    if c in s then
      var i := FirstIndex(s, c);
      assert s == s[..i] + [s[i]] + s[i + 1..];
      s[..i] + s[i + 1..]
    else s
  }

  /** The `new-window` packet for window id `id` at geometry `g`. */
  function NewWindowPacketOf(id: WindowId, g: Geometry, p: WindowProps): Packet
  {
    NewWindow(id, g.x, g.y, g.w, g.h, NewWindowMetadata(p))
  }

  /** The `new-window` packets for `windows`, in that order. */
  function NewWindowPackets(windows: seq<Window>, ids: map<Window, WindowId>,
                            models: map<Window, ModelState>, props: Window -> WindowProps): seq<Packet>
    requires forall w :: w in windows ==> w in ids && w in models
  {
    if windows == [] then []
    else
      var w := windows[|windows| - 1];
      NewWindowPackets(windows[..|windows| - 1], ids, models, props) + [NewWindowPacketOf(ids[w], models[w].geom, props(w))]
  }

  ghost predicate Distinct<T>(s: seq<T>)
  {
    forall i, j :: 0 <= i < j < |s| ==> s[i] != s[j]
  }

  class XScreenServer {
    const desktop: DesktopManager
    /** `_window_to_id` and `_id_to_window` */
    var windowToId: map<Window, WindowId>
    var idToWindow: map<WindowId, Window>
    /** `_max_window_id`: the next id to hand out. */
    var maxWindowId: int
    /** `_protocol`: the active connection, and the source attached to it. */
    var protocol: Option<Conn>
    var source: ServerSource?
    /** `_maybe_protocols` */
    var maybeProtocols: seq<Conn>
    /** The connections this server has closed, in order. */
    var closed: seq<Conn>
    /** Whether `enable_deflate` was called on the active connection. */
    var deflate: bool
    /** The windows asked to close (`request_close`), in order. */
    var closeRequests: seq<Window>

    /** The two tables are inverse to each other, every id handed out is
        positive and below the next one, the desktop manager tracks exactly
        the windows that have ids, and a source exists exactly while a
        connection is active. */
    ghost predicate Valid()
      reads this, desktop
    {
      && (forall w :: w in windowToId ==> windowToId[w] in idToWindow && idToWindow[windowToId[w]] == w)
      && (forall id :: id in idToWindow ==> idToWindow[id] in windowToId && windowToId[idToWindow[id]] == id)
      && (forall id :: id in idToWindow ==> 1 <= id < maxWindowId)
      && maxWindowId >= 1
      && desktop.models.Keys == windowToId.Keys
      && (protocol.Some? <==> source != null)
    }

    /** The server starts with no windows and no connection; id 0 is never
        handed out. The windows the window manager already manages are then
        added one by one, in its order. */
    constructor (windows: seq<Window>, props: Window -> WindowProps)
      requires Distinct(windows)
      ensures Valid() && fresh(desktop)
      ensures protocol == None && source == null && maybeProtocols == [] && closed == []
      ensures !deflate && closeRequests == []
      ensures maxWindowId == |windows| + 1
      ensures forall i :: 0 <= i < |windows| ==> windows[i] in windowToId && windowToId[windows[i]] == i + 1
      ensures windowToId.Keys == set w | w in windows
      ensures desktop.models == map w | w in windows :: ModelState(false, props(w).geometry)
    {
      desktop := new DesktopManager();
      windowToId := map[];
      idToWindow := map[];
      maxWindowId := 1;
      protocol := None;
      source := null;
      maybeProtocols := [];
      closed := [];
      deflate := false;
      closeRequests := [];
      new;
      for n := 0 to |windows|
        invariant Valid() && fresh(desktop)
        invariant protocol == None && source == null && maybeProtocols == [] && closed == []
        invariant !deflate && closeRequests == []
        invariant maxWindowId == n + 1
        invariant forall i :: 0 <= i < n ==> windows[i] in windowToId && windowToId[windows[i]] == i + 1
        invariant windowToId.Keys == set w | w in windows[..n]
        invariant desktop.models == map w | w in windows[..n] :: ModelState(false, props(w).geometry)
      {
        assert windows[n] !in windows[..n] by {
          assert forall i :: 0 <= i < n ==> windows[i] != windows[n];
        }
        var id := AddNewWindow(windows[n], props);
        assert windows[..n + 1] == windows[..n] + [windows[n]];
      }
      assert windows[..|windows|] == windows;
    }

    /** The `new-window` packet for a tracked window. */
    function NewWindowPacket(window: Window, props: Window -> WindowProps): Packet
      reads this, desktop
      requires window in windowToId && window in desktop.models
    {
      NewWindowPacketOf(windowToId[window], desktop.WindowGeometry(window), props(window))
    }

    /** `_send`: queue the packet on the active connection, if there is one. */
    method Send(packet: Packet)
      requires Valid()
      modifies source
      ensures Valid()
      ensures source != null ==> source.ordinary == old(source.ordinary) + [packet] && source.damage == old(source.damage)
    {
      if protocol.Some? {
        source.QueueOrdinaryPacket(packet);
      }
    }

    /** `_damage`: accrue damage for the window on the active connection. */
    method DamageWindow(window: Window, rect: Rect)
      requires Valid() && window in windowToId
      modifies source
      ensures Valid()
      ensures source != null ==>
        && source.damage == Accrue(old(source.damage), windowToId[window], window, rect)
        && source.ordinary == old(source.ordinary)
    {
      if protocol.Some? {
        source.Damage(windowToId[window], window, rect);
      }
    }

    /** `_cancel_damage`: drop the window's pending damage on the active connection. */
    method CancelDamageWindow(window: Window)
      requires Valid() && window in windowToId
      modifies source
      ensures Valid()
      ensures source != null ==>
        source.damage == old(source.damage) - {windowToId[window]} && source.ordinary == old(source.ordinary)
    {
      if protocol.Some? {
        source.CancelDamage(windowToId[window]);
      }
    }

    /** `_send_new_window_packet` */
    method SendNewWindowPacket(window: Window, props: Window -> WindowProps)
      requires Valid() && window in windowToId
      modifies source
      ensures Valid()
      ensures source != null ==>
        source.ordinary == old(source.ordinary) + [NewWindowPacket(window, props)] && source.damage == old(source.damage)
    {
      var id := windowToId[window];
      var g := desktop.WindowGeometry(window);
      var metadata: Metadata := map[];
      var titleMd := MakeMetadata(props(window), TitleProperty);
      metadata := metadata + titleMd;
      var hintsMd := MakeMetadata(props(window), SizeHintsProperty);
      metadata := metadata + hintsMd;
      assert metadata == NewWindowMetadata(props(window));
      Send(NewWindow(id, g.x, g.y, g.w, g.h, metadata));
    }

    /** `_add_new_window`: the next id goes to the window, both tables
        learn the pair, the desktop manager starts tracking it (hidden) and
        an active connection is told about it. */
    method AddNewWindow(window: Window, props: Window -> WindowProps) returns (id: WindowId)
      requires Valid() && window !in windowToId
      modifies this, desktop, source
      ensures Valid()
      ensures id == old(maxWindowId) && id >= 1 && maxWindowId == id + 1
      ensures id !in old(idToWindow)
      ensures windowToId == old(windowToId)[window := id]
      ensures idToWindow == old(idToWindow)[id := window]
      ensures desktop.models == old(desktop.models)[window := ModelState(false, props(window).geometry)]
      ensures protocol == old(protocol) && source == old(source)
      ensures maybeProtocols == old(maybeProtocols) && closed == old(closed)
      ensures deflate == old(deflate) && closeRequests == old(closeRequests)
      ensures source != null ==>
        source.ordinary == old(source.ordinary) + [NewWindowPacket(window, props)] && source.damage == old(source.damage)
    {
      id := maxWindowId;
      maxWindowId := maxWindowId + 1;
      windowToId := windowToId[window := id];
      idToWindow := idToWindow[id := window];
      var g := props(window).geometry;
      desktop.AddWindow(window, g.x, g.y, g.w, g.h);
      SendNewWindowPacket(window, props);
    }

    /** `_update_metadata`: send the recomputed metadata of one property. */
    method UpdateMetadata(window: Window, name: ExportedProperty, props: Window -> WindowProps)
      requires Valid() && window in windowToId
      modifies source
      ensures Valid()
      ensures source != null ==>
        && source.ordinary == old(source.ordinary) + [WindowMetadata(windowToId[window], ExportedMetadata(props(window), name))]
        && source.damage == old(source.damage)
    {
      var id := windowToId[window];
      var metadata := MakeMetadata(props(window), name);
      Send(WindowMetadata(id, metadata));
    }

    /** `_lost_window`: tell the viewer, drop the pending damage and free
        both table entries. */
    method LostWindow(window: Window)
      requires Valid() && window in windowToId
      modifies this, source
      ensures windowToId == old(windowToId) - {window}
      ensures idToWindow == old(idToWindow) - {old(windowToId)[window]}
      ensures maxWindowId == old(maxWindowId) && protocol == old(protocol) && source == old(source)
      ensures maybeProtocols == old(maybeProtocols) && closed == old(closed)
      ensures deflate == old(deflate) && closeRequests == old(closeRequests)
      ensures source != null ==>
        && source.ordinary == old(source.ordinary) + [Packet.LostWindow(old(windowToId)[window])]
        && source.damage == old(source.damage) - {old(windowToId)[window]}
    {
      var id := windowToId[window];
      Send(Packet.LostWindow(id));
      CancelDamageWindow(window);
      windowToId := windowToId - {window};
      idToWindow := idToWindow - {id};
    }

    /** The window's "unmanaged" signal: `_lost_window` runs first (it was
        connected first), then the desktop manager's `_unmanaged`. */
    method WindowUnmanaged(window: Window)
      requires Valid() && window in windowToId
      modifies this, desktop, source
      ensures Valid()
      ensures windowToId == old(windowToId) - {window}
      ensures idToWindow == old(idToWindow) - {old(windowToId)[window]}
      ensures desktop.models == old(desktop.models) - {window}
      ensures maxWindowId == old(maxWindowId) && protocol == old(protocol) && source == old(source)
      ensures maybeProtocols == old(maybeProtocols) && closed == old(closed)
      ensures deflate == old(deflate) && closeRequests == old(closeRequests)
      ensures source != null ==>
        && source.ordinary == old(source.ordinary) + [Packet.LostWindow(old(windowToId)[window])]
        && source.damage == old(source.damage) - {old(windowToId)[window]}
    {
      LostWindow(window);
      desktop.Unmanaged(window);
    }

    /** `_redraw_needed`: damage is forwarded only for a visible window. */
    method RedrawNeeded(window: Window, rect: Rect)
      requires Valid() && window in windowToId
      modifies source
      ensures Valid()
      ensures source != null ==> source.ordinary == old(source.ordinary)
      ensures source != null && desktop.Visible(window) ==>
        source.damage == Accrue(old(source.damage), windowToId[window], window, rect)
      ensures source != null && !desktop.Visible(window) ==> source.damage == old(source.damage)
    {
      if desktop.Visible(window) {
        DamageWindow(window, rect);
      }
    }

    /** `_new_connection`, without the socket: the accepted connection
        waits for its hello. */
    method NewConnection(proto: Conn)
      requires Valid()
      modifies this
      ensures Valid()
      ensures maybeProtocols == old(maybeProtocols) + [proto]
      ensures protocol == old(protocol) && source == old(source) && closed == old(closed)
      ensures windowToId == old(windowToId) && idToWindow == old(idToWindow) && maxWindowId == old(maxWindowId)
      ensures deflate == old(deflate) && closeRequests == old(closeRequests)
    {
      maybeProtocols := maybeProtocols + [proto];
    }

    /** `_process_hello`: close the active connection if there is one, make
        `proto` the active one with a fresh source, answer with the common
        capabilities, then hide every tracked window and send one
        `new-window` packet per window (in the dictionary's order, reported
        in `order`). */
    method ProcessHello(proto: Conn, clientCapabilities: set<string>, props: Window -> WindowProps)
      returns (ghost order: seq<Window>)
      requires Valid()
      modifies this, desktop
      ensures Valid()
      ensures protocol == Some(proto) && source != null && fresh(source)
      ensures closed == old(closed) + (if old(protocol).Some? then [old(protocol).value] else [])
      ensures windowToId == old(windowToId) && idToWindow == old(idToWindow) && maxWindowId == old(maxWindowId)
      ensures maybeProtocols == old(maybeProtocols) && closeRequests == old(closeRequests)
      ensures Distinct(order) && (forall w :: w in order <==> w in windowToId)
      ensures source.ordinary ==
        [Hello(Capabilities * clientCapabilities)] + NewWindowPackets(order, windowToId, old(desktop.models), props)
      ensures source.damage == map[]
      ensures deflate <==> "deflate" in Capabilities && "deflate" in clientCapabilities
      ensures desktop.models == map w | w in old(desktop.models) :: ModelState(false, old(desktop.models)[w].geom)
    {
      if protocol.Some? {
        closed := closed + [protocol.value];
      }
      protocol := Some(proto);
      source := new ServerSource();
      var capabilities := Capabilities * clientCapabilities;
      Send(Hello(capabilities));
      deflate := "deflate" in capabilities;
      assert source.ordinary == [Hello(capabilities)] && source.damage == map[];
      assert Valid();
      order := ReannounceWindows(props);
    }

    /** The loop that ends `_process_hello`: every tracked window is hidden
        and announced to the new connection exactly once. */
    method ReannounceWindows(props: Window -> WindowProps) returns (ghost order: seq<Window>)
      requires Valid() && source != null
      modifies desktop, source
      ensures Valid() && unchanged(this)
      ensures Distinct(order) && (forall w :: w in order <==> w in windowToId)
      ensures source.ordinary == old(source.ordinary) + NewWindowPackets(order, windowToId, old(desktop.models), props)
      ensures source.damage == old(source.damage)
      ensures desktop.models == map w | w in old(desktop.models) :: ModelState(false, old(desktop.models)[w].geom)
    {
      var todo := windowToId.Keys;
      order := [];
      while todo != {}
        invariant Valid() && unchanged(this)
        invariant todo <= windowToId.Keys
        invariant Distinct(order)
        invariant forall w :: w in windowToId ==> (w in order <==> w !in todo)
        invariant forall w :: w in order ==> w in windowToId
        invariant source.ordinary == old(source.ordinary) + NewWindowPackets(order, windowToId, old(desktop.models), props)
        invariant source.damage == old(source.damage)
        invariant desktop.models.Keys == old(desktop.models).Keys
        invariant forall w :: w in desktop.models ==>
          desktop.models[w].geom == old(desktop.models)[w].geom
          && desktop.models[w].shown == (if w in order then false else old(desktop.models)[w].shown)
        decreases todo
      {
        var window :| window in todo;
        desktop.HideWindow(window);
        SendNewWindowPacket(window, props);
        ghost var before := order;
        order := order + [window];
        assert order[..|order| - 1] == before;
        todo := todo - {window};
      }
    }

    /** `_process_map_window`: show the window where the viewer mapped it
        and damage all of it. An unknown id raises before anything changes. */
    method ProcessMapWindow(id: WindowId, x: int, y: int, w: int, h: int) returns (known: bool)
      requires Valid()
      modifies desktop, source
      ensures Valid() && unchanged(this)
      ensures known <==> id in idToWindow
      ensures !known ==> unchanged(desktop) && (source != null ==> unchanged(source))
      ensures known ==>
        && desktop.models == old(desktop.models)[idToWindow[id] := ModelState(true, Geometry(x, y, w, h))]
        && (source != null ==>
              source.damage == Accrue(old(source.damage), id, idToWindow[id], Rect(0, 0, w, h))
              && source.ordinary == old(source.ordinary))
    {
      known := id in idToWindow;
      if !known {
        return;
      }
      var window := idToWindow[id];
      desktop.ShowWindow(window, x, y, w, h);
      DamageWindow(window, Rect(0, 0, w, h));
    }

    /** `_process_unmap_window`: hide the window and drop its pending damage. */
    method ProcessUnmapWindow(id: WindowId) returns (known: bool)
      requires Valid()
      modifies desktop, source
      ensures Valid() && unchanged(this)
      ensures known <==> id in idToWindow
      ensures !known ==> unchanged(desktop) && (source != null ==> unchanged(source))
      ensures known ==>
        && desktop.models == old(desktop.models)[idToWindow[id] := ModelState(false, old(desktop.models)[idToWindow[id]].geom)]
        && (source != null ==>
              source.damage == old(source.damage) - {id} && source.ordinary == old(source.ordinary))
    {
      known := id in idToWindow;
      if !known {
        return;
      }
      var window := idToWindow[id];
      desktop.HideWindow(window);
      CancelDamageWindow(window);
    }

    /** `_process_move_window`: show the window at the new position with
        the size it had. */
    method ProcessMoveWindow(id: WindowId, x: int, y: int) returns (known: bool)
      requires Valid()
      modifies desktop
      ensures Valid() && unchanged(this)
      ensures known <==> id in idToWindow
      ensures !known ==> unchanged(desktop)
      ensures known ==>
        var g := old(desktop.models)[idToWindow[id]].geom;
        desktop.models == old(desktop.models)[idToWindow[id] := ModelState(true, Geometry(x, y, g.w, g.h))]
    {
      known := id in idToWindow;
      if !known {
        return;
      }
      var window := idToWindow[id];
      var g := desktop.WindowGeometry(window);
      desktop.ShowWindow(window, x, y, g.w, g.h);
    }

    /** `_process_resize_window`: the old damage is dropped, the whole new
        size is damaged, and the window is shown at its position with the
        new size. */
    method ProcessResizeWindow(id: WindowId, w: int, h: int) returns (known: bool)
      requires Valid()
      modifies desktop, source
      ensures Valid() && unchanged(this)
      ensures known <==> id in idToWindow
      ensures !known ==> unchanged(desktop) && (source != null ==> unchanged(source))
      ensures known ==>
        var g := old(desktop.models)[idToWindow[id]].geom;
        && desktop.models == old(desktop.models)[idToWindow[id] := ModelState(true, Geometry(g.x, g.y, w, h))]
        && (source != null ==>
              source.damage == Accrue(old(source.damage) - {id}, id, idToWindow[id], Rect(0, 0, w, h))
              && source.ordinary == old(source.ordinary))
    {
      known := id in idToWindow;
      if !known {
        return;
      }
      var window := idToWindow[id];
      CancelDamageWindow(window);
      DamageWindow(window, Rect(0, 0, w, h));
      var g := desktop.WindowGeometry(window);
      desktop.ShowWindow(window, g.x, g.y, w, h);
    }

    /** `_process_window_order`: every id is looked up (an unknown one
        raises); restacking itself is native and changes no state here. */
    method ProcessWindowOrder(ids: seq<WindowId>) returns (known: bool)
      requires Valid()
      ensures known <==> forall i :: 0 <= i < |ids| ==> ids[i] in idToWindow
    {
      known := true;
      for i := 0 to |ids|
        invariant known <==> forall j :: 0 <= j < i ==> ids[j] in idToWindow
      {
        if ids[i] !in idToWindow {
          return false;
        }
      }
    }

    /** `_process_close_window`: the window the id names is asked to close;
        an unknown id raises before any request is made. */
    method ProcessCloseWindow(id: WindowId) returns (known: bool)
      requires Valid()
      modifies this
      ensures Valid()
      ensures known <==> id in old(idToWindow)
      ensures known ==> closeRequests == old(closeRequests) + [old(idToWindow)[id]]
      ensures !known ==> closeRequests == old(closeRequests)
      ensures windowToId == old(windowToId) && idToWindow == old(idToWindow) && maxWindowId == old(maxWindowId)
      ensures protocol == old(protocol) && source == old(source) && maybeProtocols == old(maybeProtocols)
      ensures closed == old(closed) && deflate == old(deflate)
    {
      known := id in idToWindow;
      if known {
        closeRequests := closeRequests + [idToWindow[id]];
      }
    }

    /** `_process_connection_lost`: close it, forget it as a pending
        connection, and if it was the active one there is no active
        connection any more. */
    method ProcessConnectionLost(proto: Conn)
      requires Valid()
      modifies this
      ensures Valid()
      ensures closed == old(closed) + [proto]
      ensures maybeProtocols == RemoveFirst(old(maybeProtocols), proto)
      ensures old(protocol) == Some(proto) ==> protocol == None && source == null
      ensures old(protocol) != Some(proto) ==> protocol == old(protocol) && source == old(source)
      ensures windowToId == old(windowToId) && idToWindow == old(idToWindow) && maxWindowId == old(maxWindowId)
      ensures deflate == old(deflate) && closeRequests == old(closeRequests)
    {
      closed := closed + [proto];
      if proto in maybeProtocols {
        maybeProtocols := RemoveFirst(maybeProtocols, proto);
      }
      if protocol == Some(proto) {
        protocol := None;
        source := null;
      }
    }
  }
}
