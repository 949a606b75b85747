/** The viewer side of a connection (`XScreenClient`): it greets the server,
    keeps a two-way table between window ids and its local windows, and
    routes each server packet to the window it names. */
module Client {
  import opened Packets
  import opened ClientWindows

  /** How `_process_draw` ended: the id has no window (a `KeyError`), the
      coding is not RGB24 or the data has the wrong length (a failed
      assertion), or the rectangle was painted. */
  datatype DrawOutcome = UnknownId | BadCoding | BadLength | Drawn

  class XScreenClient {
    const protocol: PacketQueue
    /** `_id_to_window` and `_window_to_id` */
    var idToWindow: map<WindowId, ClientWindow>
    var windowToId: map<ClientWindow, WindowId>
    /** Whether `enable_deflate` has been called on the protocol. */
    var deflate: bool
    /** Whether `gtk.main_quit` has been called. */
    var quit: bool

    /** The two tables are inverse to each other, and every window can read
        its metadata. */
    ghost predicate Valid()
      reads this, idToWindow.Values
    {
      && (forall id :: id in idToWindow ==> idToWindow[id] in windowToId && windowToId[idToWindow[id]] == id)
      && (forall w :: w in windowToId ==> windowToId[w] in idToWindow && idToWindow[windowToId[w]] == w)
      && (forall id :: id in idToWindow ==> idToWindow[id].Valid())
    }

    /** Connecting: both tables start empty and the first packet queued is
        `hello` with this side's capabilities. */
    constructor ()
      ensures Valid()
      ensures fresh(protocol) && protocol.queued == [Hello(Capabilities)]
      ensures idToWindow == map[] && windowToId == map[]
      ensures !deflate && !quit
    {
      var queue := new PacketQueue();
      queue.QueuePacket(Hello(Capabilities));
      protocol := queue;
      idToWindow := map[];
      windowToId := map[];
      deflate := false;
      quit := false;
    }

    /** `_process_hello`: compression is switched on exactly when the
        server offers it; nothing else changes. */
    method ProcessHello(capabilities: set<string>)
      modifies this
      ensures deflate <==> old(deflate) || "deflate" in capabilities
      ensures idToWindow == old(idToWindow) && windowToId == old(windowToId) && quit == old(quit)
    {
      if "deflate" in capabilities {
        deflate := true;
      }
    }

    /** `_process_new_window`: a new local window for `id`, entered in both
        tables. The tables stay inverse when the id was not in use; the
        source does not check that it was not. */
    method ProcessNewWindow(id: WindowId, x: int, y: int, w: int, h: int, metadata: Metadata)
      returns (window: ClientWindow)
      requires Valid() && Readable(metadata)
      modifies this
      ensures fresh(window) && window.protocol == protocol && window.id == id
      ensures window.metadata == metadata && window.title == TitleFor(metadata) && window.defaultSize == (w, h)
      ensures window.hintsSet == HintsCalls(metadata) && window.Valid()
      ensures window.pos == (-1, -1) && window.size == (1, 1)
      ensures fresh(window.backing) && window.backing.Length0 == 1 && window.backing.Length1 == 1
      ensures idToWindow == old(idToWindow)[id := window]
      ensures windowToId == old(windowToId)[window := id]
      ensures deflate == old(deflate) && quit == old(quit)
      ensures id !in old(idToWindow) ==> Valid()
    {
      window := new ClientWindow(protocol, id, x, y, w, h, metadata);
      idToWindow := idToWindow[id := window];
      windowToId := windowToId[window := id];
    }

    /** `_process_draw`: look the window up, check the coding, then let the
        window paint the rectangle (which checks the length first). Only
        that window's backing store can change, and only when the packet
        passed every check. */
    method ProcessDraw(id: WindowId, x: int, y: int, width: int, height: int, coding: string, data: seq<bv8>)
      returns (outcome: DrawOutcome)
      requires Valid()
      modifies if id in idToWindow then {idToWindow[id].backing} else {}
      ensures outcome == UnknownId <==> id !in idToWindow
      ensures outcome == BadCoding <==> id in idToWindow && coding != Rgb24
      ensures outcome == BadLength <==> id in idToWindow && coding == Rgb24 && |data| != width * height * 3
      ensures outcome != Drawn ==> id !in idToWindow || unchanged(idToWindow[id].backing)
      ensures outcome == Drawn ==>
        var b := idToWindow[id].backing;
        forall i, j :: 0 <= i < b.Length0 && 0 <= j < b.Length1 ==>
          b[i, j] == if x <= i < x + width && y <= j < y + height
                     then RgbPixel(data, width, i - x, j - y) else old(b[i, j])
    {
      if id !in idToWindow {
        return UnknownId;
      }
      var window := idToWindow[id];
      if coding != Rgb24 {
        return BadCoding;
      }
      var ok := window.Draw(x, y, width, height, data);
      outcome := if ok then Drawn else BadLength;
    }

    /** `_process_window_metadata`: the named window merges the new
        metadata; no other window and neither table changes. */
    method ProcessWindowMetadata(id: WindowId, metadata: Metadata) returns (known: bool)
      requires Valid() && Readable(metadata)
      modifies if id in idToWindow then {idToWindow[id]} else {}
      ensures known <==> id in idToWindow
      ensures Valid()
      ensures idToWindow == old(idToWindow) && windowToId == old(windowToId)
      ensures known ==>
        var window := idToWindow[id];
        && window.metadata == old(window.metadata) + metadata
        && window.title == TitleFor(window.metadata)
        && window.hintsSet == old(window.hintsSet) + HintsCalls(window.metadata)
        && window.pos == old(window.pos) && window.size == old(window.size)
        && window.backing == old(window.backing) && window.defaultSize == old(window.defaultSize)
    {
      known := id in idToWindow;
      if known {
        var window := idToWindow[id];
        window.UpdateMetadata(metadata);
        forall other | other in idToWindow ensures idToWindow[other].Valid() {
          if other != id {
            assert idToWindow[other] != window;
          }
        }
      }
    }

    /** `_process_lost_window`: the id and its window leave both tables
        together; every other entry stays. */
    method ProcessLostWindow(id: WindowId) returns (known: bool)
      requires Valid()
      modifies this
      ensures known <==> id in old(idToWindow)
      ensures !known ==> idToWindow == old(idToWindow) && windowToId == old(windowToId)
      ensures known ==> idToWindow == old(idToWindow) - {id}
      ensures known ==> windowToId == old(windowToId) - {old(idToWindow)[id]}
      ensures Valid()
      ensures id !in idToWindow
      ensures deflate == old(deflate) && quit == old(quit)
    {
      known := id in idToWindow;
      if known {
        var window := idToWindow[id];
        idToWindow := idToWindow - {id};
        windowToId := windowToId - {window};
      }
    }

    /** `_process_connection_lost`: leave the main loop. */
    method ProcessConnectionLost()
      modifies this
      ensures quit
      ensures idToWindow == old(idToWindow) && windowToId == old(windowToId) && deflate == old(deflate)
    {
      quit := true;
    }
  }
}
