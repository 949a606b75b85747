/** The packet vocabulary exchanged between the server and a viewer, and
    the one effect of the transport the core relies on: appending a packet
    to the outgoing queue. Framing, compression and the socket itself are
    not part of this model. */
module Packets {

  datatype Option<+T> = None | Some(value: T)

  /** Window ids are the integers the server hands out; 0 means "no window". */
  type WindowId = int

  /** A native window handle on the server (opaque). */
  datatype Window = Window(handle: nat)

  /** A transport connection (opaque). */
  datatype Conn = Conn(handle: nat)

  /** The values that travel in a metadata dictionary: the title (already
      encoded) and the size-constraint pairs. */
  datatype MetaValue = Text(s: string) | Pair(a: int, b: int)

  type Metadata = map<string, MetaValue>

  const TitleKey := "title"
  const MaximumSizeKey := "size-constraint:maximum-size"
  const MinimumSizeKey := "size-constraint:minimum-size"
  const BaseSizeKey := "size-constraint:base-size"
  const IncrementKey := "size-constraint:increment"
  const MinimumAspectKey := "size-constraint:minimum-aspect"
  const MaximumAspectKey := "size-constraint:maximum-aspect"

  /** The size-constraint keys the server exports, in the server's order. */
  const SizeKeys: seq<string> :=
    [MaximumSizeKey, MinimumSizeKey, BaseSizeKey, IncrementKey, MinimumAspectKey, MaximumAspectKey]

  /** The shape every metadata dictionary the server produces has: the
      title is text, every size constraint is a pair, nothing else appears. */
  ghost predicate WellTyped(md: Metadata)
  {
    && (forall k :: k in md ==> k == TitleKey || k in SizeKeys)
    && (TitleKey in md ==> md[TitleKey].Text?)
    && (forall k :: k in md && k in SizeKeys ==> md[k].Pair?)
  }

  const Rgb24 := "rgb24"

  /** The capabilities this implementation of the protocol offers. */
  const Capabilities: set<string> := {"deflate"}

  datatype Packet =
    | Hello(capabilities: set<string>)
    | NewWindow(id: WindowId, x: int, y: int, w: int, h: int, metadata: Metadata)
    | WindowMetadata(id: WindowId, metadata: Metadata)
    | LostWindow(id: WindowId)
    | Draw(id: WindowId, x: int, y: int, w: int, h: int, coding: string, data: seq<bv8>)
    | MapWindow(id: WindowId, x: int, y: int, w: int, h: int)
    | UnmapWindow(id: WindowId)
    | MoveWindow(id: WindowId, x: int, y: int)
    | ResizeWindow(id: WindowId, w: int, h: int)
    | WindowOrder(ids: seq<WindowId>)
    | CloseWindow(id: WindowId)
    | ConnectionLost

  /** The outgoing side of a transport as the core sees it: `queue_packet`
      appends, in order. */
  class PacketQueue {
    var queued: seq<Packet>

    constructor ()
      ensures queued == []
    {
      queued := [];
    }

    method QueuePacket(p: Packet)
      modifies this
      ensures queued == old(queued) + [p]
    {
      queued := queued + [p];
    }
  }
}
