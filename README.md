# XScreen core, modelled in Dafny

XScreen shows the windows of a remote X session on a local desktop. A
server runs as the window manager of the remote display. It gives every
managed window a stable integer id and tells the single active viewer about
each window: a `new-window` packet, then `window-metadata` whenever the
title or the size hints change. Each time a window is redrawn its damaged
area accrues in a per-window region, and the server streams that region back
rectangle by rectangle as RGB24 `draw` packets. The viewer opens a local
window per id and keeps a backing store of pixels. It paints the `draw`
packets into that store and reports mapping, moves, resizes, unmapping and
close requests back to the server. The server applies those requests to its
desktop manager.

The model follows the source's structure:

- `packets.dfy` (`Packets`): the packet vocabulary, the metadata keys and the
  capability set. `PacketQueue` stands in for the transport's outgoing queue.
- `regions.dfy` (`Regions`): rectangles, and a damage region as the set of
  pixels it covers.
- `rgb_data.dfy` (`RgbData`): `_get_rgb_data`. It clips the rectangle at the
  pixmap's right and bottom edges, captures it, and repacks padded rows into tight RGB24 rows.
- `scheduler.dfy` (`Scheduler`): `ServerSource`, the control-packet FIFO
  plus the per-window damage map, and `next_packet`.
- `desktop.dfy` (`Desktop`): `DesktopManager`, where each window is shown
  and whether it is shown, and its vote in the ownership election.
- `server.dfy` (`Server`): `XScreenServer`, with the id tables, metadata
  export, window-event handlers, connection handling and the packet
  handlers.
- `client_window.dfy` (`ClientWindows`): `ClientWindow`, with the title,
  the geometry hints, the backing store, `draw`, and the event-to-packet
  translation.
- `client.dfy` (`Client`): `XScreenClient`, with the id tables and the
  packet handlers.
- `wire.dfy` (`Wire`): end-to-end facts. What the server exports is what
  the viewer can read, and a `draw` packet carries exactly the captured
  pixels.

Objects whose fields the source updates in place are classes. Their methods
are specified against pure functions (`Accrue`, `AfterTake`, `DrawFor`,
`RgbDataOf`, `PackRows`, `ExportedMetadata`, `NewWindowPackets`,
`HintsUpTo`), and lemmas state what those functions guarantee. Window-system
calls that the core cannot see are parameters:

- the pixel capture (`Capture`), constrained by the pixbuf layout `Fits`;
- the rectangle chooser `get_rectangle_from_region` (`Chooser`), constrained
  by `ChooserOk`;
- the native window properties (`WindowProps`);
- the window geometry that GTK reports to event handlers.

A lookup of an unknown window id raises `KeyError` in the source before
anything changes. The server and viewer handlers model this as a `known`
flag (or `UnknownId` outcome) and leave all state untouched in that case.

The model follows the code as written, also in these places:

- The server's packet handlers do not check that a packet came from the
  active connection.
- `_process_hello` does not remove the connection from the list of pending
  connections.
- Which damaged window `next_packet` serves is the dictionary's first
  entry. Nothing in the code makes that choice fair, so the model reports
  the chosen window and promises no fairness.
- An unknown window id raises rather than being silently ignored.
- `damage` with a non-positive width or height still creates an entry with
  an empty region.

## Model

| member | source | states |
|---|---|---|
| Regions.EmptyRectUnion | xscreen/server.py:121-124 | damage with a non-positive width or height adds no pixel to the region |
| Regions.SubtractShrinks | xscreen/server.py:131-134 | subtracting a non-empty rectangle that lies inside the region strictly shrinks it, in the subset order and in size |
| Regions.ChoiceExists | xscreen/server.py:132 | the chooser's contract can be met: every region contains a rectangle, and a non-empty one when the region is non-empty |
| RgbData.Clip | xscreen/server.py:151-157 | only the right and bottom edges are clipped: the sent rectangle keeps the requested origin (a negative one included), ends no further right or lower than the pixmap, never exceeds the request, and covers exactly the requested pixels left of the pixmap's right edge and above its bottom edge; otherwise it is the all-zero rectangle |
| RgbData.PackRowsLength | xscreen/server.py:162-170 | repacking `height` rows yields exactly `height * rowwidth` bytes |
| RgbData.PackRowsRow | xscreen/server.py:166-169 | row i of the repacked data is row i of the captured buffer without its padding |
| RgbData.PackRowsTight | xscreen/server.py:164-165 | when the rows are not padded, repacking returns the buffer unchanged, so the shortcut agrees with the loop |
| RgbData.PackRowsPrefix | xscreen/server.py:166-169 | only the bytes of the first `height` rows affect the repacked data |
| RgbData.Repack | xscreen/server.py:165-170 | the row-joining loop computes the repacked rows `PackRows` |
| RgbData.FitsPacks | xscreen/server.py:158-170 | a buffer laid out as GDK lays out an RGB pixbuf can be repacked, gives `w * h * 3` bytes, and needs no repacking when its rowstride is `3 * w` |
| RgbData.RgbDataOfShape | xscreen/server.py:150-171 | the result is the empty answer, or a non-empty rectangle at the requested origin (a negative one included), ending no further right or lower than the pixmap and within the request, with `w * h * 3` bytes |
| RgbData.GetRgbData | xscreen/server.py:150-171 | the method computes `RgbDataOf`, including the tight-buffer shortcut, and its result has the shape above |
| Scheduler.AfterTakeShape | xscreen/server.py:131-136 | taking a rectangle removes exactly its pixels from that window's region, deletes the entry once it is empty, and touches no other entry |
| Scheduler.AfterTakeKeepsNoEmpty | xscreen/server.py:133-136 | after a take no damage entry is left with an empty region |
| Scheduler.AfterTakeShrinks | xscreen/server.py:130-136 | with a chooser that meets its contract, every take strictly shrinks the region it takes from or deletes it |
| Scheduler.AccrueShape | xscreen/server.py:121-125 | damage adds exactly the rectangle's pixels to that id's region, keeps the window of an existing entry, leaves every other entry alone, and with a non-empty rectangle leaves no empty entry |
| Scheduler.DrawForShape | xscreen/server.py:136-145 | every `draw` packet carries the window's id, the rgb24 coding, a non-empty rectangle at the requested origin (a negative one included), ending no further right or lower than the pixmap, and exactly `w * h * 3` bytes |
| Scheduler.ServerSource.constructor | xscreen/server.py:101-107 | a new source has no packets and no damage, so it signals nothing |
| Scheduler.ServerSource.QueueOrdinaryPacket | xscreen/server.py:112-115 | the packet goes to the back of the FIFO, the damage is unchanged, and the protocol is signalled |
| Scheduler.ServerSource.CancelDamage | xscreen/server.py:117-119 | exactly that id's entry is dropped, if present; nothing else changes |
| Scheduler.ServerSource.Damage | xscreen/server.py:121-125 | the damage map becomes `Accrue` of the old one, and the protocol is signalled |
| Scheduler.ServerSource.NextPacket | xscreen/server.py:127-148 | an ordinary packet always goes first, in FIFO order, and leaves the damage alone; with no packets and no damage the result is none; otherwise one entry loses one chosen rectangle (`AfterTake`) and the packet is `DrawFor` that rectangle; the flag, `_have_more` (lines 109-110), is true exactly when a packet or some damage is left; entries never become empty |
| Desktop.DesktopManager.constructor | xscreen/server.py:26-31 | the manager starts tracking no window |
| Desktop.DesktopManager.AddWindow | xscreen/server.py:34-46 | a new window is tracked hidden at its initial geometry, nothing else changes, and the getters read that back: `window_geometry` returns that geometry, `window_size` and `window_position` (lines 86-94) its size and origin, and `_elect_me` (lines 76-80) yields the window (-1) |
| Desktop.DesktopManager.ShowWindow | xscreen/server.py:48-54 | the window is shown at the given geometry and nothing else changes; `visible` and `window_geometry` (lines 45-46, 62-63) read that back, `window_size` and `window_position` (lines 86-94) return the given size and origin, and `_elect_me` (lines 76-80) claims the window (+1) |
| Desktop.DesktopManager.HideWindow | xscreen/server.py:56-63 | the window is hidden and nothing else changes: `visible` reads false, `window_geometry`, `window_size` and `window_position` (lines 45-46, 86-94) return what they returned before, and `_elect_me` (lines 76-80) yields the window (-1) |
| Desktop.DesktopManager.Unmanaged | xscreen/server.py:73-74 | exactly that window is forgotten |
| Server.NewWindowMetadataShape | xscreen/server.py:266-272 | `new-window` metadata is well typed; it has the title exactly when the window has one, and each size-constraint key exactly when the window has that hint |
| Server.MakeMetadata | xscreen/server.py:229-250 | the loop over the size-hint table exports exactly the hints that are present, each under its key as a pair, and the title as text when there is one |
| Server.RemoveFirst | xscreen/server.py:346-347 | removing a connection drops its first occurrence, if there is one, and keeps the others in order; a connection not in the list leaves it unchanged |
| Server.XScreenServer.constructor | xscreen/server.py:174-197 | ids 1, 2, … go to the already-managed windows in order; id 0 is never used; the tables are inverse; every window is tracked by the desktop manager, hidden at its client window's geometry; there is no connection |
| Server.XScreenServer.Send | xscreen/server.py:252-254 | the packet is queued on the active connection's source when there is one |
| Server.XScreenServer.DamageWindow | xscreen/server.py:256-259 | with an active source, the window's damage accrues under its id |
| Server.XScreenServer.CancelDamageWindow | xscreen/server.py:261-264 | with an active source, the window's pending damage is dropped |
| Server.XScreenServer.SendNewWindowPacket | xscreen/server.py:266-272 | the queued `new-window` packet carries the window's id, its recorded geometry, and the merged title and size-hint metadata |
| Server.XScreenServer.AddNewWindow | xscreen/server.py:216-227 | the next id goes to the window; both tables learn the pair; the desktop manager tracks it hidden; an active viewer is told; the tables stay inverse |
| Server.XScreenServer.UpdateMetadata | xscreen/server.py:274-277 | the recomputed metadata of the changed property is sent under the window's id |
| Server.XScreenServer.LostWindow | xscreen/server.py:279-284 | `lost-window` is sent, pending damage for the id is dropped, and both table entries go |
| Server.XScreenServer.WindowUnmanaged | xscreen/server.py:279-284 | losing a window (`_lost_window`, with the desktop manager's `_unmanaged` at lines 73-74) removes it from both tables and from the desktop manager together, so the invariant holds, and every other field stays |
| Server.XScreenServer.RedrawNeeded | xscreen/server.py:286-288 | damage is recorded only for a window that is shown |
| Server.XScreenServer.NewConnection | xscreen/server.py:202-206 | an accepted connection joins the pending list and nothing else changes |
| Server.XScreenServer.ProcessHello | xscreen/server.py:290-305 | the previous active connection is closed; the new one gets a fresh source; the first packet is `hello` with the common capabilities; compression is on exactly when both sides offer it; then every tracked window is hidden and announced exactly once |
| Server.XScreenServer.ReannounceWindows | xscreen/server.py:303-305 | each tracked window is hidden and gets one `new-window` packet, each window once, with its old geometry |
| Server.XScreenServer.ProcessMapWindow | xscreen/server.py:306-310 | a known window is shown where the viewer mapped it, and all of it is damaged; an unknown id changes nothing |
| Server.XScreenServer.ProcessUnmapWindow | xscreen/server.py:312-316 | a known window is hidden with its geometry kept, and its damage dropped; an unknown id changes nothing |
| Server.XScreenServer.ProcessMoveWindow | xscreen/server.py:318-322 | a known window is shown at the new position with its old size; an unknown id changes nothing |
| Server.XScreenServer.ProcessResizeWindow | xscreen/server.py:324-330 | old damage is replaced by damage over the whole new size, and the window is shown at its position with the new size; an unknown id changes nothing |
| Server.XScreenServer.ProcessWindowOrder | xscreen/server.py:332-336 | the request succeeds exactly when every id in it is known |
| Server.XScreenServer.ProcessCloseWindow | xscreen/server.py:338-341 | the window the id names is asked to close, once, and nothing else changes; an unknown id changes nothing |
| Server.XScreenServer.ProcessConnectionLost | xscreen/server.py:343-348 | the connection is closed and leaves the pending list; if it was active, no connection is active any more; otherwise the active one stays |
| ClientWindows.TitleFor | xscreen/client.py:29-32 | the shown title is the metadata's title, or the placeholder, followed by the " (via XScreen)" suffix, and the title can be read back from it |
| ClientWindows.TableIndex | xscreen/client.py:34-39 | every geometry-hint name is set by exactly one row of the table, from one half of that row's pair |
| ClientWindows.HintsUpToShape | xscreen/client.py:33-41 | a hint is set exactly when its row's key is present, and then to its half of that key's pair |
| ClientWindows.HintsEmpty | xscreen/client.py:42-43 | the hints are empty exactly when no size-constraint key is present, so geometry hints are set only when some key is |
| ClientWindows.GeometryHints | xscreen/client.py:33-41 | the loop over the table computes `HintsUpTo` of the whole table |
| ClientWindows.Reallocated | xscreen/client.py:45-64 | a fresh w x h store keeps the old pixels where the two overlap and is white elsewhere |
| ClientWindows.ClientWindow.constructor | xscreen/client.py:9-24 | a new window has a 1x1 store, has reported position (-1, -1) and size 1x1, holds the given metadata and its title, sets geometry hints once exactly when the metadata has a size key, and its default size is the packet's size |
| ClientWindows.ClientWindow.UpdateMetadata | xscreen/client.py:26-43 | new keys override and all other keys keep their values; the title follows the merged metadata; one hints call, with the hints of the merged metadata, is added exactly when some size key is present; position, size and store are kept |
| ClientWindows.ClientWindow.NewBacking | xscreen/client.py:45-64 | the store gets the new size; old pixels stay where they were, and everything outside the old extent is white, whether the window grew or shrank |
| ClientWindows.ClientWindow.Draw | xscreen/client.py:66-73 | the draw succeeds exactly when the data holds `w * h * 3` bytes; then the rectangle is painted from the data, clipped to the store, and every other pixel keeps its value; a failed draw paints nothing |
| ClientWindows.ClientWindow.MapEvent | xscreen/client.py:91-97 | mapping reports the whole geometry once and records it |
| ClientWindows.ClientWindow.ConfigureEvent | xscreen/client.py:99-109 | a move is reported only when the position changed, and a resize only when the size changed; only a resize reallocates the store, keeping the overlapping pixels |
| ClientWindows.ClientWindow.UnmapEvent | xscreen/client.py:111-112 | unmapping sends `unmap-window` for the window's id |
| ClientWindows.ClientWindow.DeleteEvent | xscreen/client.py:114-116 | a close request is sent to the server, and the window stays open here |
| Client.XScreenClient.constructor | xscreen/client.py:121-131 | the tables start empty, and the first packet queued is `hello` with this side's capabilities |
| Client.XScreenClient.ProcessHello | xscreen/client.py:133-136 | compression is switched on exactly when the server offers it |
| Client.XScreenClient.ProcessNewWindow | xscreen/client.py:138-143 | a fresh window for the id, with the packet's metadata, its title and hints calls, and the packet's size as default size, starts with a 1x1 store and no reported geometry, and enters both tables; they stay inverse when the id was new |
| Client.XScreenClient.ProcessDraw | xscreen/client.py:145-149 | an unknown id, a coding other than rgb24, and a wrong data length are each told apart and paint nothing; otherwise exactly the named window's rectangle is painted |
| Client.XScreenClient.ProcessWindowMetadata | xscreen/client.py:151-154 | the named window merges the metadata, retitles itself and records one hints call when some size key is present; its position, size, store and default size stay; an unknown id changes nothing; the tables stay inverse |
| Client.XScreenClient.ProcessLostWindow | xscreen/client.py:156-161 | the id and its window leave both tables together, and the tables stay inverse |
| Client.XScreenClient.ProcessConnectionLost | xscreen/client.py:163-164 | the viewer quits its main loop and nothing else changes |
| Wire.WellTypedIsReadable | xscreen/client.py:40-41 | every metadata dictionary of the shape the server produces is one the viewer can read |
| Wire.TitleShown | xscreen/client.py:29-32 | the viewer's title for a `new-window` packet is the native window's title, or the placeholder, plus the suffix |
| Wire.HintsShown | xscreen/client.py:33-41 | the viewer's geometry hints for a `new-window` packet are the native window's maximum, minimum and base size and resize increment, each present exactly when the window has that hint |
| Wire.PackRowsByte | xscreen/server.py:166-169 | byte k of row j of the repacked data is byte k of row j of the captured buffer |
| Wire.PackedPixel | xscreen/server.py:158-170 | pixel (i, j) of the repacked rows of a pixbuf with the GDK layout is the pixel at column i of row j of that pixbuf |
| Wire.DrawnPixel | xscreen/server.py:158-171 | pixel (i, j) of a `draw` packet, as the viewer reads it, is the pixel at column i of row j of the captured pixbuf |

## Left out

- Sockets, the socket address, `Protocol` framing and deflate compression are not part of this model. `PacketQueue` only records the packets queued, and `deflate` records whether compression was switched on.
- The `process_packet` dispatch tables on both sides are not modelled as one operation. Each handler is its own method. A packet type with no handler raises `KeyError` in the source.
- GTK and wimpiggy plumbing is left out: signal connection, the world window and `_focus_dropped`, `take_window`, the `iconic` property, `ownership_election` and `maybe_recalculate_geometry_for`, `set_app_paintable`, `show_all`, `destroy` and `__del__`. These are native calls with no state in the core.
- `DesktopManager.reorder_windows` is native restacking. `ProcessWindowOrder` models only the id lookups, which can fail. `request_close` is native closing; `ProcessCloseWindow` records each request in `closeRequests` and models no further effect.
- `do_expose_event` is left out. It copies the backing store to the screen and changes no state.
- Title encoding is left out. The title travels as a character string, and UTF-8 encoding and decoding are identity here.
- Pixel values of the server's pixmaps are left out. A `Pixmap` is its size plus an opaque handle, and its pixels reach the model only through the `Capture` parameter.
- `print` output is left out.
- Scheduler.ServerSource.NextPacket: the window it serves is an arbitrary key of the damage map. The source uses the dictionary's first entry, and the model reports the choice in a ghost out-parameter. Fairness is not promised, because the code does not provide it.
- Scheduler.ServerSource.NextPacket: `get_rectangle_from_region` is a parameter. Its contract is only that the rectangle lies inside the region and is non-empty for a non-empty region.
- Scheduler.ServerSource.NextPacket: assumes that `get_rectangle_from_region` returns an empty rectangle for an empty region, so an empty entry left by a degenerate `damage` is dropped without sending anything. If the native call raised on an empty region instead, the entry would stay and every later `next_packet` would raise; that behaviour is not modelled.
- `xscreen/client.py` uses `Protocol` and `CAPABILITIES` without importing them. The model assumes they are the ones from `xscreen.protocol` that the server uses. `xscreen/protocol.py` is not part of this model, so the capability set `Capabilities == {"deflate"}` in `packets.dfy` is an assumption.
- Desktop.DesktopManager.ShowWindow, HideWindow and Unmanaged require a tracked window. With an untracked one the source raises `KeyError`. The server calls them only with tracked windows, which `XScreenServer.Valid` guarantees.
- Server.XScreenServer.AddNewWindow requires a window that has no id yet. The window manager signals each window once.
- Server.XScreenServer.constructor requires the initial window list to have no repeats, for the same reason.
- ClientWindows.ClientWindow.constructor: does not state the contents of the initial 1x1 store, because a fresh GDK pixmap's contents are undefined.
- ClientWindows.ClientWindow.UpdateMetadata requires metadata the viewer can read. With a size key that is not a pair, the source raises after merging, and that path is not modelled. `Wire.WellTypedIsReadable` shows that the server sends only readable metadata.
- Client.XScreenClient.ProcessNewWindow: keeps the tables inverse only when the id is new. With a repeated id the source overwrites the entry and leaves the older window in the reverse table, and the model states exactly that.
- ClientWindows.ClientWindow.Draw: models `draw_rgb_image` as a write clipped to the store, with the data's rows `3 * width` bytes apart. The `invalidate_rect` redraw request is left out.
