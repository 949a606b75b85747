/** The per-connection packet source of the server (`ServerSource`): a FIFO
    of ordinary packets and, per window id, the region of the window that
    changed and has not been sent yet. Ordinary packets always go first;
    otherwise one rectangle is taken out of one damaged window's region and
    sent as a `draw` packet. */
module Scheduler {
  import opened Packets
  import opened Regions
  import opened RgbData

  /** One pending damage entry: the window it belongs to and its region. */
  datatype DamageEntry = DamageEntry(window: Window, region: Region)

  type DamageMap = map<WindowId, DamageEntry>

  /** `get_rectangle_from_region`, a foreign call: some rectangle inside the
      region, a non-empty one whenever the region is non-empty. */
  type Chooser = Region -> Rect

  ghost predicate ChooserOk(choose: Chooser)
  {
    forall g: Region :: Points(choose(g)) <= g && (g != {} ==> Points(choose(g)) != {})
  }

  /** Every entry still has something to send. */
  ghost predicate NoEmptyEntries(d: DamageMap)
  {
    forall id :: id in d ==> d[id].region != {}
  }

  /** The damage map after rectangle `rect` has been taken out of the entry
      of `id`: the entry shrinks, and is deleted once it is empty. */
  function AfterTake(d: DamageMap, id: WindowId, rect: Rect): DamageMap
    requires id in d
  {
    var rest := SubtractRect(d[id].region, rect);
    if rest == {} then d - {id} else d[id := DamageEntry(d[id].window, rest)]
  }

  /** Taking a rectangle touches no other entry, never leaves an empty entry
      behind, and (for a non-empty rectangle inside the region) strictly
      shrinks the region of the entry it was taken from. */
  lemma AfterTakeShape(d: DamageMap, id: WindowId, rect: Rect)
    requires id in d
    ensures var d' := AfterTake(d, id, rect);
      && d'.Keys <= d.Keys
      && (forall other :: other in d && other != id ==> other in d' && d'[other] == d[other])
      && (id in d' <==> d[id].region - Points(rect) != {})
      && (id in d' ==> d'[id].window == d[id].window && d'[id].region == d[id].region - Points(rect))
  {
  }

  /** Taking a rectangle keeps the invariant that no entry is empty. */
  lemma {:induction false} AfterTakeKeepsNoEmpty(d: DamageMap, id: WindowId, rect: Rect)
    requires id in d && NoEmptyEntries(d)
    ensures NoEmptyEntries(AfterTake(d, id, rect))
  {
    var d' := AfterTake(d, id, rect);
    forall other | other in d' ensures d'[other].region != {} {
      if other != id {
        assert d'[other] == d[other];
      }
    }
  }

  /** Each step makes progress: with a chooser that honours its contract, the
      region of the entry taken from strictly shrinks (or the entry goes). */
  lemma {:induction false} AfterTakeShrinks(d: DamageMap, id: WindowId, choose: Chooser)
    requires id in d && d[id].region != {} && ChooserOk(choose)
    ensures var d' := AfterTake(d, id, choose(d[id].region));
      id in d' ==> d'[id].region < d[id].region
  {
    var rect := choose(d[id].region);
    assert Points(rect) <= d[id].region && Points(rect) != {};
    SubtractShrinks(d[id].region, rect);
  }

  /** The damage map after `damage(id, window, rect)`: the rectangle is
      unioned into the entry of `id`, an entry with an empty region being
      created first when there is none (`setdefault`). */
  function Accrue(d: DamageMap, id: WindowId, window: Window, rect: Rect): DamageMap
  {
    var entry := if id in d then d[id] else DamageEntry(window, {});
    d[id := DamageEntry(entry.window, UnionWithRect(entry.region, rect))]
  }

  /** Accruing damage adds exactly the rectangle's pixels to that id's region,
      keeps the window an existing entry was created with, and leaves every
      other entry alone; with a non-empty rectangle it keeps every entry
      non-empty. */
  lemma {:induction false} AccrueShape(d: DamageMap, id: WindowId, window: Window, rect: Rect)
    ensures var d' := Accrue(d, id, window, rect);
      && d'.Keys == d.Keys + {id}
      && d'[id].window == (if id in d then d[id].window else window)
      && d'[id].region == (if id in d then d[id].region else {}) + Points(rect)
      && (forall other :: other in d && other != id ==> d'[other] == d[other])
      && (rect.w > 0 && rect.h > 0 && NoEmptyEntries(d) ==> NoEmptyEntries(d'))
  {
    if rect.w > 0 && rect.h > 0 {
      NonEmptyRectHasPoints(rect);
    }
  }

  /** The packet produced for a rectangle taken from `id`'s entry: nothing
      when the window has no contents or the clipped rectangle is empty,
      otherwise a `draw` packet with the clipped rectangle and its bytes
      (xscreen/server.py, lines 137-145). */
  function DrawFor(id: WindowId, window: Window, rect: Rect, contents: map<Window, Pixmap>, capture: Capture): Option<Packet>
    requires CaptureFits(capture)
  {
    if window !in contents then None
    else
      var r := RgbDataOf(contents[window], rect, capture);
      if r.w == 0 || r.h == 0 then None
      else Some(Draw(id, r.x, r.y, r.w, r.h, Rgb24, r.data))
  }

  /** Every `draw` packet the source produces carries a non-empty rectangle
      at the requested origin (a negative one included) that ends no further
      right or lower than the window's pixmap, and exactly `w * h * 3` bytes,
      so it passes the viewer's length check. */
  lemma DrawForShape(id: WindowId, window: Window, rect: Rect, contents: map<Window, Pixmap>, capture: Capture)
    requires CaptureFits(capture)
    ensures var p := DrawFor(id, window, rect, contents, capture);
      p.Some? ==>
        && window in contents
        && p.value.Draw? && p.value.id == id && p.value.coding == Rgb24
        && p.value.x == rect.x && p.value.y == rect.y
        && 0 < p.value.w <= rect.w && 0 < p.value.h <= rect.h
        && p.value.x + p.value.w <= contents[window].width
        && p.value.y + p.value.h <= contents[window].height
        && |p.value.data| == p.value.w * p.value.h * 3
  {
    if window in contents {
      RgbDataOfShape(contents[window], rect, capture);
    }
  }

  class ServerSource {
    /** `_ordinary_packets`, oldest first. */
    var ordinary: seq<Packet>
    /** `_damage` */
    var damage: DamageMap
    /** How many times `source_has_more()` has been signalled to the protocol. */
    var signals: nat

    /** A fresh source has nothing to send, so it signals nothing. */
    constructor ()
      ensures ordinary == [] && damage == map[] && signals == 0
    {
      ordinary := [];
      damage := map[];
      signals := 0;
    }

    /** `_have_more` */
    function HaveMore(): bool
      reads this
    {
      |ordinary| > 0 || |damage| > 0
    }

    /** `queue_ordinary_packet`: append, then signal. */
    method QueueOrdinaryPacket(packet: Packet)
      modifies this
      ensures ordinary == old(ordinary) + [packet]
      ensures damage == old(damage)
      ensures signals == old(signals) + 1
      ensures HaveMore()
    {
      ordinary := ordinary + [packet];
      signals := signals + 1;
    }

    /** `cancel_damage`: drop that id's entry, if any; nothing else changes. */
    method CancelDamage(id: WindowId)
      modifies this
      ensures damage == old(damage) - {id}
      ensures id !in damage
      ensures forall other :: other in old(damage) && other != id ==> other in damage && damage[other] == old(damage)[other]
      ensures ordinary == old(ordinary) && signals == old(signals)
      ensures old(NoEmptyEntries(damage)) ==> NoEmptyEntries(damage)
    {
      if id in damage {
        damage := damage - {id};
      }
    }

    /** `damage`: accrue the rectangle into the entry of `id`, then signal. */
    method Damage(id: WindowId, window: Window, rect: Rect)
      modifies this
      ensures damage == Accrue(old(damage), id, window, rect)
      ensures ordinary == old(ordinary) && signals == old(signals) + 1
    {
      var entry := if id in damage then damage[id] else DamageEntry(window, {});
      damage := damage[id := DamageEntry(entry.window, UnionWithRect(entry.region, rect))];
      signals := signals + 1;
    }

    /** `next_packet`: the oldest ordinary packet if there is one, leaving
        the damage alone; otherwise one rectangle out of one damaged
        window's region (which window is the dictionary's choice, reported
        in `taken`). The flag says whether anything is left afterwards. */
    method NextPacket(contents: map<Window, Pixmap>, capture: Capture, choose: Chooser)
      returns (packet: Option<Packet>, haveMore: bool, ghost taken: WindowId)
      requires CaptureFits(capture) && ChooserOk(choose)
      modifies this
      ensures signals == old(signals)
      ensures haveMore <==> |ordinary| > 0 || |damage| > 0
      ensures old(ordinary) != [] ==>
        packet == Some(old(ordinary)[0]) && ordinary == old(ordinary)[1..] && damage == old(damage)
      ensures old(ordinary) == [] && |old(damage)| == 0 ==>
        packet == None && ordinary == [] && |damage| == 0
      ensures old(ordinary) == [] && |old(damage)| > 0 ==>
        && ordinary == []
        && taken in old(damage)
        && damage == AfterTake(old(damage), taken, choose(old(damage)[taken].region))
        && packet == DrawFor(taken, old(damage)[taken].window, choose(old(damage)[taken].region), contents, capture)
      ensures old(NoEmptyEntries(damage)) ==> NoEmptyEntries(damage)
      ensures old(ordinary) == [] ==> taken !in damage || damage[taken].region != {}
    {
      taken := 0;
      if ordinary != [] {
        packet := Some(ordinary[0]);
        ordinary := ordinary[1..];
      } else if |damage| > 0 {
        var keys := damage.Keys;
        assert exists k :: k in keys by {
          if forall k :: k !in keys {
            assert false;
          }
        }
        var id :| id in keys;
        taken := id;
        var entry := damage[id];
        var rect := choose(entry.region);
        var rest := SubtractRect(entry.region, rect);
        if rest == {} {
          damage := damage - {id};
        } else {
          damage := damage[id := DamageEntry(entry.window, rest)];
        }
        if NoEmptyEntries(old(damage)) {
          AfterTakeKeepsNoEmpty(old(damage), id, rect);
        }
        if entry.window !in contents {
          packet := None;
        } else {
          var res := GetRgbData(contents[entry.window], rect, capture);
          if res.w == 0 || res.h == 0 {
            packet := None;
          } else {
            packet := Some(Draw(id, res.x, res.y, res.w, res.h, Rgb24, res.data));
          }
        }
      } else {
        packet := None;
      }
      haveMore := HaveMore();
    }
  }
}
