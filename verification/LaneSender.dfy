/**
 One sender lane (`send_lane`, transfer.cpp): what it keeps about the blocks it has
 sent, the packing of a batch, and what an ACK does to it. Nothing here trusts an ACK.
 */
module LaneSender {
  import opened Word64
  import opened Control
  import opened Basics
  import opened Registry
  import opened Tiling
  import Modular

  const FLAG_RETRANSMISSION: nat := 1
  const FLAG_LAST_BLOCK: nat := 2

  /** What a lane has to send: its shard, the ranges asked for, the window in blocks. */
  datatype Lane = Lane(data: seq<byte>, ranges: seq<Range>, window: nat)
  {
    ghost predicate Ok() {
      && 1 <= window <= MAX_WINDOW && Usable(ranges)
      && forall r <- ranges :: r.End() <= |data|
    }

    ghost predicate Inside(t: Tile) { t.offset + t.length <= |data| }

    function Payload(t: Tile): seq<byte>
      requires Inside(t)
    {
      data[t.offset..t.offset + t.length]
    }

    function EntryOf(s: nat, t: Tile, now: nat): Entry
      requires Inside(t)
    {
      Entry(s, now, t.offset, Payload(t), if t.last then FLAG_LAST_BLOCK else 0, true)
    }
  }

  /** The sender's variables; `history` lists every block sent so far, so `next_seq == |history|`. */
  datatype Tx = Tx(
    ring: seq<Entry>, base: nat, cursor: Cursor, sentLast: bool,
    sentBytes: nat, ackedBytes: nat, receivedEnd: nat, history: seq<Tile>)
  {
    function Next(): nat { |history| }

    function InFlight(): int { sentBytes - ackedBytes }

    predicate CanSend(l: Lane) {
      && (cursor.ri < |l.ranges| || (l.ranges == [] && Next() == 0))
      && Next() < base + l.window
    }

    /** The ring holds only sent and unacknowledged blocks, each in its slot, exactly as first sent. */
    ghost predicate RingOk(l: Lane) {
      && |ring| == l.window && Placed(ring)
      && base <= Next() <= base + l.window
      && (forall s | 0 <= s < |history| :: l.Inside(history[s]))
      && (forall e <- ring :: e.valid ==> base <= e.s < Next() && e == l.EntryOf(e.s, history[e.s], e.sendTime))
    }

    /** The blocks sent so far are the front of the requested bytes; the last one alone is marked. */
    ghost predicate TilesOk(l: Lane) {
      && CursorOk(l.ranges, cursor)
      && TileBytes(history) + Remaining(l.ranges, cursor) == RangeBytes(l.ranges)
      && (forall s | 0 <= s < |history| :: history[s].last <==> sentLast && s == |history| - 1)
      && (sentLast <==> cursor.ri == |l.ranges| && history != [])
      && (history == [] ==> cursor == Start(l.ranges))
    }

    ghost predicate Inv(l: Lane) {
      && l.Ok() && RingOk(l) && TilesOk(l)
      && sentBytes == ackedBytes + ResidentBytes(ring)
    }
  }

  function Idle(l: Lane): Tx {
    Tx(seq(l.window, _ => VACANT), 0, Start(l.ranges), false, 0, 0, 0, [])
  }

  function SendNext(l: Lane, tx: Tx, size: nat, now: nat): Tx
    requires tx.Inv(l) && tx.CanSend(l) && size > 0
  {
    var t := Cut(l.ranges, tx.cursor, size);
    CutInside(l, tx.cursor, size);
    tx.(ring := tx.ring[tx.Next() % l.window := l.EntryOf(tx.Next(), t, now)],
        cursor := Advance(l.ranges, tx.cursor, t),
        sentLast := tx.sentLast || t.last,
        sentBytes := tx.sentBytes + t.length,
        history := tx.history + [t])
  }

  function OnAck(tx: Tx, ack: Ack): Tx
    requires ack.WellFormed() && tx.base <= tx.Next()
  {
    var freed := Freed(tx.ring, Acked(ack, tx.base, tx.Next()));
    FreedBytes(tx.ring, Acked(ack, tx.base, tx.Next()));
    var base := NewBase(ack, tx.base, tx.Next());
    tx.(ring := freed, base := base,
        ackedBytes := tx.ackedBytes + (ResidentBytes(tx.ring) - ResidentBytes(freed)),
        receivedEnd := Max(Max(tx.receivedEnd, SelectedEnd(ack, tx.Next())), base))
  }

  /**
   The mark below which holes are known, after any ACK: above every number the ACK selects, at
   least the new base, never lower than before, and no higher than one of the three puts it.
   */
  lemma MarkAfterAck(tx: Tx, ack: Ack)
    requires ack.WellFormed() && tx.base <= tx.Next()
    ensures var after := OnAck(tx, ack);
            && tx.receivedEnd <= after.receivedEnd && after.base <= after.receivedEnd
            && (forall s: nat | s < tx.Next() && Selected(ack, s) :: s < after.receivedEnd)
            && (after.receivedEnd == tx.receivedEnd || after.receivedEnd == after.base
                || (0 < after.receivedEnd <= tx.Next() && Selected(ack, after.receivedEnd - 1)))
  {
    SelectedEndIs(ack, tx.Next());
    hide SelectedEnd, Freed, Acked, ResidentBytes, Selected;
  }

  lemma CutInside(l: Lane, c: Cursor, size: nat)
    requires l.Ok() && CursorOk(l.ranges, c) && (c.ri == |l.ranges| ==> c.off <= |l.data|)
    ensures l.Inside(Cut(l.ranges, c, size))
  {
    if c.ri < |l.ranges| { assert l.ranges[c.ri] in l.ranges; }
  }

  lemma {:induction false} FreedBytes(ring: seq<Entry>, acked: set<nat>)
    ensures ResidentBytes(Freed(ring, acked)) <= ResidentBytes(ring)
  {
    if ring != [] {
      FreedBytes(ring[1..], acked);
      assert Freed(ring, acked)[1..] == Freed(ring[1..], acked);
    }
  }

  lemma IdleInv(l: Lane)
    requires l.Ok()
    ensures Idle(l).Inv(l)
  {
    StartRemaining(l.ranges);
    NothingResident(Idle(l).ring);
  }

  lemma {:induction false} NothingResident(ring: seq<Entry>)
    requires forall e <- ring :: !e.valid
    ensures ResidentBytes(ring) == 0
  {
    if ring != [] {
      assert ring[0] in ring;
      assert forall e <- ring[1..] :: e in ring;
      NothingResident(ring[1..]);
    }
  }

  /** The slot a new block goes to is free: the block that used it before is acknowledged. */
  lemma NextSlotIsVacant(l: Lane, tx: Tx)
    requires l.Ok() && tx.RingOk(l) && tx.Next() < tx.base + l.window
    ensures !tx.ring[tx.Next() % l.window].valid
  {
    var e := tx.ring[tx.Next() % l.window];
    if e.valid {
      assert e in tx.ring;
      Modular.SameSlot(tx.Next(), e.s, l.window);
    }
  }

  lemma SendKeepsRing(l: Lane, tx: Tx, size: nat, now: nat)
    requires tx.Inv(l) && tx.CanSend(l) && size > 0
    ensures SendNext(l, tx, size, now).RingOk(l)
    ensures var after := SendNext(l, tx, size, now);
            after.sentBytes == after.ackedBytes + ResidentBytes(after.ring)
  {
    hide TileBytes, Remaining, RangeBytes;
    var after := SendNext(l, tx, size, now);
    CutInside(l, tx.cursor, size);
    NextSlotIsVacant(l, tx);
    ResidentUpdate(tx.ring, tx.Next() % l.window, after.ring[tx.Next() % l.window]);
    forall e <- after.ring
      ensures e.valid ==> after.base <= e.s < after.Next() && e == l.EntryOf(e.s, after.history[e.s], e.sendTime)
    {
      var i :| 0 <= i < |after.ring| && after.ring[i] == e;
      if i != tx.Next() % l.window { assert tx.ring[i] in tx.ring; }
    }
  }

  lemma TilesStep(l: Lane, tx: Tx, size: nat, after: Tx)
    requires l.Ok() && tx.TilesOk(l) && tx.CanSend(l) && size > 0
    requires var t := Cut(l.ranges, tx.cursor, size);
             && after.history == tx.history + [t] && after.cursor == Advance(l.ranges, tx.cursor, t)
             && after.sentLast == (tx.sentLast || t.last)
    ensures after.TilesOk(l)
  {
    var t := Cut(l.ranges, tx.cursor, size);
    CutTakesFront(l.ranges, tx.cursor, size);
    hide TileBytes, Remaining, RangeBytes, Cut, Advance, Offsets, Usable;
    TileBytesAppend(tx.history, t);
    SeqAssoc(TileBytes(tx.history), Offsets(t.offset, t.length), Remaining(l.ranges, after.cursor));
  }

  lemma SendKeepsInv(l: Lane, tx: Tx, size: nat, now: nat)
    requires tx.Inv(l) && tx.CanSend(l) && size > 0
    ensures SendNext(l, tx, size, now).Inv(l)
  {
    SendKeepsRing(l, tx, size, now);
    TilesStep(l, tx, size, SendNext(l, tx, size, now));
  }

  lemma FreedRingOk(l: Lane, tx: Tx, acked: set<nat>, after: Tx)
    requires l.Ok() && tx.RingOk(l)
    requires after.ring == Freed(tx.ring, acked) && after.history == tx.history
    requires tx.base <= after.base <= tx.Next()
    requires forall s: nat | tx.base <= s < after.base :: s in acked
    ensures after.RingOk(l)
  {
    forall e <- after.ring
      ensures e.valid ==> after.base <= e.s < after.Next() && e == l.EntryOf(e.s, after.history[e.s], e.sendTime)
    {
      var i :| 0 <= i < |after.ring| && after.ring[i] == e;
      assert tx.ring[i] in tx.ring;
    }
  }

  /**
   ACK accounting, for any ACK at all (stale, repeated, invented): the base only moves
   forward and never past what was sent, every resident block stays exactly as sent and
   inside [base, next), and bytes sent minus bytes acknowledged is what is still resident.
   */
  lemma AnyAckKeepsInv(l: Lane, tx: Tx, ack: Ack)
    requires tx.Inv(l) && ack.WellFormed()
    ensures OnAck(tx, ack).Inv(l)
    ensures tx.base <= OnAck(tx, ack).base <= tx.Next() == OnAck(tx, ack).Next()
    ensures tx.ackedBytes <= OnAck(tx, ack).ackedBytes <= tx.sentBytes
  {
    assert tx.base <= tx.Next();
    hide TileBytes, Remaining, RangeBytes, Acked, NewBase, SelectedEnd, ResidentBytes, Freed, Tx.RingOk;
    AckedBounds(ack, tx.base, tx.Next());
    FreedBytes(tx.ring, Acked(ack, tx.base, tx.Next()));
    FreedRingOk(l, tx, Acked(ack, tx.base, tx.Next()), OnAck(tx, ack));
  }

  // ----- Which blocks can be resent -----

  /** Sending block `next` leaves every other resident block resident. */
  lemma SendKeepsResidents(l: Lane, tx: Tx, size: nat, now: nat, s: nat)
    requires tx.Inv(l) && tx.CanSend(l) && size > 0 && tx.base <= s <= tx.Next()
    ensures Find(SendNext(l, tx, size, now).ring, s)
            == if s == tx.Next() then Some(SendNext(l, tx, size, now).ring[s % l.window]) else Find(tx.ring, s)
  {
    hide TileBytes, Remaining, RangeBytes;
    if s < tx.Next() && s % l.window == tx.Next() % l.window { Modular.SameSlot(s, tx.Next(), l.window); }
  }

  /** An ACK frees exactly what it reports. */
  lemma AckFreesOnlyAcked(l: Lane, tx: Tx, ack: Ack, s: nat)
    requires tx.Inv(l) && ack.WellFormed()
    ensures Find(OnAck(tx, ack).ring, s)
            == if s in Acked(ack, tx.base, tx.Next()) then None else Find(tx.ring, s)
  {
    hide TileBytes, Remaining, RangeBytes;
  }

  /** A block found for a resend is the block as it was first sent. */
  lemma FoundAsSent(l: Lane, tx: Tx, s: nat)
    requires tx.Inv(l) && Find(tx.ring, s).Some?
    ensures tx.base <= s < tx.Next()
    ensures var e := Find(tx.ring, s).value; e == l.EntryOf(s, tx.history[s], e.sendTime)
  {
    assert tx.ring[s % l.window] in tx.ring;
  }
}
