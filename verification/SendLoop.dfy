/**
 The body of `send_lane` (transfer.cpp) as it runs: the packing loop, the ACK branch and
 the retransmission timeout, over the registry and the loop's variables. `LaneSender`
 says what each does to the lane's state; here the loops are shown to do that.
 */
module SendLoop {
  import opened Word64
  import opened Control
  import opened Basics
  import opened Registry
  import opened Tiling
  import opened LaneSender
  import LaneSystem
  import Modular
  import Pipeline

  const GSO_BUDGET: nat := 60000
  const RTO_HOLES: nat := 8

  /** `n` blocks sent one after the other with the same size limit. */
  ghost function SendMany(l: Lane, tx: Tx, block: nat, n: nat, now: nat): (r: Tx)
    requires tx.Inv(l) && block > 0
    ensures r.Inv(l)
  {
    if n == 0 then tx
    else
      var mid := SendMany(l, tx, block, n - 1, now);
      if mid.CanSend(l) then SendKeepsInv(l, mid, block, now); SendNext(l, mid, block, now) else mid
  }

  /** The block sent now: what `SendNext` records for it. */
  lemma SendNextFields(l: Lane, tx: Tx, block: nat, now: nat)
    requires tx.Inv(l) && tx.CanSend(l) && block > 0
    ensures var t, after := Cut(l.ranges, tx.cursor, block), SendNext(l, tx, block, now);
            && l.Inside(t) && t.length <= block && after.history == tx.history + [t]
            && after.ring == tx.ring[tx.Next() % l.window := l.EntryOf(tx.Next(), t, now)]
            && after.cursor == Advance(l.ranges, tx.cursor, t)
            && after.sentLast == (tx.sentLast || t.last) && after.sentBytes == tx.sentBytes + t.length
            && after.base == tx.base && after.ackedBytes == tx.ackedBytes && after.receivedEnd == tx.receivedEnd
  {
    CutInside(l, tx.cursor, block);
    CutTakesFront(l.ranges, tx.cursor, block);
  }

  /**
   What a batch leaves behind, seen from the lane it started from: `packed` new blocks, all of
   them full except possibly the final one (so one segmented send can carry them).
   */
  ghost predicate Packed(l: Lane, from: Tx, tx: Tx, block: nat, packed: nat, now: nat)
    requires from.Inv(l) && block > 0
  {
    && tx == SendMany(l, from, block, packed, now)
    && from.history <= tx.history && tx.Next() == from.Next() + packed
    && tx.base == from.base && tx.ackedBytes == from.ackedBytes
    && tx.sentBytes <= from.sentBytes + packed * block
    && (forall i | from.Next() <= i < tx.Next() - 1 :: tx.history[i].length == block && !tx.history[i].last)
  }

  /** There is something left to send: a range, or the one empty block of an empty lane. */
  predicate MoreToSend(l: Lane, tx: Tx) { tx.cursor.ri < |l.ranges| || (l.ranges == [] && tx.Next() == 0) }

  /** Why a batch of `packed` blocks ended: it is full, all is sent, or its last or its next block is short. */
  ghost predicate Stopped(l: Lane, tx: Tx, block: nat, packed: nat, maxSegs: nat) {
    || packed == maxSegs || !MoreToSend(l, tx)
    || (packed > 0 && tx.history != [] && tx.history[|tx.history| - 1].length < block)
    || (packed > 0 && tx.cursor.ri < |l.ranges| && l.ranges[tx.cursor.ri].End() - tx.cursor.off < block)
  }

  /** How many blocks a turn may send: window in blocks, room in bytes, one segmented send, burst cap. */
  function Segments(l: Lane, tx: Tx, block: nat, windowBytes: nat, segment: nat, burstCap: nat): nat
    requires block > 0 && segment > 0
  {
    if tx.Next() < tx.base + l.window && tx.Next() >= tx.base && tx.InFlight() < windowBytes then
      Min(Min(GSO_BUDGET / segment, l.window - (tx.Next() - tx.base)), Min((windowBytes - tx.InFlight() + block - 1) / block, burstCap))
    else 0
  }

  /** None exactly if one of the limits leaves no room at all. */
  lemma SegmentsPositive(l: Lane, tx: Tx, block: nat, windowBytes: nat, segment: nat, burstCap: nat)
    requires block > 0 && segment > 0 && tx.base <= tx.Next()
    ensures Segments(l, tx, block, windowBytes, segment, burstCap) > 0
            <==> tx.Next() < tx.base + l.window && tx.InFlight() < windowBytes && segment <= GSO_BUDGET && burstCap >= 1
  {
    if tx.InFlight() < windowBytes { Modular.DivAtLeast(windowBytes - tx.InFlight() + block - 1, block, 1); }
    if segment <= GSO_BUDGET { Modular.DivAtLeast(GSO_BUDGET, segment, 1); }
  }

  /** When a turn may not send, no segment is allowed or there is nothing to send. */
  lemma NothingToPack(l: Lane, tx: Tx, block: nat, windowBytes: nat, segment: nat, burstCap: nat)
    requires tx.Inv(l) && block > 0 && segment > 0
    ensures tx.base <= tx.Next() <= tx.base + l.window && tx.InFlight() >= 0
    ensures var room := Segments(l, tx, block, windowBytes, segment, burstCap);
            && (tx.Next() >= tx.base + l.window || tx.InFlight() >= windowBytes ==> room == 0)
            && (room == 0 || !MoreToSend(l, tx) ==> Stopped(l, tx, block, 0, room))
  {}

  lemma WithinLimit(n: nat, limit: nat, size: nat)
    requires n <= limit
    ensures n * size <= limit * size
  {}

  lemma StoppedAtOnce(l: Lane, from: Tx, tx: Tx, block: nat, packed: nat, maxSegs: nat, now: nat)
    requires from.Inv(l) && block > 0 && Packed(l, from, tx, block, packed, now) && Stopped(l, tx, block, packed, maxSegs)
    ensures packed == 0 ==> maxSegs == 0 || !MoreToSend(l, from)
  {}

  lemma PackedNone(l: Lane, tx: Tx, block: nat, now: nat)
    requires tx.Inv(l) && block > 0
    ensures Packed(l, tx, tx, block, 0, now)
  {}

  lemma PackedOne(l: Lane, from: Tx, tx: Tx, block: nat, packed: nat, now: nat)
    requires from.Inv(l) && block > 0 && Packed(l, from, tx, block, packed, now)
    requires tx.Inv(l) && tx.CanSend(l)
    requires packed > 0 ==> tx.history[tx.Next() - 1].length == block && !tx.history[tx.Next() - 1].last
    ensures Packed(l, from, SendNext(l, tx, block, now), block, packed + 1, now)
  {
    hide SendNext, Cut, Advance, Tx.Inv;
    assert tx.Inv(l);
    SendNextFields(l, tx, block, now);
    assert (packed + 1) * block == packed * block + block;
  }

  /** Room in bytes, rounded up to blocks, is overshot by less than one block. */
  lemma RoomInBlocks(room: nat, block: nat, packed: nat)
    requires block > 0 && room > 0 && packed <= (room + block - 1) / block
    ensures packed * block < room + block
  {
    var q := (room + block - 1) / block;
    assert q * block <= room + block - 1;
    assert packed * block <= q * block;
  }

  /** Which blocks a timeout resends: the first `k` still held among the base and the numbers below `end`. */
  function Overdue(ring: seq<Entry>, base: nat, next: nat, end: nat, s: nat, k: nat): seq<nat>
    requires |ring| >= 1
    decreases next - s
  {
    if s >= next || k == 0 || (s != base && s >= end) then []
    else if Find(ring, s) == None then Overdue(ring, base, next, end, s + 1, k)
    else [s] + Overdue(ring, base, next, end, s + 1, k - 1)
  }

  /** `r` lists, in order, the blocks from `s` a timeout round re-sends: the first `k`, or all of them if fewer. */
  ghost predicate Listed(ring: seq<Entry>, base: nat, next: nat, end: nat, s: nat, k: nat, r: seq<nat>)
    requires |ring| >= 1
  {
    && |r| <= k
    && (forall i | 0 <= i < |r| :: s <= r[i] < next && Find(ring, r[i]).Some? && (r[i] == base || r[i] < end))
    && (forall i, j | 0 <= i < j < |r| :: r[i] < r[j])
    && (forall x: nat | s <= x < next && (x == base || x < end) && Find(ring, x).Some? && (|r| < k || (r != [] && x <= r[|r| - 1])) :: x in r)
  }

  lemma ListedCons(ring: seq<Entry>, base: nat, next: nat, end: nat, s: nat, k: nat, rest: seq<nat>)
    requires |ring| >= 1 && Listed(ring, base, next, end, s + 1, k, rest)
    requires s < next && Find(ring, s).Some? && (s == base || s < end)
    ensures Listed(ring, base, next, end, s, k + 1, [s] + rest)
  {
    hide Find;
    assert forall x: nat :: x in [s] + rest <==> x == s || x in rest;
  }

  lemma ListedNone(ring: seq<Entry>, base: nat, next: nat, end: nat, s: nat, k: nat)
    requires |ring| >= 1 && base <= s && (s >= next || k == 0 || (s != base && s >= end))
    ensures Listed(ring, base, next, end, s, k, [])
  {
    hide Find;
  }

  lemma ListedSkip(ring: seq<Entry>, base: nat, next: nat, end: nat, s: nat, k: nat, r: seq<nat>)
    requires |ring| >= 1 && Listed(ring, base, next, end, s + 1, k, r) && Find(ring, s) == None
    ensures Listed(ring, base, next, end, s, k, r)
  {
    hide Find;
  }

  lemma {:induction false} OverdueAreHeld(ring: seq<Entry>, base: nat, next: nat, end: nat, s: nat, k: nat)
    requires |ring| >= 1 && base <= s
    ensures Listed(ring, base, next, end, s, k, Overdue(ring, base, next, end, s, k))
    decreases next - s
  {
    hide Find, Listed, Overdue;
    OverdueUnfold(ring, base, next, end, s, k);
    if s >= next || k == 0 || (s != base && s >= end) {
      ListedNone(ring, base, next, end, s, k);
    } else if Find(ring, s) == None {
      OverdueAreHeld(ring, base, next, end, s + 1, k);
      ListedSkip(ring, base, next, end, s, k, Overdue(ring, base, next, end, s + 1, k));
    } else {
      OverdueAreHeld(ring, base, next, end, s + 1, k - 1);
      ListedCons(ring, base, next, end, s, k - 1, Overdue(ring, base, next, end, s + 1, k - 1));
    }
  }

  lemma NothingSent(l: Lane, ring: seq<Entry>)
    requires l.Ok() && Placed(ring) && |ring| == l.window && forall s: nat :: Find(ring, s) == None
    ensures Tx(ring, 0, Start(l.ranges), false, 0, 0, 0, []).Inv(l)
  {
    StartRemaining(l.ranges);
    assert forall i | 0 <= i < |ring| :: Find(ring, ring[i].s) == None;
    NothingResident(ring);
  }

  class SendLane {
    const lane: Lane
    const reg: SenderRegistry
    var base: nat
    var nextSeq: nat
    var ri: nat
    var nextOffset: nat
    var sentLast: bool
    var sentBytes: nat
    var ackedBytes: nat
    var receivedEnd: nat
    ghost var history: seq<Tile>

    ghost function View(): Tx
      reads this, reg.slots
    {
      Tx(reg.slots[..], base, Cursor(ri, nextOffset), sentLast, sentBytes, ackedBytes, receivedEnd, history)
    }

    ghost predicate Valid()
      reads this, reg, reg.slots
    {
      reg.Valid() && reg.windowSize == lane.window && nextSeq == |history| && View().Inv(lane)
    }

    constructor (lane: Lane)
      requires lane.Ok()
      ensures Valid() && fresh(reg) && fresh(reg.slots) && this.lane == lane
      ensures View().InFlight() == 0 && View().Next() == 0 && forall s: nat :: Find(View().ring, s) == None
    {
      this.lane := lane;
      reg := new SenderRegistry(0, lane.window);
      base, nextSeq, ri := 0, 0, 0;
      nextOffset := if lane.ranges == [] then 0 else lane.ranges[0].offset;
      sentLast, sentBytes, ackedBytes, receivedEnd, history := false, 0, 0, 0, [];
      new;
      hide Tx.Inv, Lane.Ok, Placed;
      NothingSent(lane, reg.slots[..]);
    }

    /** Puts the block into its slot. */
    method Enlist(len: nat, isLast: bool, now: nat)
      requires reg.Valid() && reg.windowSize == lane.window && len <= MAX_PAYLOAD
      requires lane.Inside(Tile(nextOffset, len, isLast))
      modifies reg.slots
      ensures reg.Valid()
      ensures reg.slots[..] == old(reg.slots[..])[nextSeq % lane.window := lane.EntryOf(nextSeq, Tile(nextOffset, len, isLast), now)]
    {
      var flags := if isLast then FLAG_LAST_BLOCK else 0;
      var stored := reg.Store(nextSeq, lane.data[nextOffset..nextOffset + len], now, nextOffset, flags);
    }

    /** Moves the loop's variables past the block. */
    method Step(len: nat, isLast: bool)
      modifies this
      ensures nextSeq == old(nextSeq) + 1 && sentBytes == old(sentBytes) + len
      ensures sentLast == (old(sentLast) || isLast)
      ensures Cursor(ri, nextOffset) == Advance(lane.ranges, old(Cursor(ri, nextOffset)), Tile(old(nextOffset), len, isLast))
      ensures history == old(history) + [Tile(old(nextOffset), len, isLast)]
      ensures unchanged(this`base, this`ackedBytes, this`receivedEnd)
    {
      var inRange := ri < |lane.ranges|;
      var rangeEnd := if inRange then lane.ranges[ri].End() else 0;
      history := history + [Tile(nextOffset, len, isLast)];
      nextSeq, nextOffset, sentBytes := nextSeq + 1, nextOffset + len, sentBytes + len;
      if inRange && nextOffset >= rangeEnd {
        ri := ri + 1;
        if ri < |lane.ranges| { nextOffset := lane.ranges[ri].offset; }
      }
      if isLast { sentLast := true; }
    }

    /** One block into the registry and past the cursor. */
    method SendOne(block: nat, len: nat, isLast: bool, now: nat)
      requires Valid() && View().CanSend(lane) && 0 < block <= MAX_PAYLOAD
      requires Cut(lane.ranges, View().cursor, block) == Tile(nextOffset, len, isLast)
      modifies this, reg.slots
      ensures Valid() && View() == SendNext(lane, old(View()), block, now)
    {
      SendNextFields(lane, View(), block, now);
      SendKeepsInv(lane, View(), block, now);
      ghost var want := SendNext(lane, View(), block, now);
      hide SendNext, Cut, Tx.Inv, Advance, Placed, Lane.EntryOf;
      Enlist(len, isLast, now);
      Step(len, isLast);
      assert View() == want;
    }

    /** The packing loop: one batch of new blocks. */
    method PackBatch(block: nat, maxSegs: nat, now: nat) returns (packed: nat)
      requires Valid() && 0 < block <= MAX_PAYLOAD && maxSegs <= lane.window - (nextSeq - base)
      modifies this, reg.slots
      ensures Valid() && packed <= maxSegs
      ensures Packed(lane, old(View()), View(), block, packed, now)
      ensures Stopped(lane, View(), block, packed, maxSegs)
    {
      hide Packed, SendNext, Tx.Inv;
      var needEmptyLast := lane.ranges == [] && nextSeq == 0;
      packed := 0;
      ghost var from := View();
      PackedNone(lane, from, block, now);
      while packed < maxSegs && (ri < |lane.ranges| || needEmptyLast)
        invariant Valid() && packed <= maxSegs && from.Inv(lane) && nextSeq == from.Next() + packed
        invariant base == from.base && maxSegs <= lane.window - (from.Next() - base)
        invariant Packed(lane, from, View(), block, packed, now)
        invariant packed > 0 ==> history[|history| - 1].length == block && !history[|history| - 1].last
        invariant needEmptyLast <==> lane.ranges == [] && nextSeq == 0
      {
        var rangeEnd := if ri < |lane.ranges| then lane.ranges[ri].End() else 0;
        CursorInRange(lane, View());
        var remaining := rangeEnd - nextOffset;
        if remaining < block && packed > 0 { break; }
        var len := if block < remaining then block else remaining;
        var isLast := ri + 1 >= |lane.ranges| && nextOffset + len >= rangeEnd;
        PackedOne(lane, from, View(), block, packed, now);
        SendNextFields(lane, View(), block, now);
        SendOne(block, len, isLast, now);
        packed := packed + 1;
        if isLast { break; }
        if len != block { break; }
      }
    }

    /**
     One turn of the sending half of the loop: the batch is bounded by the window, the room
     in bytes, the size of one segmented send and the burst cap, and ends early only for a
     reason; so something is sent whenever there is something to send and room for it. Right after
     new data leaves, less than one block more than the window is in flight, and at most `window`
     blocks are.
     */
    method TrySend(block: nat, windowBytes: nat, segment: nat, burstCap: nat, now: nat) returns (packed: nat)
      requires Valid() && 0 < block <= MAX_PAYLOAD && segment > 0
      modifies this, reg.slots
      ensures Valid() && Packed(lane, old(View()), View(), block, packed, now)
      ensures packed > 0 ==> View().InFlight() < windowBytes + block && packed <= burstCap && packed * segment <= GSO_BUDGET
      ensures nextSeq - base <= lane.window
      ensures var room := Segments(lane, old(View()), block, windowBytes, segment, burstCap);
              && packed <= room && Stopped(lane, View(), block, packed, room)
              && (packed > 0 <==>
                    && MoreToSend(lane, old(View())) && old(nextSeq) < old(base) + lane.window
                    && old(View()).InFlight() < windowBytes && segment <= GSO_BUDGET && burstCap >= 1)
    {
      hide Packed, Stopped, Tx.Inv, Segments;
      ghost var from := View();
      packed := 0;
      PackedNone(lane, from, block, now);
      NothingToPack(lane, from, block, windowBytes, segment, burstCap);
      SegmentsPositive(lane, from, block, windowBytes, segment, burstCap);
      var inflight := sentBytes - ackedBytes;
      if (ri < |lane.ranges| || (lane.ranges == [] && nextSeq == 0)) && nextSeq < base + lane.window && inflight < windowBytes {
        var maxSegs := SegmentLimit(block, windowBytes, segment, burstCap);
        packed := PackBatch(block, maxSegs, now);
        WithinLimit(packed, maxSegs, block);
        WithinLimit(packed, maxSegs, segment);
        PackedBytes(lane, from, View(), block, packed, now);
        StoppedAtOnce(lane, from, View(), block, packed, maxSegs, now);
        NothingToPack(lane, View(), block, windowBytes, segment, burstCap);
      }
    }

    /** The number of segments one batch may have. */
    method SegmentLimit(block: nat, windowBytes: nat, segment: nat, burstCap: nat) returns (n: nat)
      requires Valid() && block > 0 && segment > 0 && nextSeq < base + lane.window && sentBytes - ackedBytes < windowBytes
      ensures n == Segments(lane, View(), block, windowBytes, segment, burstCap)
      ensures n <= lane.window - (nextSeq - base) && n <= burstCap
      ensures n * segment <= GSO_BUDGET && n * block < windowBytes - (sentBytes - ackedBytes) + block
    {
      var room := windowBytes - (sentBytes - ackedBytes);
      n := Min(Min(GSO_BUDGET / segment, lane.window - (nextSeq - base)), Min((room + block - 1) / block, burstCap));
      RoomInBlocks(room, block, n);
      WithinBudget(segment, n);
    }

    /** The ACK branch. */
    method ReceiveAck(ack: Ack)
      requires Valid() && ack.WellFormed()
      modifies this, reg.slots
      ensures Valid() && View() == OnAck(old(View()), ack)
    {
      ghost var before := View();
      AnyAckKeepsInv(lane, before, ack);
      hide Tx.Inv, Acked, SelectedEnd, Freed, NewBase, ResidentBytes;
      var bytes, newBase, newEnd := ApplyAck(reg, ack, base, nextSeq, receivedEnd);
      base, receivedEnd, ackedBytes := newBase, newEnd, ackedBytes + bytes;
      assert View() == OnAck(before, ack);
    }

    /** The timeout branch: which blocks are resent, when every send is taken. */
    method TimeoutHoles() returns (resent: seq<nat>)
      requires Valid()
      ensures resent == Overdue(View().ring, base, nextSeq, receivedEnd, base, RTO_HOLES)
    {
      resent := [];
      var s := base;
      ghost var ring := View().ring;
      hide Tx.Inv, Overdue, Find;
      while s < nextSeq && |resent| < RTO_HOLES
        invariant base <= s && |resent| <= RTO_HOLES && reg.Valid() && ring == reg.slots[..]
        invariant resent + Overdue(ring, base, nextSeq, receivedEnd, s, RTO_HOLES - |resent|)
               == Overdue(ring, base, nextSeq, receivedEnd, base, RTO_HOLES)
        decreases nextSeq - s
      {
        OverdueUnfold(ring, base, nextSeq, receivedEnd, s, RTO_HOLES - |resent|);
        if s != base && s >= receivedEnd { break; }
        var held := reg.Lookup(s);
        if held.Some? {
          JoinOne(resent, s, Overdue(ring, base, nextSeq, receivedEnd, s + 1, RTO_HOLES - |resent| - 1));
          resent := resent + [s];
        }
        s := s + 1;
      }
      OverdueUnfold(ring, base, nextSeq, receivedEnd, s, RTO_HOLES - |resent|);
    }
  }

  lemma JoinOne(a: seq<nat>, x: nat, b: seq<nat>)
    ensures a + ([x] + b) == a + [x] + b
  {}

  lemma OverdueUnfold(ring: seq<Entry>, base: nat, next: nat, end: nat, s: nat, k: nat)
    requires |ring| >= 1
    ensures Overdue(ring, base, next, end, s, k) ==
            if s >= next || k == 0 || (s != base && s >= end) then []
            else if Find(ring, s) == None then Overdue(ring, base, next, end, s + 1, k)
            else [s] + Overdue(ring, base, next, end, s + 1, k - 1)
  {}

  lemma WithinBudget(segment: nat, packed: nat)
    requires segment > 0 && packed <= GSO_BUDGET / segment
    ensures packed * segment <= GSO_BUDGET
  {
    assert packed * segment <= (GSO_BUDGET / segment) * segment;
  }

  lemma CursorInRange(l: Lane, tx: Tx)
    requires tx.Inv(l)
    ensures tx.cursor.ri < |l.ranges| ==> tx.cursor.off < l.ranges[tx.cursor.ri].End()
    ensures tx.history == [] && l.ranges == [] ==> tx.cursor.off == 0
    ensures tx.cursor.ri <= |l.ranges|
  {}

  lemma PackedBytes(l: Lane, from: Tx, tx: Tx, block: nat, packed: nat, now: nat)
    requires from.Inv(l) && block > 0 && Packed(l, from, tx, block, packed, now)
    ensures tx.sentBytes <= from.sentBytes + packed * block && tx.ackedBytes == from.ackedBytes
  {}

  /** A timeout always has something to resend while anything held is outstanding at the base. */
  lemma TimeoutServesBase(ring: seq<Entry>, base: nat, next: nat, end: nat)
    requires |ring| >= 1 && base < next && Find(ring, base).Some?
    ensures |Overdue(ring, base, next, end, base, RTO_HOLES)| > 0
    ensures Overdue(ring, base, next, end, base, RTO_HOLES)[0] == base
  {}

  /**
   In every run: while anything is outstanding a timeout resends the base first; everything it
   resends is still held; and beyond the base it only resends blocks below one that has arrived.
   */
  lemma TimeoutServesEveryRun(
    l: Lane, cfg: Pipeline.Config, before: seq<byte>, acts: seq<LaneSystem.Action>, sys: LaneSystem.System, s: nat)
    requires LaneSystem.Reaches(l, cfg, before, acts, sys) && sys.tx.base < sys.tx.Next()
    ensures |sys.tx.ring| >= 1
    ensures var r := Overdue(sys.tx.ring, sys.tx.base, sys.tx.Next(), sys.tx.receivedEnd, sys.tx.base, RTO_HOLES);
            && r != [] && r[0] == sys.tx.base
            && (s in r ==> LaneSystem.Enabled(l, cfg, sys, LaneSystem.Resend(s)))
            && (s in r && s != sys.tx.base ==> s < sys.tx.receivedEnd && sys.tx.receivedEnd - 1 in sys.rx.got)
  {
    hide Pipeline.Inv, LaneSystem.Leads, Overdue, LaneSystem.BasesOk, LaneSystem.Retained, LaneSystem.SentOk, LaneSystem.AcksOk;
    LaneSystem.RunKeepsInv(l, cfg, before, acts, sys);
    LaneSystem.NoWedge(l, cfg, before, acts, sys, sys.tx.base);
    TimeoutServesBase(sys.tx.ring, sys.tx.base, sys.tx.Next(), sys.tx.receivedEnd);
    OverdueAreHeld(sys.tx.ring, sys.tx.base, sys.tx.Next(), sys.tx.receivedEnd, sys.tx.base, RTO_HOLES);
  }

  lemma MarkGrows(l: Lane, cfg: Pipeline.Config, sys: LaneSystem.System, a: LaneSystem.Action)
    requires LaneSystem.Enabled(l, cfg, sys, a)
    ensures sys.tx.receivedEnd <= LaneSystem.Next(l, cfg, sys, a).tx.receivedEnd
  {
    if a.DeliverAck? { MarkAfterAck(sys.tx, a.ack); }
    hide SelectedEnd, Freed, Acked, ResidentBytes, Pipeline.Apply, Cut, Advance;
  }

  lemma {:induction false} MarkNeverFalls(l: Lane, cfg: Pipeline.Config, sys: LaneSystem.System, acts: seq<LaneSystem.Action>, end: LaneSystem.System)
    requires LaneSystem.Leads(l, cfg, sys, acts, end)
    ensures sys.tx.receivedEnd <= end.tx.receivedEnd
    decreases |acts|
  {
    hide LaneSystem.Enabled, LaneSystem.Next;
    if acts != [] {
      MarkGrows(l, cfg, sys, acts[0]);
      MarkNeverFalls(l, cfg, LaneSystem.Next(l, cfg, sys, acts[0]), acts[1..], end);
    }
  }

  /** An ACK that came from the receiver selects only blocks that were sent. */
  lemma SelectedWasSent(l: Lane, cfg: Pipeline.Config, sys: LaneSystem.System, ack: Ack, s: nat)
    requires LaneSystem.Inv(l, cfg, sys) && ack in sys.acks && ack.WellFormed() && Selected(ack, s)
    ensures s < sys.tx.Next()
  {
    assert LaneSystem.Honest(ack, sys.rx.got) && s in sys.rx.got;
  }

  /** Once an ACK has been processed, the mark is above everything it selects, for good. */
  lemma {:induction false} MarkCoversAcks(l: Lane, cfg: Pipeline.Config, sys: LaneSystem.System, acts: seq<LaneSystem.Action>, end: LaneSystem.System, ack: Ack, s: nat)
    requires LaneSystem.Inv(l, cfg, sys) && LaneSystem.Leads(l, cfg, sys, acts, end)
    requires LaneSystem.DeliverAck(ack) in acts && ack.WellFormed() && Selected(ack, s)
    ensures s < end.tx.receivedEnd
    decreases |acts|
  {
    var mid := LaneSystem.Next(l, cfg, sys, acts[0]);
    if acts[0] == LaneSystem.DeliverAck(ack) {
      SelectedWasSent(l, cfg, sys, ack, s);
      MarkAfterAck(sys.tx, ack);
      assert mid.tx == OnAck(sys.tx, ack);
      hide LaneSystem.Inv, LaneSystem.Next, LaneSystem.Enabled, OnAck, Selected;
      MarkNeverFalls(l, cfg, mid, acts[1..], end);
    } else {
      hide LaneSystem.Inv, LaneSystem.Next, LaneSystem.Enabled, Selected;
      LaneSystem.ActionKeepsInv(l, cfg, sys, acts[0]);
      MarkCoversAcks(l, cfg, mid, acts[1..], end, ack, s);
    }
  }

  /**
   Known holes are repaired: in every run, a block still held at or above the base and below one
   that any processed ACK selected is in the timeout's list, unless eight lower ones are.
   */
  lemma TimeoutRepairsHoles(
    l: Lane, cfg: Pipeline.Config, before: seq<byte>, acts: seq<LaneSystem.Action>, sys: LaneSystem.System, ack: Ack, s: nat, x: nat)
    requires LaneSystem.Reaches(l, cfg, before, acts, sys)
    requires LaneSystem.DeliverAck(ack) in acts && ack.WellFormed() && Selected(ack, s)
    requires sys.tx.base <= x < s && |sys.tx.ring| >= 1 && Find(sys.tx.ring, x).Some?
    ensures var r := Overdue(sys.tx.ring, sys.tx.base, sys.tx.Next(), sys.tx.receivedEnd, sys.tx.base, RTO_HOLES);
            x in r || (|r| == RTO_HOLES && forall y <- r :: y < x)
  {
    LaneSystem.InitialInv(l, cfg, before);
    LaneSystem.RunKeepsInv(l, cfg, before, acts, sys);
    MarkCoversAcks(l, cfg, LaneSystem.Initial(l, cfg, before), acts, sys, ack, s);
    FoundAsSent(l, sys.tx, x);
    hide LaneSystem.Inv, LaneSystem.Leads, Overdue, Find, Selected;
    var r := Overdue(sys.tx.ring, sys.tx.base, sys.tx.Next(), sys.tx.receivedEnd, sys.tx.base, RTO_HOLES);
    OverdueAreHeld(sys.tx.ring, sys.tx.base, sys.tx.Next(), sys.tx.receivedEnd, sys.tx.base, RTO_HOLES);
    if x !in r {
      assert |r| == RTO_HOLES && r[|r| - 1] < x;
      forall y <- r ensures y < x { var i :| 0 <= i < |r| && r[i] == y; }
    }
  }
}
