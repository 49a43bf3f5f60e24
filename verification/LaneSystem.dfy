/**
 One lane end to end: the sender, a network that loses, repeats, delays and reorders,
 anyone who injects forged datagrams, and the receive pipeline with all its threads.
 Datagrams and ACKs ever sent are kept in sets that only grow, so delivering one late,
 twice or never are all just choices of steps.
 */
module LaneSystem {
  import opened Word64
  import opened Control
  import opened ReceiverWindow
  import opened Registry
  import opened Tiling
  import opened LaneSender
  import Pipeline

  type Datagram = Pipeline.Datagram
  type Pipe = Pipeline.Pipe

  datatype System = System(tx: Tx, rx: Pipe, sent: set<Datagram>, acks: set<Ack>)

  datatype Action =
    | Send(size: nat, now: nat)       // the sender's next block, `size` being the block size of the moment
    | Resend(s: nat)                  // answering a NACK or a timeout
    | EmitAck(ack: Ack)               // the receiver reports what its window holds
    | DeliverAck(ack: Ack)
    | Receive(step: Pipeline.Step)    // any access of any thread of the receive pipeline

  function FirstCopy(l: Lane, s: nat, t: Tile): Datagram
    requires l.Inside(t)
  {
    Pipeline.Datagram(s, t.offset, l.Payload(t), t.last, false)
  }

  /** A resend is built from the registry alone. */
  function Copy(e: Entry): Datagram {
    Pipeline.Datagram(e.s, e.offset, e.payload, e.flags == FLAG_LAST_BLOCK, true)
  }

  /** An ACK that says no more than the window holds. */
  ghost predicate Honest(ack: Ack, got: set<nat>) {
    && ack.WellFormed() && ack.base <= Mex(got)
    && forall s: nat | Selected(ack, s) :: s in got
  }

  /** An ACK as the receiver builds it now: its base is the window's, its bits are blocks that arrived. */
  ghost predicate Reports(ack: Ack, got: set<nat>) {
    Honest(ack, got) && ack.base == Mex(got)
  }

  lemma BuiltAckReports(ack: Ack, rx: Rx)
    requires AckReflects(ack, rx)
    ensures Reports(ack, rx.got)
  {
    forall s: nat | Selected(ack, s) ensures s in rx.got { assert ack.Selects(s - ack.base); }
  }

  ghost predicate Enabled(l: Lane, cfg: Pipeline.Config, sys: System, a: Action) {
    match a
    case Send(size, _) => sys.tx.Inv(l) && sys.tx.CanSend(l) && size > 0
    case Resend(s) => l.window == |sys.tx.ring| >= 1 && Find(sys.tx.ring, s).Some?
    case EmitAck(ack) => Reports(ack, sys.rx.got)
    case DeliverAck(ack) => ack in sys.acks && ack.WellFormed() && sys.tx.base <= sys.tx.Next()
    case Receive(step) =>
      && Pipeline.Enabled(l, cfg, sys.rx, step)
      && (step.Dispatch? && step.p.authentic ==> step.p.dg in sys.sent)
  }

  ghost function Next(l: Lane, cfg: Pipeline.Config, sys: System, a: Action): System
    requires Enabled(l, cfg, sys, a)
  {
    match a
    case Send(size, now) =>
      var tx := SendNext(l, sys.tx, size, now);
      SendKeepsInv(l, sys.tx, size, now);
      sys.(tx := tx, sent := sys.sent + {FirstCopy(l, sys.tx.Next(), tx.history[sys.tx.Next()])})
    case Resend(s) => sys.(sent := sys.sent + {Copy(Find(sys.tx.ring, s).value)})
    case EmitAck(ack) => sys.(acks := sys.acks + {ack})
    case DeliverAck(ack) => sys.(tx := OnAck(sys.tx, ack))
    case Receive(step) => sys.(rx := Pipeline.Apply(l, cfg, sys.rx, step))
  }

  /** A session over a file that already holds `before`: zeroes, or what an earlier session left. */
  function Initial(l: Lane, cfg: Pipeline.Config, before: seq<byte>): System {
    System(Idle(l), Pipeline.Fresh(l, cfg, before), {}, {})
  }

  // ----- The joint invariant -----

  ghost predicate SentOk(l: Lane, sys: System) {
    forall dg <- sys.sent :: Pipeline.Genuine(l, sys.tx.history, dg)
  }

  ghost predicate AcksOk(sys: System) {
    forall ack <- sys.acks :: Honest(ack, sys.rx.got)
  }

  /** What has been sent is either received or still resident. */
  ghost predicate Retained(sys: System)
    requires |sys.tx.ring| >= 1
  {
    forall s: nat | s < sys.tx.Next() :: s in sys.rx.got || Find(sys.tx.ring, s).Some?
  }

  ghost predicate SelectedBySome(acks: set<Ack>, s: nat) {
    exists ack <- acks :: ack.WellFormed() && Selected(ack, s)
  }

  /**
   No ACK selects the base of any ACK, however old either is; the sender's base is one of
   those bases; and whatever the sender let go at or above its base, some ACK selected.
   */
  ghost predicate BasesOk(acks: set<Ack>, tx: Tx)
    requires |tx.ring| >= 1
  {
    && (forall ack <- acks :: !SelectedBySome(acks, ack.base))
    && (tx.base == 0 || exists ack <- acks :: ack.base == tx.base)
    && (forall s: nat | tx.base <= s < tx.Next() :: Find(tx.ring, s).Some? || SelectedBySome(acks, s))
  }

  /** The sender's mark of the highest block known to have arrived: that block did arrive. */
  ghost predicate EndOk(end: nat, got: set<nat>) { end == 0 || end - 1 in got }

  ghost predicate Inv(l: Lane, cfg: Pipeline.Config, sys: System) {
    && sys.tx.Inv(l) && Pipeline.Inv(l, cfg, sys.tx.history, sys.rx)
    && SentOk(l, sys) && AcksOk(sys) && Retained(sys) && BasesOk(sys.acks, sys.tx)
    && EndOk(sys.tx.receivedEnd, sys.rx.got)
  }

  lemma InitialInv(l: Lane, cfg: Pipeline.Config, before: seq<byte>)
    requires l.Ok() && cfg.Ok() && |before| == |l.data|
    ensures Inv(l, cfg, Initial(l, cfg, before))
  {
    IdleInv(l);
    Pipeline.FreshInv(l, cfg, before);
    hide Pipeline.Inv, Tx.Inv;
  }

  lemma SentGrows(l: Lane, h: seq<Tile>, h': seq<Tile>, sent: set<Datagram>)
    requires h <= h' && forall dg <- sent :: Pipeline.Genuine(l, h, dg)
    ensures forall dg <- sent :: Pipeline.Genuine(l, h', dg)
  {}

  lemma SendKeepsReceiver(l: Lane, cfg: Pipeline.Config, sys: System, size: nat, now: nat)
    requires Inv(l, cfg, sys) && Enabled(l, cfg, sys, Send(size, now))
    ensures var after := Next(l, cfg, sys, Send(size, now));
            Pipeline.Inv(l, cfg, after.tx.history, after.rx) && SentOk(l, after)
  {
    hide Pipeline.Inv, Tx.TilesOk, Cut, Advance, Lane.Ok, BasesOk, Retained, AcksOk;
    SendKeepsInv(l, sys.tx, size, now);
    var after := Next(l, cfg, sys, Send(size, now));
    Pipeline.HistoryGrows(l, cfg, sys.tx.history, after.tx.history, sys.rx);
    SentGrows(l, sys.tx.history, after.tx.history, sys.sent);
  }

  lemma SendKeepsRetained(l: Lane, cfg: Pipeline.Config, sys: System, size: nat, now: nat)
    requires Inv(l, cfg, sys) && Enabled(l, cfg, sys, Send(size, now))
    ensures Retained(Next(l, cfg, sys, Send(size, now)))
  {
    var after := Next(l, cfg, sys, Send(size, now));
    SendKeepsInv(l, sys.tx, size, now);
    forall s: nat | s < after.tx.Next() ensures s in after.rx.got || Find(after.tx.ring, s).Some? {
      if s !in sys.rx.got {
        if s < sys.tx.Next() { FoundAsSent(l, sys.tx, s); }
        SendKeepsResidents(l, sys.tx, size, now, s);
        SentIsFound(l, sys.tx, size, now);
      }
    }
  }

  lemma SendKeepsBases(l: Lane, acks: set<Ack>, tx: Tx, size: nat, now: nat)
    requires tx.Inv(l) && tx.CanSend(l) && size > 0 && BasesOk(acks, tx)
    ensures BasesOk(acks, SendNext(l, tx, size, now))
  {
    SendKeepsInv(l, tx, size, now);
    var after := SendNext(l, tx, size, now);
    SentIsFound(l, tx, size, now);
    assert after.base == tx.base && after.Next() == tx.Next() + 1;
    hide SendNext, Find, SelectedBySome, Tx.Inv;
    forall s: nat | after.base <= s < after.Next() ensures Find(after.ring, s).Some? || SelectedBySome(acks, s) {
      SendKeepsResidents(l, tx, size, now, s);
    }
  }

  lemma SentIsFound(l: Lane, tx: Tx, size: nat, now: nat)
    requires tx.Inv(l) && tx.CanSend(l) && size > 0
    ensures Find(SendNext(l, tx, size, now).ring, tx.Next()).Some?
  {
    hide Tx.TilesOk, Cut, Advance;
  }

  lemma SendStep(l: Lane, cfg: Pipeline.Config, sys: System, size: nat, now: nat)
    requires Inv(l, cfg, sys) && Enabled(l, cfg, sys, Send(size, now))
    ensures Inv(l, cfg, Next(l, cfg, sys, Send(size, now)))
  {
    SendKeepsInv(l, sys.tx, size, now);
    SendKeepsReceiver(l, cfg, sys, size, now);
    SendKeepsRetained(l, cfg, sys, size, now);
    SendKeepsBases(l, sys.acks, sys.tx, size, now);
    hide Pipeline.Inv, Tx.Inv, SentOk, Retained, Honest, BasesOk;
  }

  /** A resend carries the bytes, offset and last-block mark of the first transmission. */
  lemma CopyIsGenuine(l: Lane, tx: Tx, s: nat)
    requires tx.Inv(l) && Find(tx.ring, s).Some?
    ensures s < tx.Next() && Pipeline.Genuine(l, tx.history, Copy(Find(tx.ring, s).value))
  {
    FoundAsSent(l, tx, s);
    hide Tx.TilesOk;
  }

  lemma ResendStep(l: Lane, cfg: Pipeline.Config, sys: System, s: nat)
    requires Inv(l, cfg, sys) && Enabled(l, cfg, sys, Resend(s))
    ensures Inv(l, cfg, Next(l, cfg, sys, Resend(s)))
  {
    hide Pipeline.Inv, Tx.Inv, Pipeline.Genuine, Find, BasesOk, Copy, Honest, EndOk;
    CopyIsGenuine(l, sys.tx, s);
  }

  /** An honest ACK frees only what the receiver has. */
  lemma HonestAckFreesReceived(ack: Ack, got: set<nat>, base: nat, next: nat)
    requires Honest(ack, got) && base <= next
    ensures forall s <- Acked(ack, base, next) :: s in got
  {}

  /** A new ACK's base was selected by none before it, and it selects the base of none. */
  lemma EmitKeepsBases(acks: set<Ack>, tx: Tx, got: set<nat>, ack: Ack)
    requires |tx.ring| >= 1 && BasesOk(acks, tx) && Reports(ack, got)
    requires forall a <- acks :: Honest(a, got)
    ensures BasesOk(acks + {ack}, tx)
  {
    forall a <- acks + {ack} ensures !SelectedBySome(acks + {ack}, a.base) {
      assert Honest(a, got);
    }
    forall s: nat | tx.base <= s < tx.Next()
      ensures Find(tx.ring, s).Some? || SelectedBySome(acks + {ack}, s)
    {
      if SelectedBySome(acks, s) { var b :| b in acks && b.WellFormed() && Selected(b, s); assert b in acks + {ack}; }
    }
  }

  lemma AckKeepsBases(l: Lane, acks: set<Ack>, tx: Tx, ack: Ack)
    requires tx.Inv(l) && BasesOk(acks, tx) && ack in acks && ack.WellFormed() && ack.base <= tx.Next()
    ensures BasesOk(acks, OnAck(tx, ack))
  {
    var after := OnAck(tx, ack);
    AnyAckKeepsInv(l, tx, ack);
    assert after.base == tx.base || after.base == ack.base;
    hide Find, Tx.Inv, Freed, ResidentBytes, SelectedEnd;
    forall s: nat | after.base <= s < after.Next() ensures Find(after.ring, s).Some? || SelectedBySome(acks, s) {
      AckFreesOnlyAcked(l, tx, ack, s);
      if s in Acked(ack, tx.base, tx.Next()) { assert Selected(ack, s); }
    }
  }

  lemma {:induction false} SelectedEndArrived(ack: Ack, got: set<nat>, upto: nat)
    requires Honest(ack, got)
    ensures EndOk(SelectedEnd(ack, upto), got)
  {
    if upto > 0 { SelectedEndArrived(ack, got, upto - 1); }
  }

  /** An honest ACK raises the mark only to blocks that arrived. */
  lemma AckKeepsEnd(tx: Tx, ack: Ack, got: set<nat>)
    requires Honest(ack, got) && tx.base <= tx.Next() && tx.base <= Mex(got) && EndOk(tx.receivedEnd, got)
    ensures EndOk(OnAck(tx, ack).receivedEnd, got)
  {
    SelectedEndArrived(ack, got, tx.Next());
    hide SelectedEnd, Freed, Acked, ResidentBytes;
  }

  lemma AckStep(l: Lane, cfg: Pipeline.Config, sys: System, ack: Ack)
    requires Inv(l, cfg, sys) && Enabled(l, cfg, sys, DeliverAck(ack))
    ensures Inv(l, cfg, Next(l, cfg, sys, DeliverAck(ack)))
  {
    var after := Next(l, cfg, sys, DeliverAck(ack));
    AnyAckKeepsInv(l, sys.tx, ack);
    HonestAckFreesReceived(ack, sys.rx.got, sys.tx.base, sys.tx.Next());
    BaseBelowNext(l, cfg, sys);
    AckKeepsBases(l, sys.acks, sys.tx, ack);
    AckKeepsEnd(sys.tx, ack, sys.rx.got);
    hide BasesOk, Pipeline.Inv, Tx.Inv, Pipeline.Genuine, Find, Acked, Honest, Freed, ResidentBytes, NewBase, SelectedEnd;
    forall s: nat | s < after.tx.Next() ensures s in after.rx.got || Find(after.tx.ring, s).Some? {
      AckFreesOnlyAcked(l, sys.tx, ack, s);
    }
  }

  /** The receiver's base never passes what was sent, nor the sender's base the receiver's. */
  lemma BaseBelowNext(l: Lane, cfg: Pipeline.Config, sys: System)
    requires Inv(l, cfg, sys)
    ensures sys.tx.base <= sys.rx.Base() <= sys.tx.Next()
  {
    if sys.rx.Base() < sys.tx.base { FoundAsSent(l, sys.tx, sys.rx.Base()); }
    assert sys.rx.Base() > sys.tx.Next() ==> sys.tx.Next() in sys.rx.got;
  }

  lemma HonestStays(ack: Ack, a: set<nat>, b: set<nat>)
    requires Honest(ack, a) && a <= b
    ensures Honest(ack, b)
  {
    MexMonotone(a, b);
  }

  lemma ReceiveStep(l: Lane, cfg: Pipeline.Config, sys: System, step: Pipeline.Step)
    requires Inv(l, cfg, sys) && Enabled(l, cfg, sys, Receive(step))
    ensures Inv(l, cfg, Next(l, cfg, sys, Receive(step)))
  {
    hide Pipeline.Inv, Tx.Inv, Pipeline.Genuine, Find, Honest, BasesOk, Pipeline.Apply, Pipeline.Enabled;
    Pipeline.StepKeepsInv(l, cfg, sys.tx.history, sys.rx, step);
    var after := Next(l, cfg, sys, Receive(step));
    WindowGrows(l, cfg, sys.rx, step);
    forall ack <- after.acks ensures Honest(ack, after.rx.got) { HonestStays(ack, sys.rx.got, after.rx.got); }
  }

  lemma WindowGrows(l: Lane, cfg: Pipeline.Config, rx: Pipe, step: Pipeline.Step)
    requires Pipeline.Enabled(l, cfg, rx, step)
    ensures rx.got <= Pipeline.Apply(l, cfg, rx, step).got
  {}

  lemma EmitStep(l: Lane, cfg: Pipeline.Config, sys: System, ack: Ack)
    requires Inv(l, cfg, sys) && Enabled(l, cfg, sys, EmitAck(ack))
    ensures Inv(l, cfg, Next(l, cfg, sys, EmitAck(ack)))
  {
    assert |sys.tx.ring| >= 1;
    hide Pipeline.Inv, Tx.Inv, Pipeline.Genuine, Find, Honest, BasesOk, EndOk, Mex;
    EmitKeepsBases(sys.acks, sys.tx, sys.rx.got, ack);
  }

  lemma ActionKeepsInv(l: Lane, cfg: Pipeline.Config, sys: System, a: Action)
    requires Inv(l, cfg, sys) && Enabled(l, cfg, sys, a)
    ensures Inv(l, cfg, Next(l, cfg, sys, a))
  {
    hide Inv, Enabled, Next;
    match a
    case Send(size, now) => SendStep(l, cfg, sys, size, now);
    case Resend(s) => ResendStep(l, cfg, sys, s);
    case EmitAck(ack) => EmitStep(l, cfg, sys, ack);
    case DeliverAck(ack) => AckStep(l, cfg, sys, ack);
    case Receive(step) => ReceiveStep(l, cfg, sys, step);
  }

  // ----- Every run -----

  /** From `sys`, the actions `acts` can happen in that order and lead to `end`. */
  ghost predicate Leads(l: Lane, cfg: Pipeline.Config, sys: System, acts: seq<Action>, end: System)
    decreases |acts|
  {
    if acts == [] then sys == end
    else Enabled(l, cfg, sys, acts[0]) && Leads(l, cfg, Next(l, cfg, sys, acts[0]), acts[1..], end)
  }

  /** `acts` is a run of one session over a file that held `before`, and `sys` the state it ends in. */
  ghost predicate Reaches(l: Lane, cfg: Pipeline.Config, before: seq<byte>, acts: seq<Action>, sys: System) {
    && l.Ok() && cfg.Ok() && |before| == |l.data|
    && Leads(l, cfg, Initial(l, cfg, before), acts, sys)
  }

  lemma {:induction false} LeadsKeepsInv(l: Lane, cfg: Pipeline.Config, sys: System, acts: seq<Action>, end: System)
    requires Inv(l, cfg, sys) && Leads(l, cfg, sys, acts, end)
    ensures Inv(l, cfg, end) && |sys.rx.out| == |end.rx.out| == |l.data|
    ensures forall o | 0 <= o < |l.data| :: end.rx.out[o] == sys.rx.out[o] || end.rx.out[o] == l.data[o]
    decreases |acts|
  {
    InvShape(l, cfg, sys);
    hide Inv, Enabled, Next;
    if acts != [] {
      var mid := Next(l, cfg, sys, acts[0]);
      ActionKeepsInv(l, cfg, sys, acts[0]);
      LeadsKeepsInv(l, cfg, mid, acts[1..], end);
      forall o | 0 <= o < |l.data| ensures end.rx.out[o] == sys.rx.out[o] || end.rx.out[o] == l.data[o] {
        ActionOnlyRights(l, cfg, sys, acts[0], o);
      }
    }
  }

  /** The joint invariant holds in every run; and a byte of the file only ever changes to the source's. */
  lemma RunKeepsInv(l: Lane, cfg: Pipeline.Config, before: seq<byte>, acts: seq<Action>, sys: System)
    requires Reaches(l, cfg, before, acts, sys)
    ensures Inv(l, cfg, sys) && |sys.rx.out| == |before| == |l.data|
    ensures forall o | 0 <= o < |l.data| :: sys.rx.out[o] == before[o] || sys.rx.out[o] == l.data[o]
  {
    InitialInv(l, cfg, before);
    LeadsKeepsInv(l, cfg, Initial(l, cfg, before), acts, sys);
  }

  lemma InvShape(l: Lane, cfg: Pipeline.Config, sys: System)
    requires Inv(l, cfg, sys)
    ensures |sys.rx.out| == |l.data|
  {}

  lemma ActionOnlyRights(l: Lane, cfg: Pipeline.Config, sys: System, a: Action, o: nat)
    requires Inv(l, cfg, sys) && Enabled(l, cfg, sys, a) && o < |l.data|
    ensures var out := Next(l, cfg, sys, a).rx.out;
            |out| == |l.data| && |sys.rx.out| == |l.data| && (out[o] == sys.rx.out[o] || out[o] == l.data[o])
  {
    InvShape(l, cfg, sys);
    if a.Receive? { Pipeline.BytesOnlyGetRight(l, cfg, sys.tx.history, sys.rx, a.step, o); }
    hide Pipeline.Inv, Tx.Inv, BasesOk, Retained, SentOk, AcksOk;
  }

  /**
   No wedge. In every run, a block that was sent and has not reached the receiver's window is
   still in the registry exactly as first sent, so any NACK for it can be served; and the block
   at the sender's base is there whenever anything is outstanding, so a timeout can be served too.
   */
  lemma NoWedge(l: Lane, cfg: Pipeline.Config, before: seq<byte>, acts: seq<Action>, sys: System, s: nat)
    requires Reaches(l, cfg, before, acts, sys)
    requires s < sys.tx.Next() && (s !in sys.rx.got || s == sys.tx.base)
    ensures |sys.tx.ring| >= 1 && Find(sys.tx.ring, s).Some?
    ensures l.Inside(sys.tx.history[s])
    ensures Enabled(l, cfg, sys, Resend(s))
    ensures var e := Find(sys.tx.ring, s).value; e == l.EntryOf(s, sys.tx.history[s], e.sendTime)
  {
    RunKeepsInv(l, cfg, before, acts, sys);
    if s == sys.tx.base { BaseIsResident(l, cfg, sys); }
    FoundAsSent(l, sys.tx, s);
  }

  lemma BaseIsSelectedByNone(acks: set<Ack>, tx: Tx)
    requires |tx.ring| >= 1 && BasesOk(acks, tx)
    ensures !SelectedBySome(acks, tx.base)
  {
    assert forall ack <- acks :: ack.WellFormed() && Selected(ack, 0) ==> SelectedBySome(acks, ack.base);
  }

  lemma BaseIsResident(l: Lane, cfg: Pipeline.Config, sys: System)
    requires Inv(l, cfg, sys) && sys.tx.base < sys.tx.Next()
    ensures Find(sys.tx.ring, sys.tx.base).Some?
  {
    assert |sys.tx.ring| >= 1;
    hide Pipeline.Inv, Tx.Inv, Find, SentOk, Retained;
    BaseIsSelectedByNone(sys.acks, sys.tx);
  }

  /** An honest sender's blocks always fit: nothing ever sent lies above the receiver's window. */
  lemma NeverOutOfWindow(l: Lane, cfg: Pipeline.Config, before: seq<byte>, acts: seq<Action>, sys: System, dg: Datagram, w: Rx)
    requires Reaches(l, cfg, before, acts, sys)
    requires dg in sys.sent && w.got == sys.rx.got
    ensures w.Judge(l.window, dg.s) != OutOfWindow
    ensures sys.tx.base <= w.Base() <= sys.tx.Next() <= sys.tx.base + l.window
  {
    RunKeepsInv(l, cfg, before, acts, sys);
    BaseBelowNext(l, cfg, sys);
  }

  /** Every requested byte is the source's, and the receiver counted exactly those bytes. */
  ghost predicate Delivered(l: Lane, sys: System) {
    && |sys.rx.out| == |l.data|
    && (forall o <- RangeBytes(l.ranges) :: o < |l.data| && sys.rx.out[o] == l.data[o])
    && sys.rx.written == |RangeBytes(l.ranges)|
    && sys.rx.final.Some?
  }

  lemma {:induction false} AllGotBytes(h: seq<Tile>, got: set<nat>, n: nat)
    requires n <= |h| && forall s: nat | s < n :: s in got
    ensures Pipeline.GotBytes(h, got, n) == |TileBytes(h[..n])|
  {
    if n > 0 {
      AllGotBytes(h, got, n - 1);
      TileBytesAppend(h[..n - 1], h[n - 1]);
      assert h[..n] == h[..n - 1] + [h[n - 1]];
    }
  }

  /** Once the last block is sent and every block is in the window, the lane is delivered. */
  lemma EverythingArrived(l: Lane, cfg: Pipeline.Config, sys: System)
    requires Inv(l, cfg, sys) && sys.tx.sentLast && sys.rx.Base() >= sys.tx.Next()
    ensures Delivered(l, sys)
  {
    var h := sys.tx.history;
    assert TileBytes(h) == RangeBytes(l.ranges) by { assert TileBytes(h) + [] == TileBytes(h); }
    AllGotBytes(h, sys.rx.got, |h|);
    assert h[..|h|] == h;
    assert h[|h| - 1].last && |h| - 1 in sys.rx.got;
    forall o <- RangeBytes(l.ranges) ensures o < |l.data| && sys.rx.out[o] == l.data[o] {
      ByteArrived(l, cfg, sys, o);
    }
  }

  lemma ByteArrived(l: Lane, cfg: Pipeline.Config, sys: System, o: nat)
    requires Inv(l, cfg, sys) && sys.rx.Base() >= sys.tx.Next() && o in TileBytes(sys.tx.history)
    ensures o < |l.data| == |sys.rx.out| && sys.rx.out[o] == l.data[o]
  {
    TileBytesMember(sys.tx.history, o);
    var s :| 0 <= s < |sys.tx.history| && sys.tx.history[s].Covers(o);
    assert s in sys.rx.got && s in sys.rx.wrote;
    assert Pipeline.Landed(l, sys.tx.history[s], sys.rx.out);
    hide Pipeline.MarksOk, Pipeline.OwnersOk, Pipeline.ChannelsOk, Mex, SentOk, Retained, BasesOk;
  }

  /**
   End-to-end safety, the sender's side: when the sender leaves its loop (last block sent,
   base past everything sent), all it was asked for is in the receiver's file.
   */
  lemma SenderDoneIsDelivered(l: Lane, cfg: Pipeline.Config, before: seq<byte>, acts: seq<Action>, sys: System)
    requires Reaches(l, cfg, before, acts, sys)
    requires sys.tx.sentLast && sys.tx.base >= sys.tx.Next()
    ensures Delivered(l, sys)
  {
    RunKeepsInv(l, cfg, before, acts, sys);
    BaseBelowNext(l, cfg, sys);
    EverythingArrived(l, cfg, sys);
  }

  /** The receiver's side: when its base is past the block marked last. */
  lemma ReceiverDoneIsDelivered(l: Lane, cfg: Pipeline.Config, before: seq<byte>, acts: seq<Action>, sys: System)
    requires Reaches(l, cfg, before, acts, sys)
    requires sys.rx.final.Some? && sys.rx.final.value < sys.rx.Base()
    ensures Delivered(l, sys)
  {
    RunKeepsInv(l, cfg, before, acts, sys);
    assert sys.tx.history[sys.rx.final.value].last;
    EverythingArrived(l, cfg, sys);
  }
}
