/**
 No dead ends: from every state a lane can get into, there is a way to go on that ends with
 the sender done and everything delivered. Nothing has to be remembered for it but what the
 registry and the window hold.
 */
module Progress {
  import opened Word64
  import opened Basics
  import opened Control
  import opened ReceiverWindow
  import opened Registry
  import opened Tiling
  import opened LaneSender
  import opened LaneSystem
  import Lanes
  import Pipeline

  /** Ring capacities that let a block through at all. */
  ghost predicate Usable(l: Lane, cfg: Pipeline.Config, sys: System) {
    Inv(l, cfg, sys) && cfg.slots >= 1 && cfg.rtxSlots >= 1
  }

  // ----- Emptying the pipeline -----

  /** Work left in a channel, so counted that every step of its consumer or of the reader takes some away. */
  function Todo(ch: Pipeline.Channel): int {
    match ch.work
    case Idle => 5 * |ch.inq| + |ch.done|
    case Busy(_, out) => 5 * |ch.inq| + |ch.done| - 1 - |out|
    case Reported(n) => 5 * (|ch.inq| - n) + |ch.done| + 1
  }

  function TotalTodo(channels: seq<Pipeline.Channel>): int {
    if channels == [] then 0 else Todo(channels[0]) + TotalTodo(channels[1..])
  }

  lemma {:induction false} TodoUpdate(channels: seq<Pipeline.Channel>, c: nat, ch: Pipeline.Channel)
    requires c < |channels|
    ensures TotalTodo(channels[c := ch]) == TotalTodo(channels) - Todo(channels[c]) + Todo(ch)
  {
    if c == 0 {
      assert channels[0 := ch][1..] == channels[1..];
    } else {
      assert channels[c := ch][1..] == channels[1..][c - 1 := ch];
      TodoUpdate(channels[1..], c - 1, ch);
    }
  }

  lemma {:induction false} TodoIsNatural(channels: seq<Pipeline.Channel>)
    requires forall i | 0 <= i < |channels| :: Todo(channels[i]) >= 0
    ensures TotalTodo(channels) >= 0
  {
    if channels != [] { TodoIsNatural(channels[1..]); }
  }

  lemma ChannelTodo(l: Lane, h: seq<Tile>, rx: Pipe, c: nat)
    requires Pipeline.ChannelsOk(l, h, rx) && c < |rx.channels|
    ensures Todo(rx.channels[c]) >= 0
  {
    Pipeline.ChannelAt(l, h, rx, c);
  }

  /** What a channel with work in it does next. */
  function NextOf(rx: Pipe, c: nat): Pipeline.Step
    requires c < |rx.channels|
  {
    var ch := rx.channels[c];
    if ch.done != [] then Pipeline.Drain(c)
    else match ch.work
      case Idle => Pipeline.Take(c, 1)
      case Busy(n, out) => if |out| < n then Pipeline.Write(c, true, 0) else Pipeline.Commit(c)
      case Reported(_) => Pipeline.Release(c)
  }

  /** The channel has that work, and `step` takes some of it away. */
  ghost predicate TakesWork(l: Lane, cfg: Pipeline.Config, rx: Pipe, step: Pipeline.Step) {
    && Pipeline.Enabled(l, cfg, rx, step) && !step.Dispatch?
    && TotalTodo(Pipeline.Apply(l, cfg, rx, step).channels) < TotalTodo(rx.channels)
  }

  lemma DrainTakesWork(l: Lane, cfg: Pipeline.Config, rx: Pipe, c: nat)
    requires Pipeline.Shaped(l, cfg, rx) && c < |rx.channels| && rx.channels[c].done != []
    ensures TakesWork(l, cfg, rx, Pipeline.Drain(c))
  {
    hide TotalTodo, Mex;
    TodoUpdate(rx.channels, c, Pipeline.Apply(l, cfg, rx, Pipeline.Drain(c)).channels[c]);
  }

  lemma TakeTakesWork(l: Lane, cfg: Pipeline.Config, rx: Pipe, c: nat)
    requires Pipeline.Shaped(l, cfg, rx) && c < |rx.channels| && rx.channels[c].done == [] && cfg.slots >= 1 && cfg.rtxSlots >= 1
    requires rx.channels[c].work.Idle? && rx.channels[c].inq != []
    ensures TakesWork(l, cfg, rx, Pipeline.Take(c, 1))
  {
    hide TotalTodo;
    TodoUpdate(rx.channels, c, Pipeline.Apply(l, cfg, rx, Pipeline.Take(c, 1)).channels[c]);
  }

  lemma WriteTakesWork(l: Lane, cfg: Pipeline.Config, rx: Pipe, c: nat)
    requires Pipeline.Shaped(l, cfg, rx) && c < |rx.channels| && rx.channels[c].work.Busy?
    requires |rx.channels[c].work.out| < rx.channels[c].work.n <= |rx.channels[c].inq|
    ensures TakesWork(l, cfg, rx, Pipeline.Write(c, true, 0))
  {
    hide TotalTodo, Pipeline.WriteOut, Pipeline.Judged;
    TodoUpdate(rx.channels, c, Pipeline.Apply(l, cfg, rx, Pipeline.Write(c, true, 0)).channels[c]);
  }

  lemma CommitTakesWork(l: Lane, cfg: Pipeline.Config, rx: Pipe, c: nat)
    requires Pipeline.Shaped(l, cfg, rx) && c < |rx.channels| && rx.channels[c].work.Busy?
    requires 1 <= |rx.channels[c].work.out| == rx.channels[c].work.n <= |rx.channels[c].inq|
    ensures TakesWork(l, cfg, rx, Pipeline.Commit(c))
  {
    hide TotalTodo;
    TodoUpdate(rx.channels, c, Pipeline.Apply(l, cfg, rx, Pipeline.Commit(c)).channels[c]);
  }

  lemma ReleaseTakesWork(l: Lane, cfg: Pipeline.Config, rx: Pipe, c: nat)
    requires Pipeline.Shaped(l, cfg, rx) && c < |rx.channels| && rx.channels[c].work.Reported?
    requires rx.channels[c].work.n <= |rx.channels[c].inq|
    ensures TakesWork(l, cfg, rx, Pipeline.Release(c))
  {
    hide TotalTodo;
    TodoUpdate(rx.channels, c, Pipeline.Apply(l, cfg, rx, Pipeline.Release(c)).channels[c]);
  }

  lemma NextTakesWork(l: Lane, cfg: Pipeline.Config, h: seq<Tile>, rx: Pipe, c: nat)
    requires Pipeline.Inv(l, cfg, h, rx) && cfg.slots >= 1 && cfg.rtxSlots >= 1
    requires c < |rx.channels| && rx.channels[c] != Pipeline.Channel([], Pipeline.Idle, [])
    ensures TakesWork(l, cfg, rx, NextOf(rx, c))
  {
    Pipeline.ChannelAt(l, h, rx, c);
    var ch := rx.channels[c];
    assert Pipeline.Shaped(l, cfg, rx);
    assert ch.work.Busy? ==> |ch.work.out| <= ch.work.n <= |ch.inq| && ch.work.n >= 1;
    assert ch.work.Reported? ==> ch.work.n <= |ch.inq|;
    hide Pipeline.Inv, TakesWork, Pipeline.Shaped, Pipeline.ChannelOk;
    if ch.done != [] {
      DrainTakesWork(l, cfg, rx, c);
    } else if ch.work.Idle? {
      TakeTakesWork(l, cfg, rx, c);
    } else if ch.work.Reported? {
      ReleaseTakesWork(l, cfg, rx, c);
    } else if |ch.work.out| < ch.work.n {
      WriteTakesWork(l, cfg, rx, c);
    } else {
      CommitTakesWork(l, cfg, rx, c);
    }
  }

  lemma SettleStep(l: Lane, cfg: Pipeline.Config, sys: System) returns (a: Action)
    requires Usable(l, cfg, sys) && !Lanes.Quiet(sys.rx)
    ensures a.Receive? && Enabled(l, cfg, sys, a) && Usable(l, cfg, Next(l, cfg, sys, a))
    ensures 0 <= TotalTodo(Next(l, cfg, sys, a).rx.channels) < TotalTodo(sys.rx.channels)
  {
    hide Inv, Pipeline.Inv, Pipeline.Enabled, Pipeline.Apply, TotalTodo, NextOf;
    var c: nat :| c < |sys.rx.channels| && sys.rx.channels[c] != Pipeline.Channel([], Pipeline.Idle, []);
    var step := NextOf(sys.rx, c);
    PipelineInv(l, cfg, sys);
    NextTakesWork(l, cfg, sys.tx.history, sys.rx, c);
    a := Receive(step);
    ActionKeepsInv(l, cfg, sys, a);
    WorkIsNatural(l, cfg, Next(l, cfg, sys, a));
  }

  lemma PipelineInv(l: Lane, cfg: Pipeline.Config, sys: System)
    requires Inv(l, cfg, sys)
    ensures Pipeline.Inv(l, cfg, sys.tx.history, sys.rx)
  {
    hide Pipeline.Inv, Tx.Inv, SentOk, Retained, BasesOk;
  }

  lemma OnlyReceiver(l: Lane, cfg: Pipeline.Config, sys: System, a: Action)
    requires a.Receive? && Enabled(l, cfg, sys, a)
    ensures var after := Next(l, cfg, sys, a); after.tx == sys.tx && after.sent == sys.sent && after.acks == sys.acks
  {
    hide Pipeline.Enabled, Pipeline.Apply;
  }

  /** The pipeline can always be emptied, whatever its threads are in the middle of. */
  lemma {:induction false} Settle(l: Lane, cfg: Pipeline.Config, sys: System) returns (acts: seq<Action>, end: System)
    requires Usable(l, cfg, sys)
    ensures Leads(l, cfg, sys, acts, end) && Usable(l, cfg, end) && Lanes.Quiet(end.rx)
    ensures end.tx == sys.tx && end.sent == sys.sent && end.acks == sys.acks
    decreases TotalTodo(sys.rx.channels)
  {
    hide Usable, Enabled, Next, Lanes.Quiet, TotalTodo;
    if Lanes.Quiet(sys.rx) {
      acts, end := [], sys;
    } else {
      var a := SettleStep(l, cfg, sys);
      OnlyReceiver(l, cfg, sys, a);
      var rest, last := Settle(l, cfg, Next(l, cfg, sys, a));
      Lanes.LeadsOne(l, cfg, sys, a, rest, last);
      acts, end := [a] + rest, last;
    }
  }

  lemma WorkIsNatural(l: Lane, cfg: Pipeline.Config, sys: System)
    requires Inv(l, cfg, sys)
    ensures TotalTodo(sys.rx.channels) >= 0
  {
    forall i | 0 <= i < |sys.rx.channels| ensures Todo(sys.rx.channels[i]) >= 0 { ChannelTodo(l, sys.tx.history, sys.rx, i); }
    TodoIsNatural(sys.rx.channels);
  }

  // ----- Bringing over what is missing -----

  /** The lowest missing block can be resent and taken in. */
  lemma DeliverLowest(l: Lane, cfg: Pipeline.Config, sys: System) returns (acts: seq<Action>, end: System)
    requires Usable(l, cfg, sys) && Lanes.Quiet(sys.rx) && sys.rx.Base() < sys.tx.Next()
    ensures Leads(l, cfg, sys, acts, end) && Usable(l, cfg, end) && Lanes.Quiet(end.rx)
    ensures end.tx == sys.tx && end.rx.Base() > sys.rx.Base()
  {
    var s := sys.rx.Base();
    var mid := Next(l, cfg, sys, Resend(s));
    var dg := Copy(Find(sys.tx.ring, s).value);
    ActionKeepsInv(l, cfg, sys, Resend(s));
    CopyIsGenuine(l, sys.tx, s);
    assert Lanes.CanRunAlone(l, cfg, mid.tx.history, mid.rx, dg) && dg in mid.sent && dg.s == s;
    end := mid.(rx := Lanes.MuxReceive(l, mid.rx, dg));
    assert Lanes.Quiet(end.rx) && end.rx.got == sys.rx.got + {s};
    BaseMoves(sys.rx.got);
    hide Inv, Lanes.CanRunAlone, Lanes.Alone, Lanes.MuxReceive, Enabled, Next;
    Lanes.MuxReceiveIsPipelined(l, cfg, mid, dg);
    var rest := Lanes.Alone(dg, cfg.Route(dg));
    LeadsKeepsInv(l, cfg, mid, rest, end);
    Lanes.LeadsOne(l, cfg, sys, Resend(s), rest, end);
    acts := [Resend(s)] + rest;
  }

  lemma BaseMoves(got: set<nat>)
    ensures Mex(got + {Mex(got)}) > Mex(got)
  {
    MexMonotone(got, got + {Mex(got)});
  }

  lemma {:induction false} DeliverRest(l: Lane, cfg: Pipeline.Config, sys: System) returns (acts: seq<Action>, end: System)
    requires Usable(l, cfg, sys) && Lanes.Quiet(sys.rx)
    ensures Leads(l, cfg, sys, acts, end) && Usable(l, cfg, end) && Lanes.Quiet(end.rx)
    ensures end.tx == sys.tx && end.rx.Base() == end.tx.Next()
    decreases sys.tx.Next() - sys.rx.Base()
  {
    BaseBelowNext(l, cfg, sys);
    hide Inv, Lanes.Quiet, Mex;
    if sys.rx.Base() == sys.tx.Next() {
      acts, end := [], sys;
    } else {
      var first, mid := DeliverLowest(l, cfg, sys);
      BaseBelowNext(l, cfg, mid);
      var rest, last := DeliverRest(l, cfg, mid);
      Lanes.LeadsJoin(l, cfg, sys, first, mid, rest, last);
      acts, end := first + rest, last;
    }
  }

  // ----- Acknowledging -----

  const NO_BITS: seq<uint64> := seq(MASK_WORDS, _ => 0)

  /** A bare cumulative ACK is one the receiver may send, and brings the sender's base up to its own. */
  lemma Acknowledge(l: Lane, cfg: Pipeline.Config, sys: System) returns (acts: seq<Action>, end: System)
    requires Usable(l, cfg, sys) && Lanes.Quiet(sys.rx) && sys.rx.Base() == sys.tx.Next()
    ensures Leads(l, cfg, sys, acts, end) && Usable(l, cfg, end) && Lanes.Quiet(end.rx)
    ensures end.tx.base == end.tx.Next() && end.tx.history == sys.tx.history
    ensures end.tx.cursor == sys.tx.cursor && end.tx.sentLast == sys.tx.sentLast
  {
    var ack := Ack(0, sys.rx.Base(), NO_BITS, 0, 0, RWND_UNLIMITED);
    NothingSelected(ack);
    assert Reports(ack, sys.rx.got);
    var mid := Next(l, cfg, sys, EmitAck(ack));
    ActionKeepsInv(l, cfg, sys, EmitAck(ack));
    assert Enabled(l, cfg, mid, DeliverAck(ack));
    end := Next(l, cfg, mid, DeliverAck(ack));
    ActionKeepsInv(l, cfg, mid, DeliverAck(ack));
    BaseBelowNext(l, cfg, sys);
    assert end.tx.base == end.tx.Next();
    hide Inv, Enabled, Next;
    Lanes.LeadsOne(l, cfg, mid, DeliverAck(ack), [], end);
    Lanes.LeadsOne(l, cfg, sys, EmitAck(ack), [DeliverAck(ack)], end);
    acts := [EmitAck(ack)] + [DeliverAck(ack)];
  }

  lemma NothingSelected(ack: Ack)
    requires ack.mask == NO_BITS
    ensures ack.WellFormed() && forall s: nat :: !Selected(ack, s)
  {
    forall s: nat ensures !Selected(ack, s) {
      if s >= ack.base && s - ack.base < MAX_WINDOW { BitZero((s - ack.base) % 64); }
    }
  }

  // ----- To the end -----

  /** Everything sent so far brought over and acknowledged. */
  lemma CatchUp(l: Lane, cfg: Pipeline.Config, sys: System) returns (acts: seq<Action>, end: System)
    requires Usable(l, cfg, sys)
    ensures Leads(l, cfg, sys, acts, end) && Usable(l, cfg, end) && Lanes.Quiet(end.rx)
    ensures end.tx.base == end.tx.Next() && end.tx.history == sys.tx.history
    ensures end.tx.cursor == sys.tx.cursor && end.tx.sentLast == sys.tx.sentLast
  {
    hide Inv, Lanes.Quiet;
    var a1, s1 := Settle(l, cfg, sys);
    var a2, s2 := DeliverRest(l, cfg, s1);
    var a3, s3 := Acknowledge(l, cfg, s2);
    Lanes.LeadsJoin(l, cfg, sys, a1, s1, a2, s2);
    Lanes.LeadsJoin(l, cfg, sys, a1 + a2, s2, a3, s3);
    acts, end := a1 + a2 + a3, s3;
  }

  /** How much there is left to send. */
  ghost function Unsent(l: Lane, sys: System): nat
    requires sys.tx.Inv(l)
  {
    |Remaining(l.ranges, sys.tx.cursor)| + if sys.tx.sentLast then 0 else 1
  }

  lemma SendMore(l: Lane, cfg: Pipeline.Config, sys: System)
    requires Inv(l, cfg, sys) && sys.tx.base == sys.tx.Next() && !sys.tx.sentLast
    ensures Enabled(l, cfg, sys, Send(1, 0))
    ensures var after := Next(l, cfg, sys, Send(1, 0)); Inv(l, cfg, after) && Unsent(l, after) < Unsent(l, sys)
  {
    assert sys.tx.CanSend(l);
    ActionKeepsInv(l, cfg, sys, Send(1, 0));
    CutTakesFront(l.ranges, sys.tx.cursor, 1);
    hide Pipeline.Inv, Retained, BasesOk, SentOk, AcksOk, Tx.RingOk;
  }

  /**
   From every state that any run can reach, the lane can still finish: the sender leaves its loop
   in the regular way and every requested byte is in place.
   */
  lemma {:induction false} CanAlwaysFinish(l: Lane, cfg: Pipeline.Config, sys: System) returns (acts: seq<Action>, end: System)
    requires Usable(l, cfg, sys)
    ensures Leads(l, cfg, sys, acts, end) && Inv(l, cfg, end)
    ensures end.tx.sentLast && end.tx.base >= end.tx.Next() && Delivered(l, end)
    decreases Unsent(l, sys)
  {
    assert sys.tx.Inv(l);
    var a1, s1 := CatchUp(l, cfg, sys);
    assert s1.tx.Inv(l) && Unsent(l, s1) == Unsent(l, sys);
    if s1.tx.sentLast {
      BaseBelowNext(l, cfg, s1);
      EverythingArrived(l, cfg, s1);
      acts, end := a1, s1;
    } else {
      SendMore(l, cfg, s1);
      var s2 := Next(l, cfg, s1, Send(1, 0));
      hide Inv, Enabled, Next, Lanes.Quiet, Delivered;
      var a3, s3 := CanAlwaysFinish(l, cfg, s2);
      Lanes.LeadsOne(l, cfg, s1, Send(1, 0), a3, s3);
      Lanes.LeadsJoin(l, cfg, sys, a1, s1, [Send(1, 0)] + a3, s3);
      acts, end := a1 + ([Send(1, 0)] + a3), s3;
    }
  }

  lemma NoRunIsADeadEnd(l: Lane, cfg: Pipeline.Config, before: seq<byte>, acts: seq<Action>, sys: System)
    returns (more: seq<Action>, end: System)
    requires Reaches(l, cfg, before, acts, sys) && cfg.slots >= 1 && cfg.rtxSlots >= 1
    ensures Leads(l, cfg, sys, more, end) && end.tx.sentLast && end.tx.base >= end.tx.Next() && Delivered(l, end)
  {
    RunKeepsInv(l, cfg, before, acts, sys);
    more, end := CanAlwaysFinish(l, cfg, sys);
  }
}
