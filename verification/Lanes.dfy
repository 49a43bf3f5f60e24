/**
 Many lanes at once: how a transfer is split into shards (`send_impl`, transfer.cpp;
 `build_streams`, mux_transfer.cpp), and that the lanes' threads and workers,
 interleaved in any way, put the whole of it back together.
 */
module Lanes {
  import opened Word64
  import opened Basics
  import opened Tiling
  import opened LaneSender
  import opened LaneSystem
  import Pipeline
  import ReceiverWindow

  // ----- Shards -----

  function ShardSize(len: nat, lanes: nat): nat
    requires lanes >= 1
  {
    (len + lanes - 1) / lanes
  }

  function ShardOffset(len: nat, lanes: nat, i: nat): nat
    requires lanes >= 1
  {
    Min(i * ShardSize(len, lanes), len)
  }

  function ShardLength(len: nat, lanes: nat, i: nat): nat
    requires lanes >= 1
  {
    Min(ShardSize(len, lanes), len - ShardOffset(len, lanes, i))
  }

  function Shard(data: seq<byte>, lanes: nat, i: nat): (r: seq<byte>)
    requires lanes >= 1
  {
    var off := ShardOffset(|data|, lanes, i);
    data[off..off + ShardLength(|data|, lanes, i)]
  }

  function Concat(parts: seq<seq<byte>>): seq<byte> {
    if parts == [] then [] else Concat(parts[..|parts| - 1]) + parts[|parts| - 1]
  }

  /** Each shard starts where the one before it ends. */
  lemma ShardsAbut(len: nat, lanes: nat, i: nat)
    requires lanes >= 1
    ensures ShardOffset(len, lanes, i) + ShardLength(len, lanes, i) == ShardOffset(len, lanes, i + 1) <= len
  {
    var z := ShardSize(len, lanes);
    assert (i + 1) * z == i * z + z;
  }

  /** The lanes share the work: no shard is longer than the rounded-up quotient, and all but the last few are just that. */
  lemma ShardsAreEven(len: nat, lanes: nat, i: nat)
    requires lanes >= 1
    ensures var z := ShardSize(len, lanes);
            && lanes * z < len + lanes && lanes * z >= len && ShardLength(len, lanes, i) <= z
            && ((i + 1) * z <= len ==> ShardLength(len, lanes, i) == z)
  {
    var z := ShardSize(len, lanes);
    assert len + lanes - 1 == z * lanes + (len + lanes - 1) % lanes;
    assert lanes * z == z * lanes;
    assert (i + 1) * z == i * z + z;
  }

  lemma {:induction false} ShardsOrdered(len: nat, lanes: nat, i: nat, k: nat)
    requires lanes >= 1 && i <= k
    ensures ShardOffset(len, lanes, i) <= ShardOffset(len, lanes, k)
    decreases k
  {
    if i < k {
      ShardsOrdered(len, lanes, i, k - 1);
      ShardsAbut(len, lanes, k - 1);
    }
  }

  /** No byte lies in two shards. */
  lemma ShardsApart(len: nat, lanes: nat, i: nat, k: nat, x: nat)
    requires lanes >= 1
    requires ShardOffset(len, lanes, i) <= x < ShardOffset(len, lanes, i) + ShardLength(len, lanes, i)
    requires ShardOffset(len, lanes, k) <= x < ShardOffset(len, lanes, k) + ShardLength(len, lanes, k)
    ensures i == k
  {
    ShardsAbut(len, lanes, i);
    ShardsAbut(len, lanes, k);
    hide ShardOffset, ShardLength;
    if i < k { ShardsOrdered(len, lanes, i + 1, k); }
    if k < i { ShardsOrdered(len, lanes, k + 1, i); }
  }

  /** Every byte lies in some shard. */
  lemma ShardOf(len: nat, lanes: nat, x: nat) returns (i: nat)
    requires lanes >= 1 && x < len
    ensures i < lanes && ShardOffset(len, lanes, i) <= x < ShardOffset(len, lanes, i) + ShardLength(len, lanes, i)
  {
    LastShardEnds(len, lanes);
    assert ShardOffset(len, lanes, 0) == 0;
    hide ShardOffset, ShardLength;
    i := lanes - 1;
    ShardsAbut(len, lanes, i);
    while ShardOffset(len, lanes, i) > x
      invariant i < lanes && x < ShardOffset(len, lanes, i) + ShardLength(len, lanes, i)
      decreases i
    {
      i := i - 1;
      ShardsAbut(len, lanes, i);
    }
  }

  lemma LastShardEnds(len: nat, lanes: nat)
    requires lanes >= 1
    ensures ShardOffset(len, lanes, lanes) == len
  {
    var z := ShardSize(len, lanes);
    assert len + lanes - 1 == z * lanes + (len + lanes - 1) % lanes;
    assert lanes * z == z * lanes;
  }

  lemma {:induction false} FrontShards(data: seq<byte>, lanes: nat, parts: seq<seq<byte>>)
    requires lanes >= 1 && forall i | 0 <= i < |parts| :: parts[i] == Shard(data, lanes, i)
    ensures Concat(parts) == data[..ShardOffset(|data|, lanes, |parts|)]
  {
    if parts == [] {
      assert ShardOffset(|data|, lanes, 0) == 0;
    } else {
      var n := |parts| - 1;
      FrontShards(data, lanes, parts[..n]);
      ShardsAbut(|data|, lanes, n);
      hide ShardOffset, ShardLength;
      var mid, end := ShardOffset(|data|, lanes, n), ShardOffset(|data|, lanes, n + 1);
      assert data[..end] == data[..mid] + data[mid..end];
    }
  }

  /** The shards of any number of lanes, laid end to end, are the original buffer. */
  lemma ShardsConcatenate(data: seq<byte>, lanes: nat, parts: seq<seq<byte>>)
    requires lanes >= 1 && |parts| == lanes && forall i | 0 <= i < lanes :: parts[i] == Shard(data, lanes, i)
    ensures Concat(parts) == data
  {
    FrontShards(data, lanes, parts);
    LastShardEnds(|data|, lanes);
  }

  // ----- Interleaved lanes -----

  /** One step of one lane. */
  datatype Turn = Turn(lane: nat, act: Action)

  ghost predicate CanTurn(ls: seq<Lane>, cfg: Pipeline.Config, all: seq<System>, t: Turn) {
    |ls| == |all| && t.lane < |all| && Enabled(ls[t.lane], cfg, all[t.lane], t.act)
  }

  ghost function Turned(ls: seq<Lane>, cfg: Pipeline.Config, all: seq<System>, t: Turn): seq<System>
    requires CanTurn(ls, cfg, all, t)
  {
    all[t.lane := Next(ls[t.lane], cfg, all[t.lane], t.act)]
  }

  ghost predicate Weaves(ls: seq<Lane>, cfg: Pipeline.Config, all: seq<System>, run: seq<Turn>, end: seq<System>)
    decreases |run|
  {
    if run == [] then all == end
    else CanTurn(ls, cfg, all, run[0]) && Weaves(ls, cfg, Turned(ls, cfg, all, run[0]), run[1..], end)
  }

  /** What one lane does in the run. */
  function Only(run: seq<Turn>, i: nat): seq<Action> {
    if run == [] then []
    else (if run[0].lane == i then [run[0].act] else []) + Only(run[1..], i)
  }

  /** However the lanes interleave, each of them just runs. */
  lemma {:induction false} EachLaneRuns(
    ls: seq<Lane>, cfg: Pipeline.Config, all: seq<System>, run: seq<Turn>, end: seq<System>, i: nat)
    requires |ls| == |all| && i < |all| && Weaves(ls, cfg, all, run, end)
    ensures |end| == |all| && Leads(ls[i], cfg, all[i], Only(run, i), end[i])
    decreases |run|
  {
    hide Enabled, Next;
    if run != [] {
      var mid := Turned(ls, cfg, all, run[0]);
      EachLaneRuns(ls, cfg, mid, run[1..], end, i);
      if run[0].lane == i {
        assert Only(run, i) == [run[0].act] + Only(run[1..], i);
        assert ([run[0].act] + Only(run[1..], i))[1..] == Only(run[1..], i);
      } else {
        assert Only(run, i) == Only(run[1..], i);
      }
    }
  }

  /**
   The lanes of one transfer: lane `i` carries shard `i`, and asks for every byte of it
   that its part of the file does not hold already.
   */
  ghost predicate Splits(data: seq<byte>, before: seq<seq<byte>>, ls: seq<Lane>) {
    && |ls| == |before| >= 1
    && forall i | 0 <= i < |ls| ::
         && ls[i].Ok() && ls[i].data == Shard(data, |ls|, i) && |before[i]| == |ls[i].data|
         && forall o: nat | o < |before[i]| :: before[i][o] == ls[i].data[o] || o in RangeBytes(ls[i].ranges)
  }

  ghost predicate LaneDone(sys: System) {
    || (sys.tx.sentLast && sys.tx.base >= sys.tx.Next())
    || (sys.rx.final.Some? && sys.rx.final.value < sys.rx.Base())
  }

  lemma LaneIsWhole(l: Lane, cfg: Pipeline.Config, before: seq<byte>, acts: seq<Action>, sys: System)
    requires Reaches(l, cfg, before, acts, sys) && LaneDone(sys)
    requires forall o: nat | o < |before| :: before[o] == l.data[o] || o in RangeBytes(l.ranges)
    ensures sys.rx.out == l.data
  {
    if sys.tx.sentLast && sys.tx.base >= sys.tx.Next() {
      SenderDoneIsDelivered(l, cfg, before, acts, sys);
    } else {
      ReceiverDoneIsDelivered(l, cfg, before, acts, sys);
    }
    RunKeepsInv(l, cfg, before, acts, sys);
    hide Inv, Reaches, RangeBytes, LaneDone;
    forall o: nat | o < |l.data| ensures sys.rx.out[o] == l.data[o] {
      assert before[o] == l.data[o] || o in RangeBytes(l.ranges);
    }
  }

  lemma LaneArrives(
    data: seq<byte>, before: seq<seq<byte>>, ls: seq<Lane>, cfg: Pipeline.Config, run: seq<Turn>,
    start: seq<System>, end: seq<System>, i: nat)
    requires cfg.Ok() && Splits(data, before, ls) && i < |ls|
    requires |start| == |ls| && forall k | 0 <= k < |ls| :: start[k] == Initial(ls[k], cfg, before[k])
    requires Weaves(ls, cfg, start, run, end) && (i < |end| ==> LaneDone(end[i]))
    ensures |end| == |ls| && end[i].rx.out == ls[i].data == Shard(data, |ls|, i)
  {
    hide LaneDone, Weaves, RangeBytes, Lane.Ok, Shard;
    EachLaneRuns(ls, cfg, start, run, end, i);
    LaneIsWhole(ls[i], cfg, before[i], Only(run, i), end[i]);
  }

  /**
   Any number of lanes, any interleaving of all their threads, any network under each: once
   every lane is done at either end, the lanes' outputs laid end to end are the buffer sent -
   whether the session started from nothing or from the leftovers of earlier ones.
   */
  lemma WholeTransferArrives(
    data: seq<byte>, before: seq<seq<byte>>, ls: seq<Lane>, cfg: Pipeline.Config, run: seq<Turn>,
    start: seq<System>, end: seq<System>, outs: seq<seq<byte>>)
    requires cfg.Ok() && Splits(data, before, ls)
    requires |start| == |ls| && forall i | 0 <= i < |ls| :: start[i] == Initial(ls[i], cfg, before[i])
    requires Weaves(ls, cfg, start, run, end)
    requires |end| == |ls| ==> forall i | 0 <= i < |end| :: LaneDone(end[i])
    requires |outs| == |end| && forall i | 0 <= i < |end| :: outs[i] == end[i].rx.out
    ensures Concat(outs) == data
  {
    EachLaneRuns(ls, cfg, start, run, end, 0);
    hide LaneDone, Weaves, RangeBytes, Lane.Ok, Shard;
    forall i | 0 <= i < |ls| ensures outs[i] == Shard(data, |ls|, i) {
      LaneArrives(data, before, ls, cfg, run, start, end, i);
    }
    ShardsConcatenate(data, |ls|, outs);
  }

  // ----- The multiplexed receiver: no pipeline, one lock per stream -----

  /** A pipeline with nothing in it: all a multiplexed stream ever is between two datagrams. */
  ghost predicate Quiet(rx: Pipe) {
    forall c | 0 <= c < |rx.channels| :: rx.channels[c] == Pipeline.Channel([], Pipeline.Idle, [])
  }

  /** `MuxReceiver::dispatch_incoming` on a DATA datagram. */
  function MuxReceive(l: Lane, rx: Pipe, dg: Datagram): Pipe {
    if dg.s in rx.got || dg.s >= rx.Base() + l.window then rx
    else
      var fits := dg.offset <= |rx.out| && |dg.payload| <= |rx.out| - dg.offset;
      rx.(got := rx.got + {dg.s},
          out := if fits then Pipeline.Overwrite(rx.out, dg.offset, dg.payload) else rx.out,
          written := rx.written + (if fits then |dg.payload| else 0),
          final := if dg.last then Some(dg.s) else rx.final,
          wrote := rx.wrote + {dg.s})
  }

  /** The pipeline steps that one datagram takes when nothing else is in the pipeline. */
  function Alone(dg: Datagram, c: nat): seq<Action> {
    [Receive(Pipeline.Dispatch(Pipeline.Packet(dg, true))), Receive(Pipeline.Take(c, 1)),
     Receive(Pipeline.Write(c, true, 0)), Receive(Pipeline.Commit(c)), Receive(Pipeline.Release(c)),
     Receive(Pipeline.Drain(c))]
  }

  /** The pipeline after each of those steps but the last. */
  ghost function AloneState(l: Lane, rx: Pipe, dg: Datagram, c: nat, ch: Pipeline.Channel, wrote: bool): Pipe
    requires c < |rx.channels| && l.window == |rx.dispatched| >= 1
  {
    Pipeline.SetChannel(rx, c, ch).(
      dispatched := rx.dispatched[dg.s % l.window := Some(dg.s)], pending := rx.pending + 1,
      owner := rx.owner[dg.s := c],
      out := if wrote then Pipeline.WriteOut(rx.out, Pipeline.Packet(dg, true), true, 0) else rx.out,
      wrote := if wrote then rx.wrote + {dg.s} else rx.wrote)
  }

  ghost predicate CanRunAlone(l: Lane, cfg: Pipeline.Config, h: seq<Tile>, rx: Pipe, dg: Datagram) {
    && Pipeline.Inv(l, cfg, h, rx) && Quiet(rx) && cfg.slots >= 1 && cfg.rtxSlots >= 1
    && Pipeline.Genuine(l, h, dg) && dg.s !in rx.got && dg.s < rx.Base() + l.window
  }

  lemma OwnsNothing(ch: Pipeline.Channel, c: nat, owner: map<nat, nat>)
    requires Pipeline.Owns(ch, c, owner) && ch == Pipeline.Channel([], Pipeline.Idle, [])
    ensures c !in owner.Values
  {
    assert forall s: nat :: ch.Flight()[s] == 0;
  }

  /** A quiet pipeline has no block in flight, so no mark is set. */
  lemma QuietIsClear(l: Lane, cfg: Pipeline.Config, h: seq<Tile>, rx: Pipe)
    requires Pipeline.Inv(l, cfg, h, rx) && Quiet(rx)
    ensures rx.owner == map[] && rx.wrote == rx.got && rx.dispatched == seq(l.window, _ => None)
  {
    assert forall s <- rx.owner.Keys :: rx.owner[s] in rx.owner.Values && rx.owner[s] < |rx.channels|;
    forall c | 0 <= c < |rx.channels| ensures c !in rx.owner.Values { OwnsNothing(rx.channels[c], c, rx.owner); }
    assert rx.owner.Keys == {};
  }

  lemma AloneFirstHalf(l: Lane, cfg: Pipeline.Config, h: seq<Tile>, rx: Pipe, dg: Datagram)
    requires CanRunAlone(l, cfg, h, rx, dg)
    ensures var c, p := cfg.Route(dg), Pipeline.Packet(dg, true);
            var busy := AloneState(l, rx, dg, c, Pipeline.Channel([p], Pipeline.Busy(1, []), []), false);
            && Pipeline.Enabled(l, cfg, rx, Pipeline.Dispatch(p))
            && Pipeline.Enabled(l, cfg, Pipeline.Apply(l, cfg, rx, Pipeline.Dispatch(p)), Pipeline.Take(c, 1))
            && Pipeline.Apply(l, cfg, Pipeline.Apply(l, cfg, rx, Pipeline.Dispatch(p)), Pipeline.Take(c, 1)) == busy
  {
    QuietIsClear(l, cfg, h, rx);
    var c, p := cfg.Route(dg), Pipeline.Packet(dg, true);
    assert rx.channels[c] == Pipeline.Channel([], Pipeline.Idle, []);
    assert rx.channels[c].inq + [p] == [p];
    ReceiverWindow.MexAtMost(rx.got, dg.s);
    assert Pipeline.Shaped(l, cfg, rx);
    hide Pipeline.Inv, ReceiverWindow.Mex, Pipeline.Genuine, Quiet;
    var after := Pipeline.Apply(l, cfg, rx, Pipeline.Dispatch(p));
    assert after.channels[c] == Pipeline.Channel([p], Pipeline.Idle, []);
  }

  lemma AloneSecondHalf(l: Lane, cfg: Pipeline.Config, rx: Pipe, dg: Datagram)
    requires Pipeline.Shaped(l, cfg, rx)
    ensures var c, p := cfg.Route(dg), Pipeline.Packet(dg, true);
            var v := Pipeline.Judged(rx.out, p, true);
            var busy := AloneState(l, rx, dg, c, Pipeline.Channel([p], Pipeline.Busy(1, []), []), false);
            var judged := AloneState(l, rx, dg, c, Pipeline.Channel([p], Pipeline.Busy(1, [v]), []), true);
            var reported := AloneState(l, rx, dg, c, Pipeline.Channel([p], Pipeline.Reported(1), [v]), true);
            var released := AloneState(l, rx, dg, c, Pipeline.Channel([], Pipeline.Idle, [v]), true);
            && Pipeline.Enabled(l, cfg, busy, Pipeline.Write(c, true, 0))
            && Pipeline.Apply(l, cfg, busy, Pipeline.Write(c, true, 0)) == judged
            && Pipeline.Enabled(l, cfg, judged, Pipeline.Commit(c))
            && Pipeline.Apply(l, cfg, judged, Pipeline.Commit(c)) == reported
            && Pipeline.Enabled(l, cfg, reported, Pipeline.Release(c))
            && Pipeline.Apply(l, cfg, reported, Pipeline.Release(c)) == released
            && Pipeline.Enabled(l, cfg, released, Pipeline.Drain(c))
  {
    var p := Pipeline.Packet(dg, true);
    var v := Pipeline.Judged(rx.out, p, true);
    assert [] + [v] == [v] && [p][1..] == [];
  }

  /** Collecting the lone verdict leaves what `MuxReceive` leaves. */
  lemma AloneDrained(l: Lane, cfg: Pipeline.Config, h: seq<Tile>, rx: Pipe, dg: Datagram)
    requires CanRunAlone(l, cfg, h, rx, dg)
    ensures var c := cfg.Route(dg);
            var v := Pipeline.Judged(rx.out, Pipeline.Packet(dg, true), true);
            Pipeline.Collect(l, AloneState(l, rx, dg, c, Pipeline.Channel([], Pipeline.Idle, [v]), true), c)
            == MuxReceive(l, rx, dg)
  {
    QuietIsClear(l, cfg, h, rx);
    var c := cfg.Route(dg);
    var v := Pipeline.Judged(rx.out, Pipeline.Packet(dg, true), true);
    var released := AloneState(l, rx, dg, c, Pipeline.Channel([], Pipeline.Idle, [v]), true);
    var after := Pipeline.Collect(l, released, c);
    var want := MuxReceive(l, rx, dg);
    assert rx.channels[c] == Pipeline.Channel([], Pipeline.Idle, []);
    assert [v][1..] == [];
    hide Pipeline.Inv, ReceiverWindow.Mex, Quiet;
    assert after.channels == rx.channels;
    assert after.dispatched == rx.dispatched;
    assert after.owner == rx.owner;
    assert after.out == want.out;
  }

  /** What happens to one multiplexed stream: the sender's half as in any lane, or a DATA datagram. */
  datatype MuxEvent = Sender(act: Action) | Data(dg: Datagram)

  ghost predicate MuxEnabled(l: Lane, cfg: Pipeline.Config, sys: System, e: MuxEvent) {
    match e
    case Sender(act) => !act.Receive? && Enabled(l, cfg, sys, act)
    case Data(dg) => dg in sys.sent
  }

  ghost function MuxNext(l: Lane, cfg: Pipeline.Config, sys: System, e: MuxEvent): System
    requires MuxEnabled(l, cfg, sys, e)
  {
    match e
    case Sender(act) => Next(l, cfg, sys, act)
    case Data(dg) => sys.(rx := MuxReceive(l, sys.rx, dg))
  }

  ghost predicate MuxLeads(l: Lane, cfg: Pipeline.Config, sys: System, run: seq<MuxEvent>, end: System)
    decreases |run|
  {
    if run == [] then sys == end
    else MuxEnabled(l, cfg, sys, run[0]) && MuxLeads(l, cfg, MuxNext(l, cfg, sys, run[0]), run[1..], end)
  }

  /** A step of the pipeline, with its outcome known, as a run of length one. */
  lemma LeadsReceive(l: Lane, cfg: Pipeline.Config, sys: System, step: Pipeline.Step, rx: Pipe)
    requires Pipeline.Enabled(l, cfg, sys.rx, step) && rx == Pipeline.Apply(l, cfg, sys.rx, step)
    requires step.Dispatch? && step.p.authentic ==> step.p.dg in sys.sent
    ensures Leads(l, cfg, sys, [Receive(step)], sys.(rx := rx))
  {
    hide Pipeline.Enabled, Pipeline.Apply;
    assert [Receive(step)][1..] == [];
  }

  lemma AloneEnters(l: Lane, cfg: Pipeline.Config, sys: System, dg: Datagram, busy: Pipe)
    requires CanRunAlone(l, cfg, sys.tx.history, sys.rx, dg) && dg in sys.sent
    requires busy == AloneState(l, sys.rx, dg, cfg.Route(dg), Pipeline.Channel([Pipeline.Packet(dg, true)], Pipeline.Busy(1, []), []), false)
    ensures Leads(l, cfg, sys, Alone(dg, cfg.Route(dg))[..2], sys.(rx := busy))
  {
    var c, p := cfg.Route(dg), Pipeline.Packet(dg, true);
    AloneFirstHalf(l, cfg, sys.tx.history, sys.rx, dg);
    hide CanRunAlone, AloneState, Pipeline.Enabled, Pipeline.Apply, Leads;
    var r1 := Pipeline.Apply(l, cfg, sys.rx, Pipeline.Dispatch(p));
    LeadsReceive(l, cfg, sys, Pipeline.Dispatch(p), r1);
    LeadsReceive(l, cfg, sys.(rx := r1), Pipeline.Take(c, 1), busy);
    LeadsJoin(l, cfg, sys, [Receive(Pipeline.Dispatch(p))], sys.(rx := r1), [Receive(Pipeline.Take(c, 1))], sys.(rx := busy));
    assert Alone(dg, c)[..2] == [Receive(Pipeline.Dispatch(p))] + [Receive(Pipeline.Take(c, 1))];
  }

  lemma AloneLeaves(l: Lane, cfg: Pipeline.Config, sys: System, rx: Pipe, dg: Datagram)
    requires Pipeline.Shaped(l, cfg, rx)
    requires sys.rx == AloneState(l, rx, dg, cfg.Route(dg), Pipeline.Channel([Pipeline.Packet(dg, true)], Pipeline.Busy(1, []), []), false)
    ensures var c, v := cfg.Route(dg), Pipeline.Judged(rx.out, Pipeline.Packet(dg, true), true);
            var released := AloneState(l, rx, dg, c, Pipeline.Channel([], Pipeline.Idle, [v]), true);
            Leads(l, cfg, sys, Alone(dg, c)[2..5], sys.(rx := released))
  {
    var c, p := cfg.Route(dg), Pipeline.Packet(dg, true);
    AloneSecondHalf(l, cfg, rx, dg);
    hide AloneState, Pipeline.Enabled, Pipeline.Apply, Pipeline.Judged, Pipeline.Shaped, Leads;
    var r3 := Pipeline.Apply(l, cfg, sys.rx, Pipeline.Write(c, true, 0));
    var r4 := Pipeline.Apply(l, cfg, r3, Pipeline.Commit(c));
    var r5 := Pipeline.Apply(l, cfg, r4, Pipeline.Release(c));
    LeadsReceive(l, cfg, sys, Pipeline.Write(c, true, 0), r3);
    LeadsReceive(l, cfg, sys.(rx := r3), Pipeline.Commit(c), r4);
    LeadsReceive(l, cfg, sys.(rx := r4), Pipeline.Release(c), r5);
    var a3, a4, a5 := Receive(Pipeline.Write(c, true, 0)), Receive(Pipeline.Commit(c)), Receive(Pipeline.Release(c));
    LeadsJoin(l, cfg, sys, [a3], sys.(rx := r3), [a4], sys.(rx := r4));
    LeadsJoin(l, cfg, sys, [a3] + [a4], sys.(rx := r4), [a5], sys.(rx := r5));
    assert Alone(dg, c)[2..5] == [a3] + [a4] + [a5];
  }

  lemma AloneEnds(l: Lane, cfg: Pipeline.Config, h: seq<Tile>, sys: System, rx: Pipe, dg: Datagram)
    requires CanRunAlone(l, cfg, h, rx, dg)
    requires var c, v := cfg.Route(dg), Pipeline.Judged(rx.out, Pipeline.Packet(dg, true), true);
             sys.rx == AloneState(l, rx, dg, c, Pipeline.Channel([], Pipeline.Idle, [v]), true)
    ensures Leads(l, cfg, sys, [Receive(Pipeline.Drain(cfg.Route(dg)))], sys.(rx := MuxReceive(l, rx, dg)))
  {
    var c := cfg.Route(dg);
    AloneDrained(l, cfg, h, rx, dg);
    AloneSecondHalf(l, cfg, rx, dg);
    hide CanRunAlone, AloneState, Pipeline.Enabled, Pipeline.Collect, Pipeline.Judged, Pipeline.Shaped, Leads, MuxReceive;
    assert Pipeline.Apply(l, cfg, sys.rx, Pipeline.Drain(c)) == MuxReceive(l, rx, dg);
    hide Pipeline.Apply;
    LeadsReceive(l, cfg, sys, Pipeline.Drain(c), MuxReceive(l, rx, dg));
  }

  /** One datagram handled under the stream's lock is six steps of a pipeline with nothing else in it. */
  lemma MuxReceiveIsPipelined(l: Lane, cfg: Pipeline.Config, sys: System, dg: Datagram)
    requires CanRunAlone(l, cfg, sys.tx.history, sys.rx, dg) && dg in sys.sent
    ensures Leads(l, cfg, sys, Alone(dg, cfg.Route(dg)), sys.(rx := MuxReceive(l, sys.rx, dg)))
  {
    var rx, c, p := sys.rx, cfg.Route(dg), Pipeline.Packet(dg, true);
    var v := Pipeline.Judged(rx.out, p, true);
    var busy := AloneState(l, rx, dg, c, Pipeline.Channel([p], Pipeline.Busy(1, []), []), false);
    var released := AloneState(l, rx, dg, c, Pipeline.Channel([], Pipeline.Idle, [v]), true);
    assert Pipeline.Shaped(l, cfg, rx);
    assert Alone(dg, c) == Alone(dg, c)[..2] + Alone(dg, c)[2..5] + [Receive(Pipeline.Drain(c))];
    hide CanRunAlone, AloneState, Alone, Pipeline.Shaped, Pipeline.Judged, Leads, MuxReceive;
    AloneEnters(l, cfg, sys, dg, busy);
    AloneLeaves(l, cfg, sys.(rx := busy), rx, dg);
    AloneEnds(l, cfg, sys.tx.history, sys.(rx := released), rx, dg);
    LeadsJoin(l, cfg, sys, Alone(dg, c)[..2], sys.(rx := busy), Alone(dg, c)[2..5], sys.(rx := released));
    LeadsJoin(l, cfg, sys, Alone(dg, c)[..2] + Alone(dg, c)[2..5], sys.(rx := released),
              [Receive(Pipeline.Drain(c))], sys.(rx := MuxReceive(l, rx, dg)));
  }

  lemma LeadsOne(l: Lane, cfg: Pipeline.Config, sys: System, a: Action, rest: seq<Action>, end: System)
    requires Enabled(l, cfg, sys, a) && Leads(l, cfg, Next(l, cfg, sys, a), rest, end)
    ensures Leads(l, cfg, sys, [a] + rest, end)
  {
    assert ([a] + rest)[1..] == rest;
    hide Enabled, Next;
  }

  lemma {:induction false} LeadsJoin(l: Lane, cfg: Pipeline.Config, sys: System, a: seq<Action>, mid: System, b: seq<Action>, end: System)
    requires Leads(l, cfg, sys, a, mid) && Leads(l, cfg, mid, b, end)
    ensures Leads(l, cfg, sys, a + b, end)
    decreases |a|
  {
    hide Enabled, Next;
    if a == [] {
      assert a + b == b;
    } else {
      LeadsJoin(l, cfg, Next(l, cfg, sys, a[0]), a[1..], mid, b, end);
      assert (a + b)[1..] == a[1..] + b;
    }
  }

  /** The lane run that a multiplexed run amounts to. */
  ghost function Unfold(l: Lane, cfg: Pipeline.Config, sys: System, run: seq<MuxEvent>): seq<Action>
    requires cfg.writers >= 1
    decreases |run|
  {
    if run == [] || !MuxEnabled(l, cfg, sys, run[0]) then []
    else
      (match run[0]
       case Sender(act) => [act]
       case Data(dg) => if dg.s in sys.rx.got then [] else Alone(dg, cfg.Route(dg)))
      + Unfold(l, cfg, MuxNext(l, cfg, sys, run[0]), run[1..])
  }

  lemma MuxStep(l: Lane, cfg: Pipeline.Config, sys: System, e: MuxEvent)
    requires Inv(l, cfg, sys) && Quiet(sys.rx) && cfg.slots >= 1 && cfg.rtxSlots >= 1 && MuxEnabled(l, cfg, sys, e)
    ensures var acts := match e case Sender(act) => [act] case Data(dg) => if dg.s in sys.rx.got then [] else Alone(dg, cfg.Route(dg));
            Leads(l, cfg, sys, acts, MuxNext(l, cfg, sys, e))
    ensures Quiet(MuxNext(l, cfg, sys, e).rx)
  {
    match e
    case Sender(act) => LeadsOne(l, cfg, sys, act, [], Next(l, cfg, sys, act));
    case Data(dg) =>
      if dg.s !in sys.rx.got {
        BaseBelowNext(l, cfg, sys);
        assert CanRunAlone(l, cfg, sys.tx.history, sys.rx, dg);
        MuxReceiveIsPipelined(l, cfg, sys, dg);
      }
  }

  /**
   Every run of a multiplexed stream is a run of a lane, ending in the same state: so all that
   holds of lanes (no wedge, never out of window, delivery at either end) holds of streams.
   */
  lemma {:induction false} MuxRunIsLaneRun(l: Lane, cfg: Pipeline.Config, sys: System, run: seq<MuxEvent>, end: System)
    requires Inv(l, cfg, sys) && Quiet(sys.rx) && cfg.slots >= 1 && cfg.rtxSlots >= 1
    requires MuxLeads(l, cfg, sys, run, end)
    ensures cfg.writers >= 1 && Leads(l, cfg, sys, Unfold(l, cfg, sys, run), end)
    decreases |run|
  {
    assert cfg.writers >= 1;
    hide Inv, MuxEnabled, MuxNext, Quiet, Alone;
    if run != [] {
      var mid := MuxNext(l, cfg, sys, run[0]);
      MuxStep(l, cfg, sys, run[0]);
      var acts := match run[0] case Sender(act) => [act] case Data(dg) => if dg.s in sys.rx.got then [] else Alone(dg, cfg.Route(dg));
      LeadsKeepsInv(l, cfg, sys, acts, mid);
      MuxRunIsLaneRun(l, cfg, mid, run[1..], end);
      LeadsJoin(l, cfg, sys, acts, mid, Unfold(l, cfg, mid, run[1..]), end);
    }
  }
}
