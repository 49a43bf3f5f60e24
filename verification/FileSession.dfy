/**
 A whole receiving session: all lanes of a transfer, with their senders, networks and pipelines
 (`Lanes`), over one file with its chunk counters and its checkpoint (`CrashResume`). A consumer's
 write goes to the file with whatever bytes the packet carries; nothing is assumed about where
 it lands or whether it was there before. That is proved: every lane run is a run of the file's
 machine. So crashes are safe for lanes, and a resumed transfer ends as the source.
 */
module FileSession {
  import opened Word64
  import opened Basics
  import opened ReceiverWindow
  import opened Tiling
  import opened LaneSender
  import opened Resume
  import opened Trailer
  import opened Lanes
  import Control
  import LaneSystem
  import Pipeline
  import CrashResume

  type System = LaneSystem.System
  type Pipe = LaneSystem.Pipe
  type State = CrashResume.State

  /** One session: the file, the checksum, its lanes and pipelines, and what was on disk at its start. */
  datatype Session = Session(file: File, hash: Hash, ls: seq<Lane>, cfg: Pipeline.Config, image: CrashResume.Disk)
  {
    /** Lane `i` carries shard `i`; which ranges of it are sent is settled when the lane starts. */
    ghost predicate Ok() {
      && file.Ok() && cfg.Ok() && |ls| >= 1
      && forall i | 0 <= i < |ls| :: 1 <= ls[i].window <= Control.MAX_WINDOW && ls[i].data == Shard(file.data, |ls|, i)
    }

    function Base(i: nat): nat
      requires |ls| >= 1
    {
      ShardOffset(|file.data|, |ls|, i)
    }

    ghost function Begin(): State
      requires Ok()
    {
      CrashResume.Begun(file, image, hash)
    }

    /** What the file holds of lane `i` when the session begins. */
    ghost function Before(i: nat): seq<byte>
      requires Ok() && i < |ls|
    {
      var d := Begin().disk;
      var len := ShardLength(|file.data|, |ls|, i);
      if Base(i) + len <= |d.cur| then d.cur[Base(i)..Base(i) + len] else []
    }
  }

  /** `started` are the lanes that have asked for their ranges; the others have not moved. */
  datatype Joint = Joint(lanes: seq<System>, started: set<nat>, sink: State)

  datatype Act =
    | Ask(lane: nat, want: seq<Range>, parts: seq<Answer>, sorted: seq<Range>)  // the resume answer of a lane, and what its sender makes of it
    | Move(t: Turn)                             // anything a started lane does
    | Short(lane: nat, c: nat, len: nat)        // consumer `c` is inside `write`: so many bytes of its block are down
    | Sink(step: CrashResume.Step)              // counting after a write, or the checkpoint

  ghost function Start(ss: Session): Joint
    requires ss.Ok()
  {
    Joint(seq(|ss.ls|, i requires 0 <= i < |ss.ls| => LaneSystem.Initial(ss.ls[i], ss.cfg, ss.Before(i))), {}, ss.Begin())
  }

  /** The resume answer of lane `i`: the list for the counters of this moment, in parts, put together and sorted. */
  ghost predicate CanAsk(ss: Session, j: Joint, i: nat, want: seq<Range>, parts: seq<Answer>, sorted: seq<Range>)
    requires ss.Ok() && i < |ss.ls|
  {
    var p := Progress(ss.file.chunk, ss.file.Total(), j.sink.counters);
    var shard := |ss.ls[i].data|;
    && Wanted(p, Adopts(ss.file, ss.image.cur, ss.hash), ss.Base(i), shard, MAX_RANGES, want)
    && (forall a <- parts :: a.part < PartCount(want) && a == Answer(a.part, PartCount(want), Part(want, a.part)))
    && ArriveAll(NOTHING, parts).Complete()
    && SortOf(NonEmpty(Flat(ArriveAll(NOTHING, parts), ArriveAll(NOTHING, parts).parts)), sorted)
    && ss.ls[i].ranges == if InLane(sorted, shard) then sorted else WholeLane(shard)
  }

  ghost predicate Shaped(ss: Session, j: Joint) {
    ss.Ok() && |j.lanes| == |ss.ls| && CrashResume.Shaped(ss.file, j.sink)
  }

  ghost predicate Enabled(ss: Session, j: Joint, a: Act) {
    && Shaped(ss, j)
    && match a
       case Ask(i, want, parts, sorted) => i < |ss.ls| && i !in j.started && CanAsk(ss, j, i, want, parts, sorted)
       case Move(t) => t.lane in j.started && CanTurn(ss.ls, ss.cfg, j.lanes, t)
       case Short(i, c, len) =>
         i in j.started && i < |ss.ls| && Pipeline.Enabled(ss.ls[i], ss.cfg, j.lanes[i].rx, Pipeline.Write(c, false, len))
       case Sink(step) => !step.Block? && !step.Scribble? && CrashResume.Enabled(ss.file, j.sink, step)
  }

  /** The packet that consumer `c` is at. */
  function Current(rx: Pipe, c: nat): Pipeline.Packet
    requires c < |rx.channels| && rx.channels[c].work.Busy? && |rx.channels[c].work.out| < |rx.channels[c].inq|
  {
    rx.channels[c].inq[|rx.channels[c].work.out|]
  }

  /** What the file is after a consumer wrote `p`: in full, so that its bytes are due to be counted, or in part. */
  ghost function Wrote(sink: State, base: nat, out: seq<byte>, p: Pipeline.Packet, ok: bool, partial: nat): State
    requires |sink.disk.cur| == |sink.disk.maybe| && base + |out| <= |sink.disk.cur| && partial <= |p.dg.payload|
  {
    if !p.authentic || !Pipeline.Fits(out, p.dg) then sink
    else if ok then
      sink.(disk := CrashResume.Lay(sink.disk, base + p.dg.offset, p.dg.payload),
            owed := sink.owed + Span(base + p.dg.offset, base + p.dg.offset + |p.dg.payload|))
    else sink.(disk := CrashResume.Lay(sink.disk, base + p.dg.offset, p.dg.payload[..partial]))
  }

  lemma LaneFits(ss: Session, i: nat)
    requires ss.Ok() && i < |ss.ls|
    ensures |ss.ls[i].data| == ShardLength(|ss.file.data|, |ss.ls|, i)
    ensures ss.Base(i) + |ss.ls[i].data| <= ss.file.Total() <= ss.file.Full()
  {
    ShardsAbut(|ss.file.data|, |ss.ls|, i);
    hide ShardOffset, ShardLength;
  }

  ghost function WroteBy(ss: Session, j: Joint, i: nat, c: nat, ok: bool, partial: nat): State
    requires Shaped(ss, j) && i < |ss.ls| && Pipeline.Enabled(ss.ls[i], ss.cfg, j.lanes[i].rx, Pipeline.Write(c, ok, partial))
  {
    LaneFits(ss, i);
    Wrote(j.sink, ss.Base(i), j.lanes[i].rx.out, Current(j.lanes[i].rx, c), ok, partial)
  }

  ghost function Next(ss: Session, j: Joint, a: Act): Joint
    requires Enabled(ss, j, a)
  {
    match a
    case Ask(i, _, _, _) => j.(started := j.started + {i})
    case Move(t) =>
      j.(lanes := Turned(ss.ls, ss.cfg, j.lanes, t),
         sink := if t.act.Receive? && t.act.step.Write? then WroteBy(ss, j, t.lane, t.act.step.c, t.act.step.ok, t.act.step.partial) else j.sink)
    case Short(i, c, len) => j.(sink := WroteBy(ss, j, i, c, false, len))
    case Sink(step) => j.(sink := CrashResume.Next(ss.file, ss.hash, j.sink, step))
  }

  // ----- What every act keeps -----

  /** Byte `x` of the file belongs to block `s` of lane `i`, which has been written. */
  ghost predicate Carries(ss: Session, lanes: seq<System>, x: nat, i: nat, s: nat)
    requires ss.Ok()
  {
    && i < |lanes| == |ss.ls| && s in lanes[i].rx.wrote && s < |lanes[i].tx.history|
    && ss.Base(i) <= x && lanes[i].tx.history[s].Covers(x - ss.Base(i)) && x - ss.Base(i) < |ss.ls[i].data|
  }

  /** Every byte that is counted or due to be belongs to a block that was written. */
  ghost predicate Traced(ss: Session, lanes: seq<System>, touched: set<nat>)
    requires ss.Ok()
  {
    forall x <- touched :: Carried(ss, lanes, x)
  }

  ghost predicate Carried(ss: Session, lanes: seq<System>, x: nat)
    requires ss.Ok()
  {
    exists i: nat, s: nat :: Carries(ss, lanes, x, i, s)
  }

  /** Byte `o` of a lane is in the file what its pipeline put there, or already the source's. */
  ghost predicate ShowsAt(base: nat, cur: seq<byte>, out: seq<byte>, data: seq<byte>, started: bool, o: nat) {
    && o < |out| && o < |data| && base + o < |cur|
    && (cur[base + o] == out[o] || (started && cur[base + o] == data[o]))
  }

  /** The file's part from `base` on shows the lane's output. */
  ghost predicate Shows(base: nat, cur: seq<byte>, out: seq<byte>, data: seq<byte>, started: bool) {
    && |out| == |data| && base + |out| <= |cur|
    && forall o: nat | o < |out| :: ShowsAt(base, cur, out, data, started, o)
  }

  /** Whatever the lane does not ask for was there at the start. */
  ghost predicate AskedRight(ss: Session, i: nat)
    requires ss.Ok() && i < |ss.ls|
  {
    && ss.ls[i].Ok() && |ss.Before(i)| == |ss.ls[i].data|
    && forall o: nat | o < |ss.Before(i)| :: ss.Before(i)[o] == ss.ls[i].data[o] || o in RangeBytes(ss.ls[i].ranges)
  }

  ghost predicate LaneOk(ss: Session, cur: seq<byte>, sys: System, started: bool, i: nat)
    requires ss.Ok() && i < |ss.ls|
  {
    && Shows(ss.Base(i), cur, sys.rx.out, ss.ls[i].data, started)
    && if started then AskedRight(ss, i) && LaneSystem.Inv(ss.ls[i], ss.cfg, sys)
       else sys == LaneSystem.Initial(ss.ls[i], ss.cfg, ss.Before(i))
  }

  ghost predicate Inv(ss: Session, j: Joint) {
    && Shaped(ss, j) && CrashResume.Inv(ss.file, j.sink) && Traced(ss, j.lanes, j.sink.owed + j.sink.counted)
    && forall i | 0 <= i < |ss.ls| :: LaneOk(ss, j.sink.disk.cur, j.lanes[i], i in j.started, i)
  }

  lemma BeginShape(ss: Session)
    requires ss.Ok() && CrashResume.Sound(ss.file, ss.image, ss.hash)
    ensures CrashResume.Inv(ss.file, ss.Begin()) && ss.Begin().owed == ss.Begin().counted == {}
  {
    CrashResume.BegunInv(ss.file, ss.image, ss.hash);
  }

  /** A session starts well from any safe image. */
  lemma StartInv(ss: Session)
    requires ss.Ok() && CrashResume.Sound(ss.file, ss.image, ss.hash)
    ensures Inv(ss, Start(ss))
  {
    BeginShape(ss);
    var j := Start(ss);
    assert Shaped(ss, j);
    hide CrashResume.Inv, CrashResume.Begun, CrashResume.Shaped, CrashResume.Sound;
    forall i | 0 <= i < |ss.ls| ensures LaneOk(ss, j.sink.disk.cur, j.lanes[i], false, i) { LaneFits(ss, i); }
  }

  // ----- A consumer's write is a step of the file's machine -----

  lemma SliceOfSlice(s: seq<byte>, a: nat, b: nat, x: nat, y: nat)
    requires a <= b <= |s| && x <= y <= b - a
    ensures s[a..b][x..y] == s[a + x..a + y]
  {
    assert forall k | 0 <= k < y - x :: s[a..b][x..y][k] == s[a + x..a + y][k];
  }

  lemma LaneAt(ss: Session, j: Joint, i: nat)
    requires Inv(ss, j) && i < |ss.ls|
    ensures Shaped(ss, j) && LaneOk(ss, j.sink.disk.cur, j.lanes[i], i in j.started, i)
    ensures i in j.started ==> LaneSystem.Inv(ss.ls[i], ss.cfg, j.lanes[i]) && AskedRight(ss, i)
  {}

  /** The block a consumer is at, if authentic, is one the lane sent, and it has not been written yet. */
  lemma PacketIsNew(l: Lane, cfg: Pipeline.Config, sys: System, c: nat, ok: bool, partial: nat)
    requires LaneSystem.Inv(l, cfg, sys) && Pipeline.Enabled(l, cfg, sys.rx, Pipeline.Write(c, ok, partial))
    ensures var p := Current(sys.rx, c);
            p.dg.s !in sys.rx.wrote && (p.authentic ==> Pipeline.Genuine(l, sys.tx.history, p.dg))
  {
    Pipeline.WrittenAtMostOnce(l, cfg, sys.tx.history, sys.rx, c, ok, partial);
    Pipeline.ChannelAt(l, sys.tx.history, sys.rx, c);
  }

  /** `dg` lies in the file at `at`, with the file's own bytes, all of it and any front part of it. */
  ghost predicate Placed(file: File, at: nat, payload: seq<byte>, partial: nat) {
    && at + |payload| <= file.Total() && payload == file.data[at..at + |payload|]
    && partial <= |payload| && payload[..partial] == file.data[at..at + partial]
  }

  lemma GenuineIsPlaced(ss: Session, i: nat, h: seq<Tile>, dg: LaneSystem.Datagram, partial: nat)
    requires ss.Ok() && i < |ss.ls| && Pipeline.Genuine(ss.ls[i], h, dg) && partial <= |dg.payload|
    ensures Placed(ss.file, ss.Base(i) + dg.offset, dg.payload, partial)
  {
    LaneFits(ss, i);
    var l, n, base := ss.ls[i], |dg.payload|, ss.Base(i);
    assert l.data == ss.file.data[base..base + |l.data|];
    hide ShardOffset, ShardLength;
    SliceOfSlice(ss.file.data, base, base + |l.data|, dg.offset, dg.offset + n);
    SliceOfSlice(ss.file.data, base, base + |l.data|, dg.offset, dg.offset + partial);
    assert dg.payload[..partial] == l.data[dg.offset..dg.offset + partial];
  }

  /** In one lane no two blocks share a byte. */
  lemma BlocksApart(l: Lane, tx: Tx, s: nat, t: nat, o: nat)
    requires tx.Inv(l) && s < |tx.history| && t < |tx.history| && tx.history[s].Covers(o) && tx.history[t].Covers(o)
    ensures s == t
  {
    RangeBytesIncreasing(l.ranges);
    assert TileBytes(tx.history) <= RangeBytes(l.ranges);
    hide RangeBytes, TileBytes, Remaining, Usable;
    assert Increasing(TileBytes(tx.history)) by { PrefixIncreasing(TileBytes(tx.history), RangeBytes(l.ranges)); }
    if s < t { TilesDisjoint(tx.history, s, t, o); }
    if t < s { TilesDisjoint(tx.history, t, s, o); }
  }

  lemma PrefixIncreasing(a: seq<nat>, b: seq<nat>)
    requires a <= b && Increasing(b)
    ensures Increasing(a)
  {
    assert forall i | 0 <= i < |a| :: a[i] == b[i];
  }

  lemma SenderOk(l: Lane, cfg: Pipeline.Config, sys: System)
    requires LaneSystem.Inv(l, cfg, sys)
    ensures sys.tx.Inv(l)
  {}

  lemma TracedAt(ss: Session, j: Joint, x: nat)
    requires Inv(ss, j)
    ensures ss.Ok() && (x in j.sink.owed + j.sink.counted ==> Carried(ss, j.lanes, x))
  {}

  /** A byte of a block not written yet is neither counted nor due to be: no byte is written in full twice. */
  lemma NotCountedBefore(ss: Session, j: Joint, i: nat, s: nat, x: nat)
    requires Inv(ss, j) && i in j.started && i < |ss.ls| && s < |j.lanes[i].tx.history| && s !in j.lanes[i].rx.wrote
    requires ss.Base(i) <= x < ss.Base(i) + |ss.ls[i].data| && j.lanes[i].tx.history[s].Covers(x - ss.Base(i))
    ensures x !in j.sink.owed + j.sink.counted
  {
    hide Inv, LaneOk, LaneSystem.Inv, Tx.Inv, AskedRight, ShardOffset, ShardLength, CrashResume.Shaped;
    LaneAt(ss, j, i);
    SenderOk(ss.ls[i], ss.cfg, j.lanes[i]);
    TracedAt(ss, j, x);
    if x in j.sink.owed + j.sink.counted {
      var k: nat, t: nat :| Carries(ss, j.lanes, x, k, t);
      LaneFits(ss, i);
      LaneFits(ss, k);
      ShardsApart(|ss.file.data|, |ss.ls|, i, k, x);
      BlocksApart(ss.ls[i], j.lanes[i].tx, s, t, x - ss.Base(i));
    }
  }

  lemma BlockRuns(file: File, hash: Hash, s: State, at: nat, payload: seq<byte>)
    requires file.Ok() && CrashResume.Shaped(file, s) && Placed(file, at, payload, 0)
    requires Span(at, at + |payload|) !! (s.owed + s.counted)
    ensures at + |payload| <= |s.disk.cur|
    ensures CrashResume.Runs(file, hash, s, [CrashResume.Block(at, |payload|)],
                             s.(disk := CrashResume.Lay(s.disk, at, payload), owed := s.owed + Span(at, at + |payload|)))
  {
    assert [CrashResume.Block(at, |payload|)][1..] == [];
    hide CrashResume.Lay, Span;
  }

  lemma ScribbleRuns(file: File, hash: Hash, s: State, at: nat, payload: seq<byte>, partial: nat)
    requires file.Ok() && CrashResume.Shaped(file, s) && Placed(file, at, payload, partial)
    ensures at + partial <= |s.disk.cur|
    ensures CrashResume.Runs(file, hash, s, [CrashResume.Scribble(at, partial)],
                             s.(disk := CrashResume.Lay(s.disk, at, payload[..partial])))
  {
    assert [CrashResume.Scribble(at, partial)][1..] == [];
    hide CrashResume.Lay;
  }

  /** The step of the file's machine that a consumer's write is, if it reaches the file at all. */
  ghost function Reflected(base: nat, out: seq<byte>, p: Pipeline.Packet, ok: bool, partial: nat): seq<CrashResume.Step> {
    if !p.authentic || !Pipeline.Fits(out, p.dg) then []
    else if ok then [CrashResume.Block(base + p.dg.offset, |p.dg.payload|)]
    else [CrashResume.Scribble(base + p.dg.offset, partial)]
  }

  lemma BlockIsNew(ss: Session, j: Joint, i: nat, dg: LaneSystem.Datagram)
    requires Inv(ss, j) && i in j.started && i < |ss.ls|
    requires dg.s !in j.lanes[i].rx.wrote && Pipeline.Genuine(ss.ls[i], j.lanes[i].tx.history, dg)
    ensures Span(ss.Base(i) + dg.offset, ss.Base(i) + dg.offset + |dg.payload|) !! (j.sink.owed + j.sink.counted)
  {
    assert |j.lanes| == |ss.ls|;
    hide Inv;
    var t := j.lanes[i].tx.history[dg.s];
    assert |dg.payload| == t.length && t.offset + t.length <= |ss.ls[i].data|;
    forall x <- Span(ss.Base(i) + dg.offset, ss.Base(i) + dg.offset + |dg.payload|) ensures x !in j.sink.owed + j.sink.counted {
      NotCountedBefore(ss, j, i, dg.s, x);
    }
  }

  lemma PacketRuns(file: File, hash: Hash, sink: State, base: nat, out: seq<byte>, p: Pipeline.Packet, ok: bool, partial: nat)
    requires file.Ok() && CrashResume.Shaped(file, sink) && base + |out| <= |sink.disk.cur| && partial <= |p.dg.payload|
    requires p.authentic ==> Placed(file, base + p.dg.offset, p.dg.payload, partial)
    requires p.authentic ==> Span(base + p.dg.offset, base + p.dg.offset + |p.dg.payload|) !! (sink.owed + sink.counted)
    ensures CrashResume.Runs(file, hash, sink, Reflected(base, out, p, ok, partial), Wrote(sink, base, out, p, ok, partial))
  {
    var at := base + p.dg.offset;
    if p.authentic && Pipeline.Fits(out, p.dg) {
      if ok {
        PlacedWhole(file, at, p.dg.payload, partial);
        BlockRuns(file, hash, sink, at, p.dg.payload);
      } else {
        ScribbleRuns(file, hash, sink, at, p.dg.payload, partial);
      }
    }
    hide CrashResume.Lay, Placed, CrashResume.Next, CrashResume.Enabled, Span, File.Full, File.Chunks;
  }

  lemma PlacedWhole(file: File, at: nat, payload: seq<byte>, partial: nat)
    requires Placed(file, at, payload, partial)
    ensures Placed(file, at, payload, 0)
  {}

  /**
   Every write of every lane is a step the file's machine allows: a block written in full is a
   `Block` of source bytes none of which was written in full before, any other write a `Scribble`.
   */
  lemma EveryWriteIsAStep(ss: Session, j: Joint, i: nat, c: nat, ok: bool, partial: nat)
    requires Inv(ss, j) && i in j.started && i < |ss.ls|
    requires Pipeline.Enabled(ss.ls[i], ss.cfg, j.lanes[i].rx, Pipeline.Write(c, ok, partial))
    ensures CrashResume.Runs(ss.file, ss.hash, j.sink, Reflected(ss.Base(i), j.lanes[i].rx.out, Current(j.lanes[i].rx, c), ok, partial),
                             WroteBy(ss, j, i, c, ok, partial))
  {
    hide Inv, LaneOk, CrashResume.Runs, LaneSystem.Inv, Wrote, Reflected, Pipeline.Genuine, ShardOffset, Placed, Span, AskedRight;
    LaneAt(ss, j, i);
    var p := Current(j.lanes[i].rx, c);
    PacketIsNew(ss.ls[i], ss.cfg, j.lanes[i], c, ok, partial);
    LaneFits(ss, i);
    if p.authentic {
      GenuineIsPlaced(ss, i, j.lanes[i].tx.history, p.dg, partial);
      BlockIsNew(ss, j, i, p.dg);
    }
    PacketRuns(ss.file, ss.hash, j.sink, ss.Base(i), j.lanes[i].rx.out, p, ok, partial);
  }

  // ----- Each act keeps the invariant -----

  /** What a lane has sent and written only grows; only a consumer's write changes its bytes. */
  lemma ActionGrows(l: Lane, cfg: Pipeline.Config, sys: System, a: LaneSystem.Action)
    requires LaneSystem.Enabled(l, cfg, sys, a)
    ensures var after := LaneSystem.Next(l, cfg, sys, a);
            && sys.tx.history <= after.tx.history && sys.rx.wrote <= after.rx.wrote
            && (!(a.Receive? && a.step.Write?) ==> after.rx.out == sys.rx.out)
  {}

  lemma TracedGrows(ss: Session, lanes: seq<System>, k: nat, sys: System, touched: set<nat>)
    requires ss.Ok() && |lanes| == |ss.ls| && k < |lanes| && Traced(ss, lanes, touched)
    requires lanes[k].tx.history <= sys.tx.history && lanes[k].rx.wrote <= sys.rx.wrote
    ensures Traced(ss, lanes[k := sys], touched)
  {
    forall x <- touched ensures Carried(ss, lanes[k := sys], x) {
      var i: nat, s: nat :| Carries(ss, lanes, x, i, s);
      assert Carries(ss, lanes[k := sys], x, i, s);
    }
  }

  /** A block just written carries its own bytes. */
  lemma WrittenCarries(ss: Session, lanes: seq<System>, i: nat, dg: LaneSystem.Datagram)
    requires ss.Ok() && |lanes| == |ss.ls| && i < |lanes|
    requires Pipeline.Genuine(ss.ls[i], lanes[i].tx.history, dg) && dg.s in lanes[i].rx.wrote
    ensures Traced(ss, lanes, Span(ss.Base(i) + dg.offset, ss.Base(i) + dg.offset + |dg.payload|))
  {
    var t := lanes[i].tx.history[dg.s];
    assert |dg.payload| == t.length && t.offset + t.length <= |ss.ls[i].data|;
    forall x <- Span(ss.Base(i) + dg.offset, ss.Base(i) + dg.offset + |dg.payload|)
      ensures Carried(ss, lanes, x)
    {
      assert Carries(ss, lanes, x, i, dg.s);
    }
  }

  /** Bytes laid elsewhere leave a lane's part of the file alone. */
  lemma LayElsewhere(d: CrashResume.Disk, at: nat, b: seq<byte>, base: nat, out: seq<byte>, data: seq<byte>, started: bool)
    requires |d.cur| == |d.maybe| && at + |b| <= |d.cur| && Shows(base, d.cur, out, data, started)
    requires at + |b| <= base || base + |data| <= at
    ensures Shows(base, CrashResume.Lay(d, at, b).cur, out, data, started)
  {
    var after := CrashResume.Lay(d, at, b);
    hide CrashResume.Lay;
    forall o: nat | o < |out| ensures ShowsAt(base, after.cur, out, data, started, o) {
      assert ShowsAt(base, d.cur, out, data, started, o);
    }
  }

  /** Bytes of the source laid both in the file and in the lane's output, or in the file alone. */
  lemma LayHere(d: CrashResume.Disk, base: nat, off: nat, b: seq<byte>, out: seq<byte>, data: seq<byte>, also: bool)
    requires off + |b| <= |data| && b == data[off..off + |b|]
    requires |d.cur| == |d.maybe| && Shows(base, d.cur, out, data, true)
    ensures Shows(base, CrashResume.Lay(d, base + off, b).cur, if also then Pipeline.Overwrite(out, off, b) else out, data, true)
  {
    var after := CrashResume.Lay(d, base + off, b);
    var out' := if also then Pipeline.Overwrite(out, off, b) else out;
    hide CrashResume.Lay, Pipeline.Overwrite;
    forall o: nat | o < |out| ensures ShowsAt(base, after.cur, out', data, true, o) {
      assert ShowsAt(base, d.cur, out, data, true, o);
    }
  }

  /** Two lanes' parts of the file lie apart. */
  lemma LanesApart(ss: Session, i: nat, k: nat)
    requires ss.Ok() && i < |ss.ls| && k < |ss.ls| && i != k
    ensures ss.Base(i) + |ss.ls[i].data| <= ss.Base(k) || ss.Base(k) + |ss.ls[k].data| <= ss.Base(i)
  {
    LaneFits(ss, i);
    LaneFits(ss, k);
    ShardsAbut(|ss.file.data|, |ss.ls|, i);
    ShardsAbut(|ss.file.data|, |ss.ls|, k);
    if i < k { ShardsOrdered(|ss.file.data|, |ss.ls|, i + 1, k); } else { ShardsOrdered(|ss.file.data|, |ss.ls|, k + 1, i); }
  }

  // The file's own steps: counting and the checkpoint.

  lemma SinkKeeps(file: File, hash: Hash, s: State, step: CrashResume.Step)
    requires CrashResume.Inv(file, s) && CrashResume.Enabled(file, s, step) && !step.Block? && !step.Scribble?
    ensures var t := CrashResume.Next(file, hash, s, step);
            && t.owed + t.counted == s.owed + s.counted && |t.disk.cur| == |s.disk.cur| >= file.Total()
            && forall o | 0 <= o < file.Total() :: t.disk.cur[o] == s.disk.cur[o]
  {
    if step.Count? { CrashResume.CountKeepsOwed(file, s, step.lo, step.hi); }
    hide CrashResume.MarksOk, CrashResume.Ledger, CrashResume.KeptOk, CrashResume.CheckOk, TrailerBytes, CrashResume.ChunkNo, Span;
  }

  lemma ShowsSame(base: nat, cur: seq<byte>, cur': seq<byte>, out: seq<byte>, data: seq<byte>, started: bool, n: nat)
    requires Shows(base, cur, out, data, started) && base + |data| <= n <= |cur| == |cur'|
    requires forall o | 0 <= o < n :: cur'[o] == cur[o]
    ensures Shows(base, cur', out, data, started)
  {
    forall o: nat | o < |out| ensures ShowsAt(base, cur', out, data, started, o) { assert ShowsAt(base, cur, out, data, started, o); }
  }

  /** A lane's part of the invariant only looks at its own part of the file. */
  lemma LaneSame(ss: Session, cur: seq<byte>, cur': seq<byte>, sys: System, started: bool, i: nat)
    requires ss.Ok() && i < |ss.ls| && LaneOk(ss, cur, sys, started, i)
    requires ss.file.Total() <= |cur| == |cur'| && forall o | 0 <= o < ss.file.Total() :: cur'[o] == cur[o]
    ensures LaneOk(ss, cur', sys, started, i)
  {
    hide LaneSystem.Inv, AskedRight, Shows, ShardOffset, ShardLength;
    LaneFits(ss, i);
    ShowsSame(ss.Base(i), cur, cur', sys.rx.out, ss.ls[i].data, started, ss.file.Total());
  }

  lemma SinkStep(ss: Session, j: Joint, step: CrashResume.Step)
    requires Inv(ss, j) && Enabled(ss, j, Sink(step))
    ensures Inv(ss, Next(ss, j, Sink(step)))
  {
    hide CrashResume.Inv, CrashResume.Next, CrashResume.Enabled, CrashResume.Shaped, LaneOk, Traced, File.Full;
    var after := Next(ss, j, Sink(step));
    CrashResume.StepKeepsInv(ss.file, ss.hash, j.sink, step);
    InvShaped(ss.file, after.sink);
    SinkKeeps(ss.file, ss.hash, j.sink, step);
    forall i | 0 <= i < |ss.ls| ensures LaneOk(ss, after.sink.disk.cur, after.lanes[i], i in after.started, i) {
      LaneSame(ss, j.sink.disk.cur, after.sink.disk.cur, j.lanes[i], i in j.started, i);
    }
  }

  lemma InvShaped(file: File, s: State)
    requires CrashResume.Inv(file, s)
    ensures file.Ok() && CrashResume.Shaped(file, s) && |s.disk.cur| == |s.disk.maybe| == file.Full() >= file.Total()
  {}

  // A lane asks.

  /** A byte of a chunk that counts as complete is the source's. */
  lemma CompleteIsRight(file: File, s: State, x: nat)
    requires CrashResume.Inv(file, s) && x < file.Total()
    ensures |s.disk.cur| >= file.Total()
    ensures !Progress(file.chunk, file.Total(), s.counters).Needs(x) ==> s.disk.cur[x] == file.data[x]
  {
    hide CrashResume.Inv, CrashResume.ChunkNo, CrashResume.IsFull, Progress.Needs, File.Chunks, File.Full;
    InvShaped(file, s);
    if !Progress(file.chunk, file.Total(), s.counters).Needs(x) {
      var c := CrashResume.ChunkNo(file.chunk, x);
      NotNeeded(file, s.counters, x);
      CrashResume.FullIsRight(file, s, c);
      assert x in CrashResume.ChunkSet(file, c);
    }
  }

  lemma NotNeeded(file: File, counters: seq<nat>, x: nat)
    requires file.Ok() && |counters| == file.Chunks() && x < file.Total()
    requires !Progress(file.chunk, file.Total(), counters).Needs(x)
    ensures CrashResume.ChunkNo(file.chunk, x) < file.Chunks() && CrashResume.IsFull(file, counters, CrashResume.ChunkNo(file.chunk, x))
  {
    ChunkOf(x, file.chunk, file.Total());
    hide ChunkLen, ChunkCount;
  }

  /** The sender ends up with the list the receiver made, and it is one it can send. */
  lemma AskedRanges(ss: Session, j: Joint, i: nat, want: seq<Range>, parts: seq<Answer>, sorted: seq<Range>)
    requires ss.Ok() && i < |ss.ls| && CanAsk(ss, j, i, want, parts, sorted)
    ensures ss.ls[i].ranges == want && ss.ls[i].Ok()
  {
    hide ArriveAll, NonEmpty, SortOf, Flat, Part, PartCount, Adopts, Asked;
    SenderUsesTheList(want, |ss.ls[i].data|, parts, sorted);
  }

  lemma SourceByte(ss: Session, i: nat, o: nat)
    requires ss.Ok() && i < |ss.ls| && o < |ss.ls[i].data|
    ensures ss.Base(i) + o < ss.file.Total() && ss.ls[i].data[o] == ss.file.data[ss.Base(i) + o]
  {
    LaneFits(ss, i);
    hide ShardLength;
  }

  /** A byte is there, or it is asked for. */
  lemma AskedByte(file: File, sink: State, base: nat, before: seq<byte>, data: seq<byte>, resumed: bool, want: seq<Range>, o: nat)
    requires CrashResume.Inv(file, sink) && Shows(base, sink.disk.cur, before, data, false)
    requires o < |data| && base + o < file.Total() && data[o] == file.data[base + o]
    requires Wanted(Progress(file.chunk, file.Total(), sink.counters), resumed, base, |data|, MAX_RANGES, want)
    ensures |before| == |data| && (before[o] == data[o] || o in RangeBytes(want))
  {
    hide CrashResume.Inv, Progress.Needs, Asked, Usable, RangeBytes;
    assert ShowsAt(base, sink.disk.cur, before, data, false, o);
    CompleteIsRight(file, sink, base + o);
    AskedIsSent(want, o);
  }

  /** Whatever a lane does not ask for the file holds, as the lane finds it and so as the session found it. */
  lemma AskIsRight(ss: Session, j: Joint, i: nat, want: seq<Range>, parts: seq<Answer>, sorted: seq<Range>)
    requires Inv(ss, j) && i < |ss.ls| && i !in j.started && CanAsk(ss, j, i, want, parts, sorted)
    ensures AskedRight(ss, i) && j.lanes[i] == LaneSystem.Initial(ss.ls[i], ss.cfg, ss.Before(i))
  {
    hide Inv, LaneSystem.Inv, ShardOffset, ShardLength, CrashResume.Inv, Shows, Wanted, RangeBytes, Adopts, Lane.Ok, ArriveAll, NonEmpty, SortOf, Flat, Part, PartCount, Session.Before, CrashResume.Shaped;
    LaneAt(ss, j, i);
    SinkOk(ss, j);
    AskedRanges(ss, j, i, want, parts, sorted);
    var before, data := ss.Before(i), ss.ls[i].data;
    ShowsLength(ss.Base(i), j.sink.disk.cur, before, data);
    forall o: nat | o < |before| ensures before[o] == data[o] || o in RangeBytes(want) {
      SourceByte(ss, i, o);
      AskedByte(ss.file, j.sink, ss.Base(i), before, data, Adopts(ss.file, ss.image.cur, ss.hash), want, o);
    }
  }

  lemma InvIsShaped(ss: Session, j: Joint)
    requires Inv(ss, j)
    ensures Shaped(ss, j)
  {}

  lemma SinkOk(ss: Session, j: Joint)
    requires Inv(ss, j)
    ensures CrashResume.Inv(ss.file, j.sink)
  {}

  lemma ShowsLength(base: nat, cur: seq<byte>, out: seq<byte>, data: seq<byte>)
    requires Shows(base, cur, out, data, false)
    ensures |out| == |data|
  {}

  lemma ShowsStarted(base: nat, cur: seq<byte>, out: seq<byte>, data: seq<byte>)
    requires Shows(base, cur, out, data, false)
    ensures Shows(base, cur, out, data, true)
  {
    forall o: nat | o < |out| ensures ShowsAt(base, cur, out, data, true, o) { assert ShowsAt(base, cur, out, data, false, o); }
  }

  lemma AskStep(ss: Session, j: Joint, i: nat, want: seq<Range>, parts: seq<Answer>, sorted: seq<Range>)
    requires Inv(ss, j) && Enabled(ss, j, Ask(i, want, parts, sorted))
    ensures Inv(ss, Next(ss, j, Ask(i, want, parts, sorted)))
  {
    hide Inv, LaneOk, CanAsk, AskedRight, LaneSystem.Initial, CrashResume.Shaped;
    AskIsRight(ss, j, i, want, parts, sorted);
    LaneStarts(ss, j, i);
    OneMoreStarted(ss, j, i);
  }

  lemma OneMoreStarted(ss: Session, j: Joint, i: nat)
    requires Inv(ss, j) && i < |ss.ls| && |j.lanes| == |ss.ls| && LaneOk(ss, j.sink.disk.cur, j.lanes[i], true, i)
    ensures Inv(ss, j.(started := j.started + {i}))
  {
    hide CrashResume.Inv, LaneOk, Traced, CrashResume.Shaped;
  }

  lemma LaneStarts(ss: Session, j: Joint, i: nat)
    requires Inv(ss, j) && i < |ss.ls| && i !in j.started && AskedRight(ss, i)
    ensures LaneOk(ss, j.sink.disk.cur, j.lanes[i], true, i)
  {
    hide Inv, LaneSystem.Inv, Shows, ShardOffset;
    LaneAt(ss, j, i);
    ShowsStarted(ss.Base(i), j.sink.disk.cur, j.lanes[i].rx.out, ss.ls[i].data);
    LaneSystem.InitialInv(ss.ls[i], ss.cfg, ss.Before(i));
  }

  // A lane moves.

  lemma WroteElsewhere(sink: State, base: nat, out: seq<byte>, p: Pipeline.Packet, ok: bool, partial: nat, base': nat, out': seq<byte>, data': seq<byte>, started: bool)
    requires |sink.disk.cur| == |sink.disk.maybe| && base + |out| <= |sink.disk.cur| && partial <= |p.dg.payload|
    requires base + |out| <= base' || base' + |data'| <= base
    requires Shows(base', sink.disk.cur, out', data', started)
    ensures Shows(base', Wrote(sink, base, out, p, ok, partial).disk.cur, out', data', started)
  {
    hide Shows, CrashResume.Lay, Span;
    if p.authentic && Pipeline.Fits(out, p.dg) {
      LayElsewhere(sink.disk, base + p.dg.offset, if ok then p.dg.payload else p.dg.payload[..partial], base', out', data', started);
    }
  }

  lemma WroteHere(l: Lane, h: seq<Tile>, sink: State, base: nat, out: seq<byte>, p: Pipeline.Packet, ok: bool, partial: nat, also: bool)
    requires |sink.disk.cur| == |sink.disk.maybe| && base + |out| <= |sink.disk.cur| && partial <= |p.dg.payload|
    requires p.authentic ==> Pipeline.Genuine(l, h, p.dg)
    requires Shows(base, sink.disk.cur, out, l.data, true)
    ensures Shows(base, Wrote(sink, base, out, p, ok, partial).disk.cur, if also then Pipeline.WriteOut(out, p, ok, partial) else out, l.data, true)
  {
    if p.authentic && Pipeline.Fits(out, p.dg) {
      var b := if ok then p.dg.payload else p.dg.payload[..partial];
      assert b == l.data[p.dg.offset..p.dg.offset + |b|];
      hide Shows, CrashResume.Lay, Span, Pipeline.Overwrite;
      LayHere(sink.disk, base, p.dg.offset, b, out, l.data, also);
    }
  }

  lemma WroteBase(ss: Session, j: Joint, i: nat)
    requires Inv(ss, j) && i < |ss.ls|
    ensures |j.lanes| == |ss.ls| && |j.sink.disk.cur| == |j.sink.disk.maybe| && |j.lanes[i].rx.out| == |ss.ls[i].data|
    ensures ss.Base(i) + |j.lanes[i].rx.out| <= ss.file.Total() <= |j.sink.disk.cur|
    ensures Shows(ss.Base(i), j.sink.disk.cur, j.lanes[i].rx.out, ss.ls[i].data, i in j.started)
  {
    hide Inv, ShardOffset, LaneSystem.Inv, AskedRight, LaneSystem.Initial;
    LaneAt(ss, j, i);
    LaneFits(ss, i);
  }

  /** After lane `i` wrote, every other lane finds its own part of the file as it was. */
  lemma OthersStay(ss: Session, j: Joint, i: nat, p: Pipeline.Packet, ok: bool, partial: nat, k: nat)
    requires Inv(ss, j) && i < |ss.ls| && k < |ss.ls| && i != k && partial <= |p.dg.payload|
    requires |j.sink.disk.cur| == |j.sink.disk.maybe| && ss.Base(i) + |j.lanes[i].rx.out| <= |j.sink.disk.cur|
    ensures LaneOk(ss, Wrote(j.sink, ss.Base(i), j.lanes[i].rx.out, p, ok, partial).disk.cur, j.lanes[k], k in j.started, k)
  {
    hide Inv, ShardOffset, LaneSystem.Inv, AskedRight, Shows, Wrote;
    WroteBase(ss, j, i);
    WroteBase(ss, j, k);
    LaneAt(ss, j, k);
    LanesApart(ss, i, k);
    WroteElsewhere(j.sink, ss.Base(i), j.lanes[i].rx.out, p, ok, partial, ss.Base(k), j.lanes[k].rx.out, ss.ls[k].data, k in j.started);
  }

  lemma WroteTraced(ss: Session, j: Joint, i: nat, sys: System, p: Pipeline.Packet, ok: bool, partial: nat)
    requires Inv(ss, j) && i < |ss.ls| && partial <= |p.dg.payload|
    requires |j.sink.disk.cur| == |j.sink.disk.maybe| && ss.Base(i) + |j.lanes[i].rx.out| <= |j.sink.disk.cur|
    requires p.authentic ==> Pipeline.Genuine(ss.ls[i], j.lanes[i].tx.history, p.dg)
    requires j.lanes[i].tx.history <= sys.tx.history && j.lanes[i].rx.wrote <= sys.rx.wrote
    requires p.authentic && ok ==> p.dg.s in sys.rx.wrote
    ensures var sink := Wrote(j.sink, ss.Base(i), j.lanes[i].rx.out, p, ok, partial);
            Traced(ss, j.lanes[i := sys], sink.owed + sink.counted)
  {
    TracedNow(ss, j);
    hide Inv, Span, Carried, Carries, ShardOffset, CrashResume.Lay, Pipeline.Genuine;
    TracedGrows(ss, j.lanes, i, sys, j.sink.owed + j.sink.counted);
    if p.authentic && ok {
      GenuineGrows(ss.ls[i], j.lanes[i].tx.history, sys.tx.history, p.dg);
      WrittenCarries(ss, j.lanes[i := sys], i, p.dg);
    }
  }

  lemma TracedNow(ss: Session, j: Joint)
    requires Inv(ss, j)
    ensures |j.lanes| == |ss.ls| && Traced(ss, j.lanes, j.sink.owed + j.sink.counted)
  {}

  lemma GenuineGrows(l: Lane, h: seq<Tile>, h': seq<Tile>, dg: LaneSystem.Datagram)
    requires h <= h' && Pipeline.Genuine(l, h, dg)
    ensures Pipeline.Genuine(l, h', dg)
  {}

  /** What a consumer's write does to its lane. */
  lemma WriteEffect(l: Lane, cfg: Pipeline.Config, sys: System, c: nat, ok: bool, partial: nat)
    requires LaneSystem.Enabled(l, cfg, sys, LaneSystem.Receive(Pipeline.Write(c, ok, partial)))
    ensures var after := LaneSystem.Next(l, cfg, sys, LaneSystem.Receive(Pipeline.Write(c, ok, partial)));
            var p := Current(sys.rx, c);
            && partial <= |p.dg.payload| && after.tx == sys.tx && after.rx.out == Pipeline.WriteOut(sys.rx.out, p, ok, partial)
            && sys.rx.wrote <= after.rx.wrote && (p.authentic && ok ==> p.dg.s in after.rx.wrote)
  {}

  /** A write that is a step of the file's machine keeps the file's invariant. */
  lemma WroteKeepsFile(ss: Session, j: Joint, i: nat, c: nat, ok: bool, partial: nat)
    requires Inv(ss, j) && i in j.started && i < |ss.ls|
    requires Pipeline.Enabled(ss.ls[i], ss.cfg, j.lanes[i].rx, Pipeline.Write(c, ok, partial))
    ensures CrashResume.Inv(ss.file, WroteBy(ss, j, i, c, ok, partial))
  {
    hide Inv, CrashResume.Inv, CrashResume.Runs, WroteBy, Reflected, CrashResume.Shaped;
    InvIsShaped(ss, j);
    EveryWriteIsAStep(ss, j, i, c, ok, partial);
    SinkOk(ss, j);
    CrashResume.RunKeepsInv(ss.file, ss.hash, j.sink, Reflected(ss.Base(i), j.lanes[i].rx.out, Current(j.lanes[i].rx, c), ok, partial),
                            WroteBy(ss, j, i, c, ok, partial));
  }

  /** The invariant, put together again after lane `i` moved to `sys` and the file to `sink`. */
  lemma Together(ss: Session, j: Joint, i: nat, sys: System, sink: State)
    requires Inv(ss, j) && i < |ss.ls| && CrashResume.Inv(ss.file, sink)
    requires Traced(ss, j.lanes[i := sys], sink.owed + sink.counted)
    requires LaneOk(ss, sink.disk.cur, sys, i in j.started, i)
    requires forall k | 0 <= k < |ss.ls| && k != i :: LaneOk(ss, sink.disk.cur, j.lanes[k], k in j.started, k)
    ensures Inv(ss, j.(lanes := j.lanes[i := sys], sink := sink))
  {
    InvShaped(ss.file, sink);
    hide CrashResume.Inv, LaneOk, Traced, CrashResume.Shaped;
  }

  lemma ShortStep(ss: Session, j: Joint, i: nat, c: nat, len: nat)
    requires Inv(ss, j) && Enabled(ss, j, Short(i, c, len))
    ensures Inv(ss, Next(ss, j, Short(i, c, len)))
  {
    hide Inv, CrashResume.Inv, LaneSystem.Inv, Wrote, Shows, Traced, Pipeline.Genuine, AskedRight, ShardOffset, CrashResume.Shaped;
    var p, rx := Current(j.lanes[i].rx, c), j.lanes[i].rx;
    WroteBase(ss, j, i);
    LaneAt(ss, j, i);
    PacketIsNew(ss.ls[i], ss.cfg, j.lanes[i], c, false, len);
    WroteKeepsFile(ss, j, i, c, false, len);
    WroteTraced(ss, j, i, j.lanes[i], p, false, len);
    WroteHere(ss.ls[i], j.lanes[i].tx.history, j.sink, ss.Base(i), rx.out, p, false, len, false);
    var sink := Wrote(j.sink, ss.Base(i), rx.out, p, false, len);
    forall k | 0 <= k < |ss.ls| && k != i ensures LaneOk(ss, sink.disk.cur, j.lanes[k], k in j.started, k) {
      OthersStay(ss, j, i, p, false, len, k);
    }
    Together(ss, j, i, j.lanes[i], sink);
    assert j.lanes[i := j.lanes[i]] == j.lanes;
  }

  lemma WriteStep(ss: Session, j: Joint, i: nat, c: nat, ok: bool, partial: nat)
    requires Inv(ss, j) && Enabled(ss, j, Move(Turn(i, LaneSystem.Receive(Pipeline.Write(c, ok, partial)))))
    ensures Inv(ss, Next(ss, j, Move(Turn(i, LaneSystem.Receive(Pipeline.Write(c, ok, partial))))))
  {
    hide Inv, CrashResume.Inv, LaneSystem.Inv, LaneSystem.Next, Wrote, Shows, Traced, Pipeline.Genuine, Pipeline.WriteOut, AskedRight, ShardOffset, CrashResume.Shaped;
    var a := LaneSystem.Receive(Pipeline.Write(c, ok, partial));
    var p, rx := Current(j.lanes[i].rx, c), j.lanes[i].rx;
    var sys := LaneSystem.Next(ss.ls[i], ss.cfg, j.lanes[i], a);
    WroteBase(ss, j, i);
    LaneAt(ss, j, i);
    PacketIsNew(ss.ls[i], ss.cfg, j.lanes[i], c, ok, partial);
    WriteEffect(ss.ls[i], ss.cfg, j.lanes[i], c, ok, partial);
    LaneSystem.ActionKeepsInv(ss.ls[i], ss.cfg, j.lanes[i], a);
    WroteKeepsFile(ss, j, i, c, ok, partial);
    WroteTraced(ss, j, i, sys, p, ok, partial);
    WroteHere(ss.ls[i], j.lanes[i].tx.history, j.sink, ss.Base(i), rx.out, p, ok, partial, true);
    var sink := Wrote(j.sink, ss.Base(i), rx.out, p, ok, partial);
    forall k | 0 <= k < |ss.ls| && k != i ensures LaneOk(ss, sink.disk.cur, j.lanes[k], k in j.started, k) {
      OthersStay(ss, j, i, p, ok, partial, k);
    }
    Together(ss, j, i, sys, sink);
  }

  lemma OtherMoveStep(ss: Session, j: Joint, t: Turn)
    requires Inv(ss, j) && Enabled(ss, j, Move(t)) && !(t.act.Receive? && t.act.step.Write?)
    ensures Inv(ss, Next(ss, j, Move(t)))
  {
    hide Inv, CrashResume.Inv, LaneSystem.Inv, LaneSystem.Next, LaneSystem.Enabled, Shows, Traced, AskedRight, ShardOffset, CrashResume.Shaped;
    var i := t.lane;
    var sys := LaneSystem.Next(ss.ls[i], ss.cfg, j.lanes[i], t.act);
    LaneAt(ss, j, i);
    SinkOk(ss, j);
    TracedNow(ss, j);
    ActionGrows(ss.ls[i], ss.cfg, j.lanes[i], t.act);
    LaneSystem.ActionKeepsInv(ss.ls[i], ss.cfg, j.lanes[i], t.act);
    TracedGrows(ss, j.lanes, i, sys, j.sink.owed + j.sink.counted);
    forall k | 0 <= k < |ss.ls| && k != i ensures LaneOk(ss, j.sink.disk.cur, j.lanes[k], k in j.started, k) { LaneAt(ss, j, k); }
    Together(ss, j, i, sys, j.sink);
  }

  lemma ActKeepsInv(ss: Session, j: Joint, a: Act)
    requires Inv(ss, j) && Enabled(ss, j, a)
    ensures Inv(ss, Next(ss, j, a))
  {
    hide Inv, Enabled, Next;
    match a
    case Ask(i, want, parts, sorted) => AskStep(ss, j, i, want, parts, sorted);
    case Move(t) =>
      if t.act.Receive? && t.act.step.Write? {
        WriteStep(ss, j, t.lane, t.act.step.c, t.act.step.ok, t.act.step.partial);
      } else {
        OtherMoveStep(ss, j, t);
      }
    case Short(i, c, len) => ShortStep(ss, j, i, c, len);
    case Sink(step) => SinkStep(ss, j, step);
  }

  // ----- Every session -----

  ghost predicate Runs(ss: Session, j: Joint, acts: seq<Act>, end: Joint)
    decreases |acts|
  {
    if acts == [] then j == end else Enabled(ss, j, acts[0]) && Runs(ss, Next(ss, j, acts[0]), acts[1..], end)
  }

  lemma {:induction false} RunKeepsInv(ss: Session, j: Joint, acts: seq<Act>, end: Joint)
    requires Inv(ss, j) && Runs(ss, j, acts, end)
    ensures Inv(ss, end)
    decreases |acts|
  {
    hide Inv, Enabled, Next;
    if acts != [] {
      ActKeepsInv(ss, j, acts[0]);
      RunKeepsInv(ss, Next(ss, j, acts[0]), acts[1..], end);
    }
  }

  /** The turns of the lanes in a run. */
  function Turns(acts: seq<Act>): seq<Turn> {
    if acts == [] then [] else (if acts[0].Move? then [acts[0].t] else []) + Turns(acts[1..])
  }

  /** The steps of the file's machine in a run. */
  ghost function FileSteps(ss: Session, j: Joint, acts: seq<Act>): seq<CrashResume.Step>
    decreases |acts|
  {
    if acts == [] || !Enabled(ss, j, acts[0]) then []
    else FileStep(ss, j, acts[0]) + FileSteps(ss, Next(ss, j, acts[0]), acts[1..])
  }

  ghost function FileStep(ss: Session, j: Joint, a: Act): seq<CrashResume.Step>
    requires Enabled(ss, j, a)
  {
    match a
    case Ask(_, _, _, _) => []
    case Move(t) =>
      if t.act.Receive? && t.act.step.Write? then
        Reflected(ss.Base(t.lane), j.lanes[t.lane].rx.out, Current(j.lanes[t.lane].rx, t.act.step.c), t.act.step.ok, t.act.step.partial)
      else []
    case Short(i, c, len) => Reflected(ss.Base(i), j.lanes[i].rx.out, Current(j.lanes[i].rx, c), false, len)
    case Sink(step) => [step]
  }

  lemma ActIsFileStep(ss: Session, j: Joint, a: Act)
    requires Inv(ss, j) && Enabled(ss, j, a)
    ensures CrashResume.Runs(ss.file, ss.hash, j.sink, FileStep(ss, j, a), Next(ss, j, a).sink)
  {
    hide Inv, Reflected, CanAsk, CrashResume.Next, CrashResume.Enabled, CrashResume.Shaped;
    match a
    case Ask(_, _, _, _) =>
    case Move(t) =>
      if t.act.Receive? && t.act.step.Write? {
        EveryWriteIsAStep(ss, j, t.lane, t.act.step.c, t.act.step.ok, t.act.step.partial);
      }
    case Short(i, c, len) => EveryWriteIsAStep(ss, j, i, c, false, len);
    case Sink(step) => assert [step][1..] == [];
  }

  lemma {:induction false} RunsJoin(file: File, hash: Hash, s: State, a: seq<CrashResume.Step>, mid: State, b: seq<CrashResume.Step>, end: State)
    requires file.Ok() && CrashResume.Runs(file, hash, s, a, mid) && CrashResume.Runs(file, hash, mid, b, end)
    ensures CrashResume.Runs(file, hash, s, a + b, end)
    decreases |a|
  {
    hide CrashResume.Enabled, CrashResume.Next, CrashResume.Shaped;
    if a == [] {
      assert a + b == b;
    } else {
      assert (a + b)[1..] == a[1..] + b;
      RunsJoin(file, hash, CrashResume.Next(file, hash, s, a[0]), a[1..], mid, b, end);
    }
  }

  /**
   A session of lanes over a file is, seen from the file, a run of writers and checkpoint as
   `CrashResume` has them: all the guards of that machine hold of themselves.
   */
  lemma {:induction false} FileRuns(ss: Session, j: Joint, acts: seq<Act>, end: Joint)
    requires Inv(ss, j) && Runs(ss, j, acts, end)
    ensures ss.file.Ok() && CrashResume.Runs(ss.file, ss.hash, j.sink, FileSteps(ss, j, acts), end.sink)
    decreases |acts|
  {
    SinkOk(ss, j);
    InvShaped(ss.file, j.sink);
    hide Inv, Enabled, Next, FileStep, CrashResume.Shaped, CrashResume.Inv;
    if acts != [] {
      var mid := Next(ss, j, acts[0]);
      ActIsFileStep(ss, j, acts[0]);
      ActKeepsInv(ss, j, acts[0]);
      FileRuns(ss, mid, acts[1..], end);
      RunsJoin(ss.file, ss.hash, j.sink, FileStep(ss, j, acts[0]), mid.sink, FileSteps(ss, mid, acts[1..]), end.sink);
    }
  }

  /** And, seen from the lanes, it is any interleaving of them. */
  lemma {:induction false} LanesWeave(ss: Session, j: Joint, acts: seq<Act>, end: Joint)
    requires Runs(ss, j, acts, end)
    ensures Weaves(ss.ls, ss.cfg, j.lanes, Turns(acts), end.lanes)
    decreases |acts|
  {
    hide Turned, CanAsk, WroteBy, Pipeline.Enabled, CrashResume.Enabled, CrashResume.Next, CrashResume.Shaped, LaneSystem.Enabled;
    if acts != [] {
      LanesWeave(ss, Next(ss, j, acts[0]), acts[1..], end);
      if acts[0].Move? {
        assert Turns(acts) == [acts[0].t] + Turns(acts[1..]);
        assert Turns(acts)[1..] == Turns(acts[1..]);
      } else {
        assert Turns(acts) == Turns(acts[1..]);
      }
    }
  }

  // ----- Crashes and completion -----

  /** One session of lanes after another over the same file, each from what the one before it left. */
  ghost predicate Chain(sessions: seq<Session>, runs: seq<seq<Act>>, ends: seq<Joint>) {
    && |sessions| == |runs| == |ends| && (forall k | 0 <= k < |sessions| :: sessions[k].Ok())
    && (forall k | 0 <= k < |sessions| :: sessions[k].file == sessions[0].file && sessions[k].hash == sessions[0].hash)
    && (forall k | 0 <= k < |sessions| :: Runs(sessions[k], Start(sessions[k]), runs[k], ends[k]))
    && (forall k | 1 <= k < |sessions| :: CrashResume.Passes(ends[k - 1].sink.disk, sessions[k].image))
  }

  /**
   Crash-consistent resume of whole transfers: however many sessions, with however many lanes each,
   interrupted anywhere by a crash or by the end of the process, every session starts from an image
   whose marks are true, and what the last one leaves is again such an image.
   */
  lemma {:induction false} EveryTransferIsTrustworthy(sessions: seq<Session>, runs: seq<seq<Act>>, ends: seq<Joint>, k: nat, next: CrashResume.Disk)
    requires Chain(sessions, runs, ends) && k < |sessions|
    requires CrashResume.Sound(sessions[0].file, sessions[0].image, sessions[0].hash)
    requires CrashResume.Passes(ends[k].sink.disk, next)
    ensures Inv(sessions[k], ends[k])
    ensures CrashResume.Sound(sessions[k].file, sessions[k].image, sessions[k].hash)
    ensures CrashResume.Sound(sessions[k].file, next, sessions[k].hash) && CrashResume.Trustworthy(sessions[k].file, next.cur, sessions[k].hash)
    decreases k
  {
    hide Inv, Runs, Start, CrashResume.Passes, CrashResume.Sound, CrashResume.Trustworthy;
    if k > 0 {
      assert CrashResume.Passes(ends[k - 1].sink.disk, sessions[k].image);
      EveryTransferIsTrustworthy(sessions, runs, ends, k - 1, sessions[k].image);
    }
    StartInv(sessions[k]);
    RunKeepsInv(sessions[k], Start(sessions[k]), runs[k], ends[k]);
    SinkOk(sessions[k], ends[k]);
    CrashResume.PassedIsSound(sessions[k].file, sessions[k].hash, ends[k].sink, next);
    CrashResume.SoundReadsTrue(sessions[k].file, next, sessions[k].hash);
  }

  /** A session begun from any safe image whose lanes have all asked: they cover whatever is missing. */
  lemma AskedLanesSplit(ss: Session, j: Joint, before: seq<seq<byte>>)
    requires Inv(ss, j) && (forall i | 0 <= i < |ss.ls| :: i in j.started)
    requires |before| == |ss.ls| && forall i | 0 <= i < |ss.ls| :: before[i] == ss.Before(i)
    ensures Splits(ss.file.data, before, ss.ls)
  {
    hide Inv, LaneSystem.Inv, LaneOk, Shard, RangeBytes, Session.Before, Lane.Ok, CrashResume.Shaped;
    InvIsShaped(ss, j);
    forall i | 0 <= i < |ss.ls|
      ensures ss.ls[i].Ok() && ss.ls[i].data == Shard(ss.file.data, |ss.ls|, i) && |before[i]| == |ss.ls[i].data|
      ensures forall o: nat | o < |before[i]| :: before[i][o] == ss.ls[i].data[o] || o in RangeBytes(ss.ls[i].ranges)
    {
      assert i in j.started;
      LaneAt(ss, j, i);
      assert AskedRight(ss, i) && before[i] == ss.Before(i);
    }
  }

  lemma ShownIsSource(ss: Session, j: Joint, x: nat)
    requires Inv(ss, j) && x < ss.file.Total()
    requires forall i | 0 <= i < |ss.ls| :: |j.lanes| == |ss.ls| && j.lanes[i].rx.out == ss.ls[i].data
    ensures x < |j.sink.disk.cur| && j.sink.disk.cur[x] == ss.file.data[x]
  {
    hide Inv, ShardOffset, ShardLength, CrashResume.Shaped;
    InvIsShaped(ss, j);
    var i := ShardOf(|ss.file.data|, |ss.ls|, x);
    WroteBase(ss, j, i);
    LaneFits(ss, i);
    SourceByte(ss, i, x - ss.Base(i));
    assert ShowsAt(ss.Base(i), j.sink.disk.cur, j.lanes[i].rx.out, ss.ls[i].data, i in j.started, x - ss.Base(i));
  }

  /**
   A resumed transfer ends as the source: from any safe image, in any run of any number of lanes
   that have all asked, once every lane is done at either end the file is the sender's, byte for byte.
   */
  lemma FileIsTheSource(ss: Session, acts: seq<Act>, end: Joint)
    requires ss.Ok() && CrashResume.Sound(ss.file, ss.image, ss.hash) && Runs(ss, Start(ss), acts, end)
    requires forall i | 0 <= i < |ss.ls| :: i in end.started
    requires |end.lanes| == |ss.ls| ==> forall i | 0 <= i < |end.lanes| :: LaneDone(end.lanes[i])
    ensures |end.sink.disk.cur| >= ss.file.Total() && end.sink.disk.cur[..ss.file.Total()] == ss.file.data
  {
    hide Inv, Runs, LaneDone, Splits, Weaves, Shard, CrashResume.Sound;
    StartInv(ss);
    RunKeepsInv(ss, Start(ss), acts, end);
    LanesWeave(ss, Start(ss), acts, end);
    var before := seq(|ss.ls|, i requires 0 <= i < |ss.ls| => ss.Before(i));
    AskedLanesSplit(ss, end, before);
    WroteBase(ss, end, 0);
    forall i | 0 <= i < |ss.ls| ensures end.lanes[i].rx.out == ss.ls[i].data {
      LaneArrives(ss.file.data, before, ss.ls, ss.cfg, Turns(acts), Start(ss).lanes, end.lanes, i);
    }
    forall x: nat | x < ss.file.Total() ensures end.sink.disk.cur[x] == ss.file.data[x] { ShownIsSource(ss, end, x); }
  }

  /**
   So with no partial file there at first: after any number of interrupted sessions, the first one
   that is done leaves exactly the sender's bytes.
   */
  lemma TransfersFromNothing(sessions: seq<Session>, runs: seq<seq<Act>>, ends: seq<Joint>, k: nat)
    requires Chain(sessions, runs, ends) && k < |sessions| && sessions[0].image == CrashResume.Synced([])
    requires forall i | 0 <= i < |sessions[k].ls| :: i in ends[k].started
    requires |ends[k].lanes| == |sessions[k].ls| ==> forall i | 0 <= i < |ends[k].lanes| :: LaneDone(ends[k].lanes[i])
    ensures var total := sessions[0].file.Total();
            |ends[k].sink.disk.cur| >= total && ends[k].sink.disk.cur[..total] == sessions[0].file.data
  {
    assert CrashResume.Passes(ends[k].sink.disk, CrashResume.Synced([]));
    hide Runs, Inv, LaneDone, CrashResume.Sound, CrashResume.Passes;
    CrashResume.NothingToBelieve(sessions[0].file, [], sessions[0].hash);
    EveryTransferIsTrustworthy(sessions, runs, ends, k, CrashResume.Synced([]));
    FileIsTheSource(sessions[k], runs[k], ends[k]);
  }
}
