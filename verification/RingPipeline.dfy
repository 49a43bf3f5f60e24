/**
 The receive pipeline over its real rings (`recv_lane`, `drain_channel` and `drain_results`,
 transfer.cpp; spsc_ring.hpp): two `SpscRing`s per channel with their stale counter copies, the
 reader's and the consumers' own variables, and steps that touch one ring counter, one slot or
 the output at a time. Every run of it is a run of `Pipeline`, whose queues are what the rings
 hold, so all that is proved of a lane holds of this.
 */
module RingPipeline {
  import opened Word64
  import opened Basics
  import opened SpscRing
  import opened LaneSender
  import opened LaneSystem
  import Control
  import Lanes
  import Pipeline

  type Packet = Pipeline.Packet
  type Completion = Pipeline.Completion

  /** A consumer's own variables: batch size, blocks judged so far, a verdict not yet in its slot. */
  datatype Task = Idle | Busy(n: nat, i: nat, verdict: Option<Completion>) | Reported(n: nat)

  /** One channel: the ring to the consumer, the ring back, and where the consumer stands. */
  datatype Line = Line(inq: Ring<Packet>, back: Ring<Completion>, task: Task)

  /** The reader between datagrams, with a slot filled, with it published, or inside `drain_results`. */
  datatype Reader = Ready | Filled(p: Packet) | Sent(p: Packet) | Draining(c: nat, n: nat, j: nat)

  /** `rx` has the reader's variables, the output and the history; its `channels` stay empty. */
  datatype Fine = Fine(rx: Pipe, lines: seq<Line>, reader: Reader)

  datatype Access =
    | Room(c: nat)                            // reader: `writable` of a packet ring
    | Stage(p: Packet)                        // reader: the filter, then the slot
    | Publish                                 // reader: tail store
    | Note                                    // reader: mark and pending count
    | Look(c: nat)                            // reader: `readable` of a ring back
    | Gather                                  // reader: one verdict
    | Return                                  // reader: head store
    | LoadTail(c: nat)                        // consumer: `readable`
    | LoadHead(c: nat)                        // consumer: `writable`
    | Take(c: nat)                            // consumer: the batch size
    | Write(c: nat, ok: bool, partial: nat)   // consumer: one block to the output
    | Put(c: nat)                             // consumer: its verdict to the slot
    | Report(c: nat)                          // consumer: tail store
    | Release(c: nat)                         // consumer: head store

  // ----- What a channel looks like as two queues -----

  ghost predicate TaskOk(ln: Line) {
    match ln.task
    case Idle => true
    case Busy(n, i, verdict) => 1 <= n && i <= n && (verdict.Some? ==> i < n) && n <= ln.inq.Filled() && n <= ln.back.Free()
    case Reported(n) => n <= ln.inq.Filled()
  }

  ghost predicate LineOk(ln: Line, cap: nat) {
    ln.inq.Inv() && ln.back.Inv() && ln.inq.Cap() == ln.back.Cap() == cap && TaskOk(ln)
  }

  ghost function Work(ln: Line): Pipeline.Work
    requires ln.back.Cap() > 0
  {
    match ln.task
    case Idle => Pipeline.Idle
    case Busy(n, i, verdict) => Pipeline.Busy(n, ln.back.Staged(i) + if verdict.Some? then [verdict.value] else [])
    case Reported(n) => Pipeline.Reported(n)
  }

  /** The channel as queues; the reader is done with the first `skip` verdicts but has not returned their slots. */
  ghost function Seen(ln: Line, skip: nat): Pipeline.Channel
    requires ln.inq.Inv() && ln.back.Inv() && skip <= ln.back.Filled()
  {
    Pipeline.Channel(ln.inq.produced[ln.inq.head..], Work(ln), ln.back.produced[ln.back.head + skip..])
  }

  function Skip(r: Reader, c: nat): nat { if r.Draining? && r.c == c then r.j else 0 }

  ghost predicate ReaderOk(l: Lane, cfg: Pipeline.Config, f: Fine)
    requires cfg.writers >= 1 && |f.rx.dispatched| == l.window >= 1 && |f.lines| == cfg.writers + 1
  {
    match f.reader
    case Ready => true
    case Filled(p) =>
      var ring := f.lines[cfg.Route(p.dg)].inq;
      && f.rx.Base() <= p.dg.s < f.rx.Base() + l.window && p.dg.s !in f.rx.got && f.rx.dispatched[p.dg.s % l.window] != Some(p.dg.s)
      && ring.Free() > 0 && ring.Cap() > 0 && ring.At(ring.Tail()) == p
    case Sent(p) => true
    case Draining(c, n, j) => c < |f.lines| && j <= n <= f.lines[c].back.Filled()
  }

  ghost predicate Inv(l: Lane, cfg: Pipeline.Config, f: Fine) {
    && cfg.writers >= 1 && l.window >= 1 && |f.lines| == cfg.writers + 1 && f.rx.channels == []
    && |f.rx.dispatched| == l.window && |f.rx.out| == |l.data|
    && (forall c | 0 <= c < |f.lines| :: LineOk(f.lines[c], cfg.Capacity(c)))
    && ReaderOk(l, cfg, f)
  }

  lemma SkipFits(l: Lane, cfg: Pipeline.Config, f: Fine, c: nat)
    requires Inv(l, cfg, f) && c < |f.lines|
    ensures f.lines[c].inq.Inv() && f.lines[c].back.Inv() && Skip(f.reader, c) <= f.lines[c].back.Filled()
  {
    assert LineOk(f.lines[c], cfg.Capacity(c));
  }

  ghost function Channels(l: Lane, cfg: Pipeline.Config, f: Fine): (r: seq<Pipeline.Channel>)
    requires Inv(l, cfg, f)
    ensures |r| == |f.lines|
  {
    seq(|f.lines|, c requires 0 <= c < |f.lines| => SkipFits(l, cfg, f, c); Seen(f.lines[c], Skip(f.reader, c)))
  }

  /** The pipeline that the rings implement. */
  ghost function Abs(l: Lane, cfg: Pipeline.Config, f: Fine): Pipe
    requires Inv(l, cfg, f)
  {
    var rx := f.rx.(channels := Channels(l, cfg, f));
    if f.reader.Sent? then
      rx.(dispatched := rx.dispatched[f.reader.p.dg.s % l.window := Some(f.reader.p.dg.s)], pending := rx.pending + 1)
    else rx
  }

  // ----- The accesses -----

  ghost predicate CanWrite(ln: Line, partial: nat) {
    && ln.task.Busy? && ln.task.i < ln.task.n && ln.task.verdict.None? && ln.inq.Cap() > 0
    && partial <= |ln.inq.At(ln.inq.head + ln.task.i).dg.payload|
  }

  ghost predicate Enabled(l: Lane, cfg: Pipeline.Config, f: Fine, a: Access) {
    && Inv(l, cfg, f)
    && match a
       case Room(c) => f.reader.Ready? && c < |f.lines|
       case Stage(p) =>
         && f.reader.Ready? && f.rx.Base() <= p.dg.s < f.rx.Base() + l.window && p.dg.s !in f.rx.got
         && f.rx.dispatched[p.dg.s % l.window] != Some(p.dg.s) && f.lines[cfg.Route(p.dg)].inq.Free() > 0
       case Publish => f.reader.Filled?
       case Note => f.reader.Sent?
       case Look(c) => f.reader.Ready? && c < |f.lines|
       case Gather => f.reader.Draining? && f.reader.j < f.reader.n
       case Return => f.reader.Draining? && f.reader.j == f.reader.n
       case LoadTail(c) => c < |f.lines| && f.lines[c].task.Idle?
       case LoadHead(c) => c < |f.lines| && f.lines[c].task.Idle?
       case Take(c) => c < |f.lines| && f.lines[c].task.Idle? && Batch(f.lines[c]) >= 1
       case Write(c, _, partial) => c < |f.lines| && CanWrite(f.lines[c], partial)
       case Put(c) => c < |f.lines| && f.lines[c].task.Busy? && f.lines[c].task.verdict.Some?
       case Report(c) => c < |f.lines| && f.lines[c].task.Busy? && f.lines[c].task.i == f.lines[c].task.n
       case Release(c) => c < |f.lines| && f.lines[c].task.Reported?
  }

  /** `drain_channel` takes what it sees readable, has room to report on, and at most a batch. */
  function Batch(ln: Line): int {
    var n := if ln.inq.Filled() <= ln.back.Free() then ln.inq.Filled() else ln.back.Free();
    if n <= Pipeline.WRITE_BATCH then n else Pipeline.WRITE_BATCH
  }

  /** No more than any of the three limits, and all that the tightest of them allows. */
  lemma BatchIsAll(ln: Line, n: int)
    ensures n <= Batch(ln) <==> n <= ln.inq.Filled() && n <= ln.back.Free() && n <= 64
  {}

  ghost function SetLine(f: Fine, c: nat, ln: Line): Fine
    requires c < |f.lines|
  {
    f.(lines := f.lines[c := ln])
  }

  ghost function PutLine(ln: Line): Line
    requires ln.back.Inv() && ln.task.Busy? && ln.task.verdict.Some? && ln.task.i < ln.back.Free()
  {
    ln.(back := SpscRing.Apply(ln.back, Fill(ln.task.i, ln.task.verdict.value)), task := Busy(ln.task.n, ln.task.i + 1, None))
  }

  lemma LineAt(l: Lane, cfg: Pipeline.Config, f: Fine, c: nat)
    requires Inv(l, cfg, f) && c < |f.lines|
    ensures LineOk(f.lines[c], cfg.Capacity(c))
  {}

  ghost function Next(l: Lane, cfg: Pipeline.Config, f: Fine, a: Access): Fine
    requires Enabled(l, cfg, f, a)
  {
    match a
    case Room(c) =>
      LineAt(l, cfg, f, c);
      SetLine(f, c, f.lines[c].(inq := SpscRing.Apply(f.lines[c].inq, Writable)))
    case Stage(p) =>
      var c := cfg.Route(p.dg);
      LineAt(l, cfg, f, c);
      SetLine(f, c, f.lines[c].(inq := SpscRing.Apply(f.lines[c].inq, Fill(0, p)))).(reader := Filled(p))
    case Publish =>
      var c := cfg.Route(f.reader.p.dg);
      LineAt(l, cfg, f, c);
      SetLine(f, c, f.lines[c].(inq := SpscRing.Apply(f.lines[c].inq, Commit(1)))).(
        reader := Sent(f.reader.p), rx := f.rx.(owner := f.rx.owner[f.reader.p.dg.s := c]))
    case Note =>
      var s := f.reader.p.dg.s;
      f.(reader := Ready, rx := f.rx.(dispatched := f.rx.dispatched[s % l.window := Some(s)], pending := f.rx.pending + 1))
    case Look(c) =>
      LineAt(l, cfg, f, c);
      var back := SpscRing.Apply(f.lines[c].back, Readable);
      SetLine(f, c, f.lines[c].(back := back)).(reader := Draining(c, Max(0, back.Filled()), 0))
    case Gather =>
      var back := f.lines[f.reader.c].back;
      LineAt(l, cfg, f, f.reader.c);
      f.(rx := Pipeline.Credit(l, f.rx, back.At(back.head + f.reader.j)), reader := f.reader.(j := f.reader.j + 1))
    case Return =>
      LineAt(l, cfg, f, f.reader.c);
      SetLine(f, f.reader.c, f.lines[f.reader.c].(back := SpscRing.Apply(f.lines[f.reader.c].back, Consume(f.reader.n)))).(reader := Ready)
    case LoadTail(c) =>
      LineAt(l, cfg, f, c);
      SetLine(f, c, f.lines[c].(inq := SpscRing.Apply(f.lines[c].inq, Readable)))
    case LoadHead(c) =>
      LineAt(l, cfg, f, c);
      SetLine(f, c, f.lines[c].(back := SpscRing.Apply(f.lines[c].back, Writable)))
    case Take(c) => SetLine(f, c, f.lines[c].(task := Busy(Batch(f.lines[c]), 0, None)))
    case Write(c, ok, partial) =>
      var ln := f.lines[c];
      var p := ln.inq.At(ln.inq.head + ln.task.i);
      var v := Pipeline.Judged(f.rx.out, p, ok);
      SetLine(f, c, ln.(task := ln.task.(verdict := Some(v)))).(
        rx := f.rx.(out := Pipeline.WriteOut(f.rx.out, p, ok, partial),
                    wrote := if v.result == Pipeline.Written then f.rx.wrote + {v.s} else f.rx.wrote))
    case Put(c) =>
      LineAt(l, cfg, f, c);
      SetLine(f, c, PutLine(f.lines[c]))
    case Report(c) =>
      LineAt(l, cfg, f, c);
      SetLine(f, c, f.lines[c].(back := SpscRing.Apply(f.lines[c].back, Commit(f.lines[c].task.n)), task := Reported(f.lines[c].task.n)))
    case Release(c) =>
      LineAt(l, cfg, f, c);
      SetLine(f, c, f.lines[c].(inq := SpscRing.Apply(f.lines[c].inq, Consume(f.lines[c].task.n)), task := Idle))
  }

  /** The step of the pipeline that an access completes, if any. */
  ghost function Completes(l: Lane, cfg: Pipeline.Config, f: Fine, a: Access): Option<Pipeline.Step>
    requires Enabled(l, cfg, f, a)
  {
    match a
    case Publish => Some(Pipeline.Dispatch(f.reader.p))
    case Gather => Some(Pipeline.Drain(f.reader.c))
    case Take(c) => Some(Pipeline.Take(c, Batch(f.lines[c])))
    case Write(c, ok, partial) => Some(Pipeline.Write(c, ok, partial))
    case Report(c) => Some(Pipeline.Commit(c))
    case Release(c) => Some(Pipeline.Release(c))
    case _ => None
  }

  // ----- What an access does to one channel -----

  /** A producer's or consumer's counter load, or a slot not published yet: the queues stay. */
  lemma PacketSideKeeps(ln: Line, cap: nat, skip: nat, step: SpscRing.Step<Packet>)
    requires LineOk(ln, cap) && skip <= ln.back.Filled() && SpscRing.Enabled(ln.inq, step)
    requires step.Writable? || step.Fill? || (step.Readable? && ln.task.Idle?)
    ensures var after := ln.(inq := SpscRing.Apply(ln.inq, step)); LineOk(after, cap) && Seen(after, skip) == Seen(ln, skip)
  {
    StepKeepsInv(ln.inq, step);
  }

  lemma StagedSame(a: Ring<Completion>, b: Ring<Completion>, n: nat)
    requires a.Cap() == b.Cap() > 0 && a.slots == b.slots && a.Tail() == b.Tail()
    ensures a.Staged(n) == b.Staged(n)
  {
    forall k: nat | k < n ensures a.Staged(n)[k] == b.Staged(n)[k] {
      assert a.At(a.Tail() + k) == b.At(b.Tail() + k);
    }
  }

  lemma StagedNext(r: Ring<Completion>, i: nat, v: Completion)
    requires r.Inv() && i < r.Free()
    ensures SpscRing.Apply(r, Fill(i, v)).Cap() > 0 && SpscRing.Apply(r, Fill(i, v)).Staged(i + 1) == r.Staged(i) + [v]
  {
    var after := SpscRing.Apply(r, Fill(i, v));
    forall k: nat | k <= i ensures after.Staged(i + 1)[k] == (r.Staged(i) + [v])[k] {
      FillTouchesOne(r, i, v, r.Tail() + k);
      assert after.Tail() == r.Tail() && after.Staged(i + 1)[k] == after.At(after.Tail() + k);
      if k < i { assert r.Staged(i)[k] == r.At(r.Tail() + k); }
    }
  }

  lemma BackSideKeeps(ln: Line, cap: nat, skip: nat, step: SpscRing.Step<Completion>)
    requires LineOk(ln, cap) && skip <= ln.back.Filled() && SpscRing.Enabled(ln.back, step)
    requires (step.Writable? && ln.task.Idle?) || (step.Readable? && skip == 0)
    ensures var after := ln.(back := SpscRing.Apply(ln.back, step));
            LineOk(after, cap) && skip <= after.back.Filled() && Seen(after, skip) == Seen(ln, skip)
  {
    StepKeepsInv(ln.back, step);
    var after := SpscRing.Apply(ln.back, step);
    if ln.task.Busy? { StagedSame(ln.back, after, ln.task.i); }
    hide Ring.Staged;
  }

  /** Slots already gone through go back: nothing the queues show changes. */
  lemma ReturnKeeps(ln: Line, cap: nat, n: nat)
    requires LineOk(ln, cap) && n <= ln.back.Filled()
    ensures var after := ln.(back := SpscRing.Apply(ln.back, Consume(n)));
            LineOk(after, cap) && 0 <= after.back.Filled() && Seen(after, 0) == Seen(ln, n)
  {
    StepKeepsInv(ln.back, SpscRing.Consume(n));
    var after := SpscRing.Apply(ln.back, SpscRing.Consume(n));
    if ln.task.Busy? { StagedSame(ln.back, after, ln.task.i); }
    hide Ring.Staged;
  }

  lemma PublishAppends(ln: Line, cap: nat, skip: nat, p: Packet)
    requires LineOk(ln, cap) && skip <= ln.back.Filled() && ln.inq.Free() > 0 && ln.inq.At(ln.inq.Tail()) == p
    ensures |ln.inq.produced[ln.inq.head..]| < cap
    ensures var after := ln.(inq := SpscRing.Apply(ln.inq, Commit(1)));
            LineOk(after, cap) && Seen(after, skip) == Seen(ln, skip).(inq := Seen(ln, skip).inq + [p])
  {
    StepKeepsInv(ln.inq, SpscRing.Commit(1));
    assert ln.inq.Staged(1) == [p];
  }

  lemma TakeStarts(ln: Line, cap: nat, skip: nat)
    requires LineOk(ln, cap) && skip <= ln.back.Filled() && ln.task.Idle? && Batch(ln) >= 1
    ensures var n, ch := Batch(ln), Seen(ln, skip);
            var after := ln.(task := Busy(n, 0, None));
            && n <= Pipeline.WRITE_BATCH && n <= |ch.inq| && n + |ch.done| <= cap
            && LineOk(after, cap) && Seen(after, skip) == ch.(work := Pipeline.Busy(n, []))
  {
    assert ln.back.Staged(0) + [] == [];
    hide Ring.Staged;
  }

  lemma WriteJudges(ln: Line, cap: nat, skip: nat, v: Completion)
    requires LineOk(ln, cap) && skip <= ln.back.Filled() && CanWrite(ln, 0)
    ensures var ch := Seen(ln, skip);
            var after := ln.(task := ln.task.(verdict := Some(v)));
            && |ch.work.out| == ln.task.i < ch.work.n <= |ch.inq| && ch.work.n == ln.task.n
            && ch.inq[|ch.work.out|] == ln.inq.At(ln.inq.head + ln.task.i)
            && LineOk(after, cap) && Seen(after, skip) == ch.(work := Pipeline.Busy(ch.work.n, ch.work.out + [v]))
  {
    assert ln.back.Staged(ln.task.i) + [] == ln.back.Staged(ln.task.i);
  }

  lemma PutKeeps(ln: Line, cap: nat, skip: nat)
    requires LineOk(ln, cap) && skip <= ln.back.Filled() && ln.task.Busy? && ln.task.verdict.Some?
    ensures LineOk(PutLine(ln), cap) && skip <= PutLine(ln).back.Filled() && Seen(PutLine(ln), skip) == Seen(ln, skip)
  {
    var i, v := ln.task.i, ln.task.verdict.value;
    var after := SpscRing.Apply(ln.back, Fill(i, v));
    StepKeepsInv(ln.back, SpscRing.Fill(i, v));
    StagedNext(ln.back, i, v);
    hide Ring.Staged;
    assert after.Staged(i + 1) + [] == after.Staged(i + 1);
  }

  lemma ReportCommits(ln: Line, cap: nat, skip: nat)
    requires LineOk(ln, cap) && skip <= ln.back.Filled() && ln.task.Busy? && ln.task.i == ln.task.n
    ensures var ch, n := Seen(ln, skip), ln.task.n;
            var after := ln.(back := SpscRing.Apply(ln.back, Commit(n)), task := Reported(n));
            && ch.work == Pipeline.Busy(n, ch.work.out) && |ch.work.out| == n <= |ch.inq|
            && LineOk(after, cap) && skip <= after.back.Filled()
            && Seen(after, skip) == Pipeline.Channel(ch.inq, Pipeline.Reported(n), ch.done + ch.work.out)
  {
    StepKeepsInv(ln.back, SpscRing.Commit(ln.task.n));
  }

  lemma ReleaseConsumes(ln: Line, cap: nat, skip: nat)
    requires LineOk(ln, cap) && skip <= ln.back.Filled() && ln.task.Reported?
    ensures var ch, n := Seen(ln, skip), ln.task.n;
            var after := ln.(inq := SpscRing.Apply(ln.inq, Consume(n)), task := Idle);
            && n <= |ch.inq| && LineOk(after, cap) && Seen(after, skip) == Pipeline.Channel(ch.inq[n..], Pipeline.Idle, ch.done)
  {
    StepKeepsInv(ln.inq, SpscRing.Consume(ln.task.n));
  }

  // ----- What an access does to the whole -----

  ghost predicate SameShape(f: Fine, g: Fine) {
    |g.rx.dispatched| == |f.rx.dispatched| && |g.rx.out| == |f.rx.out| && g.rx.channels == []
  }

  /** Only channel `c` changed. */
  lemma OneLine(l: Lane, cfg: Pipeline.Config, f: Fine, g: Fine, c: nat)
    requires Inv(l, cfg, f) && c < |f.lines| && SameShape(f, g)
    requires |g.lines| == |f.lines| && g.lines == f.lines[c := g.lines[c]] && LineOk(g.lines[c], cfg.Capacity(c)) && ReaderOk(l, cfg, g)
    requires forall k: nat | k < |f.lines| && k != c :: Skip(g.reader, k) == Skip(f.reader, k)
    ensures Inv(l, cfg, g) && Skip(g.reader, c) <= g.lines[c].back.Filled() && Skip(f.reader, c) <= f.lines[c].back.Filled()
    ensures Channels(l, cfg, f)[c] == Seen(f.lines[c], Skip(f.reader, c))
    ensures Channels(l, cfg, g) == Channels(l, cfg, f)[c := Seen(g.lines[c], Skip(g.reader, c))]
  {
    hide LineOk, ReaderOk, Seen;
    forall k | 0 <= k < |g.lines| ensures LineOk(g.lines[k], cfg.Capacity(k)) {}
    SkipFits(l, cfg, f, c);
    SkipFits(l, cfg, g, c);
    forall k: nat | k < |f.lines|
      ensures Channels(l, cfg, g)[k] == Channels(l, cfg, f)[c := Seen(g.lines[c], Skip(g.reader, c))][k]
    {
      SkipFits(l, cfg, f, k);
    }
  }

  /** What the other side does to a ring leaves the reader what it was promised. */
  lemma ReaderStays(l: Lane, cfg: Pipeline.Config, f: Fine, g: Fine, c: nat)
    requires Inv(l, cfg, f) && c < |f.lines| && SameShape(f, g) && g.reader == f.reader
    requires g.rx.got == f.rx.got && g.rx.dispatched == f.rx.dispatched
    requires |g.lines| == |f.lines| && g.lines == f.lines[c := g.lines[c]]
    requires g.lines[c].inq.slots == f.lines[c].inq.slots && g.lines[c].inq.produced == f.lines[c].inq.produced
    requires g.lines[c].inq.headCache == f.lines[c].inq.headCache && g.lines[c].back.Filled() == f.lines[c].back.Filled()
    ensures ReaderOk(l, cfg, g)
  {
    hide LineOk;
  }

  ghost predicate Stutters(l: Lane, cfg: Pipeline.Config, f: Fine, g: Fine)
    requires Inv(l, cfg, f)
  {
    Inv(l, cfg, g) && Abs(l, cfg, g) == Abs(l, cfg, f)
  }

  ghost predicate Steps(l: Lane, cfg: Pipeline.Config, f: Fine, step: Pipeline.Step, g: Fine)
    requires Inv(l, cfg, f)
  {
    Inv(l, cfg, g) && Pipeline.Enabled(l, cfg, Abs(l, cfg, f), step) && Abs(l, cfg, g) == Pipeline.Apply(l, cfg, Abs(l, cfg, f), step)
  }

  /** A change to one channel that its queues do not show. */
  lemma Unseen(l: Lane, cfg: Pipeline.Config, f: Fine, g: Fine, c: nat)
    requires Inv(l, cfg, f) && Inv(l, cfg, g) && c < |f.lines| == |g.lines|
    requires g.rx == f.rx && f.reader.Sent? == g.reader.Sent? && (f.reader.Sent? ==> g.reader == f.reader)
    requires Channels(l, cfg, g) == Channels(l, cfg, f)[c := Channels(l, cfg, f)[c]]
    ensures Stutters(l, cfg, f, g)
  {
    hide Inv, Channels;
  }

  lemma RoomRefines(l: Lane, cfg: Pipeline.Config, f: Fine, c: nat)
    requires Enabled(l, cfg, f, Room(c))
    ensures Stutters(l, cfg, f, Next(l, cfg, f, Room(c)))
  {
    LineAt(l, cfg, f, c);
    SkipFits(l, cfg, f, c);
    var g := Next(l, cfg, f, Room(c));
    hide Inv, LineOk, Seen, Channels, SpscRing.Apply, Stutters;
    LineFacts(f.lines[c], cfg.Capacity(c));
    PacketSideKeeps(f.lines[c], cfg.Capacity(c), Skip(f.reader, c), SpscRing.Writable);
    FineShape(l, cfg, f);
    OneLine(l, cfg, f, g, c);
    Unseen(l, cfg, f, g, c);
  }

  lemma LineFacts(ln: Line, cap: nat)
    requires LineOk(ln, cap)
    ensures ln.inq.Inv() && ln.back.Inv() && ln.inq.Cap() == ln.back.Cap() == cap >= 1 && TaskOk(ln)
  {}

  lemma FineShape(l: Lane, cfg: Pipeline.Config, f: Fine)
    requires Inv(l, cfg, f)
    ensures cfg.writers >= 1 && l.window >= 1 && |f.lines| == cfg.writers + 1 && f.rx.channels == []
    ensures |f.rx.dispatched| == l.window && |f.rx.out| == |l.data| && ReaderOk(l, cfg, f)
  {}

  lemma StageRefines(l: Lane, cfg: Pipeline.Config, f: Fine, p: Packet)
    requires Enabled(l, cfg, f, Stage(p))
    ensures Stutters(l, cfg, f, Next(l, cfg, f, Stage(p)))
  {
    var c := cfg.Route(p.dg);
    LineAt(l, cfg, f, c);
    SkipFits(l, cfg, f, c);
    var g := Next(l, cfg, f, Stage(p));
    hide Inv, LineOk, Seen, Channels, Stutters;
    LineFacts(f.lines[c], cfg.Capacity(c));
    FineShape(l, cfg, f);
    FillTouchesOne(f.lines[c].inq, 0, p, f.lines[c].inq.Tail());
    PacketSideKeeps(f.lines[c], cfg.Capacity(c), Skip(f.reader, c), SpscRing.Fill(0, p));
    hide SpscRing.Apply;
    FillKeeps(f.lines[c].inq, 0, p);
    OneLine(l, cfg, f, g, c);
    Unseen(l, cfg, f, g, c);
  }

  lemma FillKeeps(r: Ring<Packet>, i: nat, p: Packet)
    requires r.Inv() && i < r.Free()
    ensures var after := SpscRing.Apply(r, Fill(i, p)); after.produced == r.produced && after.headCache == r.headCache && after.Cap() == r.Cap()
  {}

  lemma PublishRefines(l: Lane, cfg: Pipeline.Config, f: Fine)
    requires Enabled(l, cfg, f, Publish)
    ensures Steps(l, cfg, f, Pipeline.Dispatch(f.reader.p), Next(l, cfg, f, Publish))
  {
    var p := f.reader.p;
    var c := cfg.Route(p.dg);
    LineAt(l, cfg, f, c);
    SkipFits(l, cfg, f, c);
    var g := Next(l, cfg, f, Publish);
    hide Inv, LineOk, Channels;
    LineFacts(f.lines[c], cfg.Capacity(c));
    FineShape(l, cfg, f);
    PublishAppends(f.lines[c], cfg.Capacity(c), Skip(f.reader, c), p);
    hide SpscRing.Apply, Work;
    OneLine(l, cfg, f, g, c);
  }

  lemma NoteRefines(l: Lane, cfg: Pipeline.Config, f: Fine)
    requires Enabled(l, cfg, f, Note)
    ensures Stutters(l, cfg, f, Next(l, cfg, f, Note))
  {
    LineAt(l, cfg, f, 0);
    var g := Next(l, cfg, f, Note);
    FineShape(l, cfg, f);
    hide Inv, LineOk, Seen, Channels;
    OneLine(l, cfg, f, g, 0);
  }

  lemma LookRefines(l: Lane, cfg: Pipeline.Config, f: Fine, c: nat)
    requires Enabled(l, cfg, f, Look(c))
    ensures Stutters(l, cfg, f, Next(l, cfg, f, Look(c)))
  {
    LineAt(l, cfg, f, c);
    var g := Next(l, cfg, f, Look(c));
    hide Inv, LineOk, Seen, Channels, Stutters, SpscRing.Apply;
    LineFacts(f.lines[c], cfg.Capacity(c));
    FineShape(l, cfg, f);
    BackSideKeeps(f.lines[c], cfg.Capacity(c), 0, SpscRing.Readable);
    OneLine(l, cfg, f, g, c);
    Unseen(l, cfg, f, g, c);
  }

  lemma GatherRefines(l: Lane, cfg: Pipeline.Config, f: Fine)
    requires Enabled(l, cfg, f, Gather)
    ensures Steps(l, cfg, f, Pipeline.Drain(f.reader.c), Next(l, cfg, f, Gather))
  {
    var c := f.reader.c;
    LineAt(l, cfg, f, c);
    SkipFits(l, cfg, f, c);
    var g := Next(l, cfg, f, Gather);
    FineShape(l, cfg, f);
    var v := f.lines[c].back.At(f.lines[c].back.head + f.reader.j);
    CreditShape(l, f.rx, v);
    hide Inv, LineOk, Channels, Seen, Pipeline.Credit;
    LineFacts(f.lines[c], cfg.Capacity(c));
    GatherSkips(f.lines[c], cfg.Capacity(c), f.reader.j);
    OneLine(l, cfg, f, g, c);
    CreditIgnores(l, f.rx, Channels(l, cfg, g), v);
  }

  /** The next verdict is the front of what is left, and then it is gone from there. */
  lemma GatherSkips(ln: Line, cap: nat, j: nat)
    requires LineOk(ln, cap) && j < ln.back.Filled()
    ensures var ch := Seen(ln, j);
            ch.done != [] && ch.done[0] == ln.back.At(ln.back.head + j) && Seen(ln, j + 1) == ch.(done := ch.done[1..])
  {
    assert ln.back.At(ln.back.head + j) == ln.back.produced[ln.back.head + j];
    hide Work;
  }

  lemma CreditIgnores(l: Lane, rx: Pipe, channels: seq<Pipeline.Channel>, v: Completion)
    requires |rx.dispatched| == l.window >= 1
    ensures Pipeline.Credit(l, rx.(channels := channels), v) == Pipeline.Credit(l, rx, v).(channels := channels)
  {}

  lemma CreditShape(l: Lane, rx: Pipe, v: Completion)
    requires |rx.dispatched| == l.window >= 1
    ensures var after := Pipeline.Credit(l, rx, v);
            |after.dispatched| == |rx.dispatched| && after.out == rx.out && after.channels == rx.channels
  {}

  lemma ReturnRefines(l: Lane, cfg: Pipeline.Config, f: Fine)
    requires Enabled(l, cfg, f, Return)
    ensures Stutters(l, cfg, f, Next(l, cfg, f, Return))
  {
    var c := f.reader.c;
    LineAt(l, cfg, f, c);
    SkipFits(l, cfg, f, c);
    var g := Next(l, cfg, f, Return);
    hide Inv, LineOk, Seen, Channels, Stutters, SpscRing.Apply;
    LineFacts(f.lines[c], cfg.Capacity(c));
    FineShape(l, cfg, f);
    ReturnKeeps(f.lines[c], cfg.Capacity(c), f.reader.n);
    OneLine(l, cfg, f, g, c);
    Unseen(l, cfg, f, g, c);
  }

  lemma LoadTailRefines(l: Lane, cfg: Pipeline.Config, f: Fine, c: nat)
    requires Enabled(l, cfg, f, LoadTail(c))
    ensures Stutters(l, cfg, f, Next(l, cfg, f, LoadTail(c)))
  {
    LineAt(l, cfg, f, c);
    SkipFits(l, cfg, f, c);
    var g := Next(l, cfg, f, LoadTail(c));
    hide Inv, LineOk, Seen, Channels, Stutters;
    LineFacts(f.lines[c], cfg.Capacity(c));
    FineShape(l, cfg, f);
    PacketSideKeeps(f.lines[c], cfg.Capacity(c), Skip(f.reader, c), SpscRing.Readable);
    ReaderStays(l, cfg, f, g, c);
    OneLine(l, cfg, f, g, c);
    Unseen(l, cfg, f, g, c);
  }

  lemma LoadHeadRefines(l: Lane, cfg: Pipeline.Config, f: Fine, c: nat)
    requires Enabled(l, cfg, f, LoadHead(c))
    ensures Stutters(l, cfg, f, Next(l, cfg, f, LoadHead(c)))
  {
    LineAt(l, cfg, f, c);
    SkipFits(l, cfg, f, c);
    var g := Next(l, cfg, f, LoadHead(c));
    hide Inv, LineOk, Seen, Channels, Stutters;
    LineFacts(f.lines[c], cfg.Capacity(c));
    FineShape(l, cfg, f);
    BackSideKeeps(f.lines[c], cfg.Capacity(c), Skip(f.reader, c), SpscRing.Writable);
    ReaderStays(l, cfg, f, g, c);
    OneLine(l, cfg, f, g, c);
    Unseen(l, cfg, f, g, c);
  }

  lemma TakeRefines(l: Lane, cfg: Pipeline.Config, f: Fine, c: nat)
    requires Enabled(l, cfg, f, Take(c))
    ensures Steps(l, cfg, f, Pipeline.Take(c, Batch(f.lines[c])), Next(l, cfg, f, Take(c)))
  {
    LineAt(l, cfg, f, c);
    SkipFits(l, cfg, f, c);
    var g := Next(l, cfg, f, Take(c));
    hide Inv, LineOk, Channels;
    LineFacts(f.lines[c], cfg.Capacity(c));
    FineShape(l, cfg, f);
    TakeStarts(f.lines[c], cfg.Capacity(c), Skip(f.reader, c));
    ReaderStays(l, cfg, f, g, c);
    OneLine(l, cfg, f, g, c);
  }

  lemma WriteRefines(l: Lane, cfg: Pipeline.Config, f: Fine, c: nat, ok: bool, partial: nat)
    requires Enabled(l, cfg, f, Write(c, ok, partial))
    ensures Steps(l, cfg, f, Pipeline.Write(c, ok, partial), Next(l, cfg, f, Write(c, ok, partial)))
  {
    LineAt(l, cfg, f, c);
    SkipFits(l, cfg, f, c);
    var g := Next(l, cfg, f, Write(c, ok, partial));
    var ln := f.lines[c];
    hide Inv, LineOk, Channels, Seen, Pipeline.Judged;
    LineFacts(f.lines[c], cfg.Capacity(c));
    FineShape(l, cfg, f);
    WriteJudges(ln, cfg.Capacity(c), Skip(f.reader, c), Pipeline.Judged(f.rx.out, ln.inq.At(ln.inq.head + ln.task.i), ok));
    ReaderStays(l, cfg, f, g, c);
    OneLine(l, cfg, f, g, c);
  }

  lemma PutRefines(l: Lane, cfg: Pipeline.Config, f: Fine, c: nat)
    requires Enabled(l, cfg, f, Put(c))
    ensures Stutters(l, cfg, f, Next(l, cfg, f, Put(c)))
  {
    LineAt(l, cfg, f, c);
    SkipFits(l, cfg, f, c);
    var g := Next(l, cfg, f, Put(c));
    hide Inv, LineOk, Seen, Channels, Stutters;
    LineFacts(f.lines[c], cfg.Capacity(c));
    FineShape(l, cfg, f);
    PutKeeps(f.lines[c], cfg.Capacity(c), Skip(f.reader, c));
    ReaderStays(l, cfg, f, g, c);
    OneLine(l, cfg, f, g, c);
    Unseen(l, cfg, f, g, c);
  }

  lemma ReportRefines(l: Lane, cfg: Pipeline.Config, f: Fine, c: nat)
    requires Enabled(l, cfg, f, Report(c))
    ensures Steps(l, cfg, f, Pipeline.Commit(c), Next(l, cfg, f, Report(c)))
  {
    LineAt(l, cfg, f, c);
    SkipFits(l, cfg, f, c);
    var g := Next(l, cfg, f, Report(c));
    hide Inv, LineOk, Channels, Seen;
    LineFacts(f.lines[c], cfg.Capacity(c));
    FineShape(l, cfg, f);
    ReportCommits(f.lines[c], cfg.Capacity(c), Skip(f.reader, c));
    ReaderStays(l, cfg, f, g, c);
    OneLine(l, cfg, f, g, c);
  }

  lemma ReleaseRefines(l: Lane, cfg: Pipeline.Config, f: Fine, c: nat)
    requires Enabled(l, cfg, f, Release(c))
    ensures Steps(l, cfg, f, Pipeline.Release(c), Next(l, cfg, f, Release(c)))
  {
    LineAt(l, cfg, f, c);
    SkipFits(l, cfg, f, c);
    var g := Next(l, cfg, f, Release(c));
    hide Inv, LineOk, Channels;
    LineFacts(f.lines[c], cfg.Capacity(c));
    FineShape(l, cfg, f);
    ReleaseConsumes(f.lines[c], cfg.Capacity(c), Skip(f.reader, c));
    ReaderStays(l, cfg, f, g, c);
    OneLine(l, cfg, f, g, c);
  }

  /** Every access either completes one step of the pipeline or changes nothing the pipeline shows. */
  lemma AccessRefines(l: Lane, cfg: Pipeline.Config, f: Fine, a: Access)
    requires Enabled(l, cfg, f, a)
    ensures var step := Completes(l, cfg, f, a);
            if step.Some? then Steps(l, cfg, f, step.value, Next(l, cfg, f, a)) else Stutters(l, cfg, f, Next(l, cfg, f, a))
  {
    hide Next, Steps, Stutters;
    match a
    case Room(c) => RoomRefines(l, cfg, f, c);
    case Stage(p) => StageRefines(l, cfg, f, p);
    case Publish => PublishRefines(l, cfg, f);
    case Note => NoteRefines(l, cfg, f);
    case Look(c) => LookRefines(l, cfg, f, c);
    case Gather => GatherRefines(l, cfg, f);
    case Return => ReturnRefines(l, cfg, f);
    case LoadTail(c) => LoadTailRefines(l, cfg, f, c);
    case LoadHead(c) => LoadHeadRefines(l, cfg, f, c);
    case Take(c) => TakeRefines(l, cfg, f, c);
    case Write(c, ok, partial) => WriteRefines(l, cfg, f, c, ok, partial);
    case Put(c) => PutRefines(l, cfg, f, c);
    case Report(c) => ReportRefines(l, cfg, f, c);
    case Release(c) => ReleaseRefines(l, cfg, f, c);
  }

  // ----- Every run of a lane -----

  /** A lane whose receive pipeline runs over its rings. */
  datatype RingSystem = RingSystem(tx: Tx, rx: Fine, sent: set<Datagram>, acks: set<Control.Ack>)

  datatype Act = Other(a: Action) | Touch(access: Access)

  ghost predicate RingInv(l: Lane, cfg: Pipeline.Config, rs: RingSystem) {
    Inv(l, cfg, rs.rx) && (rs.rx.reader.Filled? && rs.rx.reader.p.authentic ==> rs.rx.reader.p.dg in rs.sent)
  }

  ghost function View(l: Lane, cfg: Pipeline.Config, rs: RingSystem): System
    requires Inv(l, cfg, rs.rx)
  {
    System(rs.tx, Abs(l, cfg, rs.rx), rs.sent, rs.acks)
  }

  ghost predicate CanAct(l: Lane, cfg: Pipeline.Config, rs: RingSystem, act: Act) {
    && Inv(l, cfg, rs.rx)
    && match act
       case Other(a) => !a.Receive? && LaneSystem.Enabled(l, cfg, View(l, cfg, rs), a)
       case Touch(a) => Enabled(l, cfg, rs.rx, a) && (a.Stage? && a.p.authentic ==> a.p.dg in rs.sent)
  }

  ghost function Acted(l: Lane, cfg: Pipeline.Config, rs: RingSystem, act: Act): RingSystem
    requires CanAct(l, cfg, rs, act)
  {
    match act
    case Other(a) =>
      var sys := LaneSystem.Next(l, cfg, View(l, cfg, rs), a);
      rs.(tx := sys.tx, sent := sys.sent, acks := sys.acks)
    case Touch(a) => rs.(rx := Next(l, cfg, rs.rx, a))
  }

  /** The lane's action that an act is, if it is one. */
  ghost function Shown(l: Lane, cfg: Pipeline.Config, rs: RingSystem, act: Act): seq<Action>
    requires CanAct(l, cfg, rs, act)
  {
    match act
    case Other(a) => [a]
    case Touch(a) =>
      var step := Completes(l, cfg, rs.rx, a);
      if step.Some? then [LaneSystem.Receive(step.value)] else []
  }

  ghost predicate Acts(l: Lane, cfg: Pipeline.Config, rs: RingSystem, run: seq<Act>, end: RingSystem)
    decreases |run|
  {
    if run == [] then rs == end else CanAct(l, cfg, rs, run[0]) && Acts(l, cfg, Acted(l, cfg, rs, run[0]), run[1..], end)
  }

  ghost function AllShown(l: Lane, cfg: Pipeline.Config, rs: RingSystem, run: seq<Act>): seq<Action>
    decreases |run|
  {
    if run == [] || !CanAct(l, cfg, rs, run[0]) then []
    else Shown(l, cfg, rs, run[0]) + AllShown(l, cfg, Acted(l, cfg, rs, run[0]), run[1..])
  }

  lemma OtherAct(l: Lane, cfg: Pipeline.Config, rs: RingSystem, a: Action)
    requires RingInv(l, cfg, rs) && CanAct(l, cfg, rs, Other(a))
    ensures var after := Acted(l, cfg, rs, Other(a));
            && RingInv(l, cfg, after)
            && Leads(l, cfg, View(l, cfg, rs), [a], View(l, cfg, after))
  {
    hide Inv, Abs;
    var sys := LaneSystem.Next(l, cfg, View(l, cfg, rs), a);
    assert rs.sent <= sys.sent && sys.rx == Abs(l, cfg, rs.rx);
    hide LaneSystem.Next, LaneSystem.Enabled;
    assert [a][1..] == [];
  }

  lemma TouchAct(l: Lane, cfg: Pipeline.Config, rs: RingSystem, a: Access)
    requires RingInv(l, cfg, rs) && CanAct(l, cfg, rs, Touch(a))
    ensures var after := Acted(l, cfg, rs, Touch(a));
            && RingInv(l, cfg, after)
            && Leads(l, cfg, View(l, cfg, rs), Shown(l, cfg, rs, Touch(a)), View(l, cfg, after))
  {
    AccessRefines(l, cfg, rs.rx, a);
    FilledBy(l, cfg, rs.rx, a);
    var g := Next(l, cfg, rs.rx, a);
    var step := Completes(l, cfg, rs.rx, a);
    assert step.Some? && step.value.Dispatch? ==> step.value.p == rs.rx.reader.p && rs.rx.reader.Filled?;
    hide Inv, Abs, Next, Enabled, Completes, Pipeline.Enabled, Pipeline.Apply;
    if step.Some? {
      assert [LaneSystem.Receive(step.value)][1..] == [];
    }
  }

  lemma FilledBy(l: Lane, cfg: Pipeline.Config, f: Fine, a: Access)
    requires Enabled(l, cfg, f, a)
    ensures var g := Next(l, cfg, f, a); g.reader.Filled? ==> g.reader == f.reader || (a.Stage? && g.reader.p == a.p)
  {
    hide SpscRing.Apply, LineOk, Pipeline.Credit;
  }

  /** Every run over the rings is a run of the lane, step for step, with the same window and the same bytes. */
  lemma {:induction false} RingRunRefines(l: Lane, cfg: Pipeline.Config, rs: RingSystem, run: seq<Act>, end: RingSystem)
    requires RingInv(l, cfg, rs) && Acts(l, cfg, rs, run, end)
    ensures RingInv(l, cfg, end)
    ensures Leads(l, cfg, View(l, cfg, rs), AllShown(l, cfg, rs, run), View(l, cfg, end))
    decreases |run|
  {
    assert Inv(l, cfg, rs.rx);
    if run != [] {
      match run[0] {
        case Other(a) => OtherAct(l, cfg, rs, a);
        case Touch(a) => TouchAct(l, cfg, rs, a);
      }
      var mid := Acted(l, cfg, rs, run[0]);
      assert Inv(l, cfg, mid.rx);
      hide Inv, RingInv, CanAct, Acted, Shown, View, Leads;
      RingRunRefines(l, cfg, mid, run[1..], end);
      EndInv(l, cfg, end);
      Lanes.LeadsJoin(l, cfg, View(l, cfg, rs), Shown(l, cfg, rs, run[0]), View(l, cfg, mid), AllShown(l, cfg, mid, run[1..]), View(l, cfg, end));
    }
  }

  lemma EndInv(l: Lane, cfg: Pipeline.Config, rs: RingSystem)
    requires RingInv(l, cfg, rs)
    ensures Inv(l, cfg, rs.rx)
  {}

  /** Empty rings, of the capacities the pipeline was given; what is in their slots does not matter. */
  ghost predicate Empty(cfg: Pipeline.Config, lines: seq<Line>) {
    && |lines| == cfg.writers + 1
    && forall c | 0 <= c < |lines| ::
         lines[c] == Line(Fresh(lines[c].inq.slots), Fresh(lines[c].back.slots), Idle)
         && |lines[c].inq.slots| == |lines[c].back.slots| == cfg.Capacity(c) >= 1
  }

  function Begin(l: Lane, cfg: Pipeline.Config, before: seq<byte>, lines: seq<Line>): RingSystem {
    RingSystem(LaneSender.Idle(l), Fine(Pipeline.Fresh(l, cfg, before).(channels := []), lines, Ready), {}, {})
  }

  lemma BeginIsInitial(l: Lane, cfg: Pipeline.Config, before: seq<byte>, lines: seq<Line>)
    requires l.Ok() && cfg.Ok() && |before| == |l.data| && Empty(cfg, lines)
    ensures RingInv(l, cfg, Begin(l, cfg, before, lines))
    ensures View(l, cfg, Begin(l, cfg, before, lines)) == Initial(l, cfg, before)
  {
    var rs := Begin(l, cfg, before, lines);
    forall c: nat | c < |lines| ensures LineOk(lines[c], cfg.Capacity(c)) && Seen(lines[c], 0) == Pipeline.Channel([], Pipeline.Idle, []) {}
    hide LineOk, Seen;
    assert Channels(l, cfg, rs.rx) == Pipeline.Fresh(l, cfg, before).channels;
  }

  /**
   So a lane over rings, from its start, is a lane: no wedge, nothing written twice, delivery at
   either end and all else that is proved of `Reaches` is true of it, of its own window and output.
   */
  lemma RingRunIsLaneRun(l: Lane, cfg: Pipeline.Config, before: seq<byte>, lines: seq<Line>, run: seq<Act>, end: RingSystem)
    requires l.Ok() && cfg.Ok() && |before| == |l.data| && Empty(cfg, lines)
    requires Acts(l, cfg, Begin(l, cfg, before, lines), run, end)
    ensures RingInv(l, cfg, end)
    ensures LaneSystem.Reaches(l, cfg, before, AllShown(l, cfg, Begin(l, cfg, before, lines), run), View(l, cfg, end))
    ensures View(l, cfg, end).rx.got == end.rx.rx.got && View(l, cfg, end).rx.out == end.rx.rx.out && View(l, cfg, end).tx == end.tx
  {
    BeginIsInitial(l, cfg, before, lines);
    RingRunRefines(l, cfg, Begin(l, cfg, before, lines), run, end);
    hide RingInv, Acts, Leads, Empty;
    EndInv(l, cfg, end);
  }
}
