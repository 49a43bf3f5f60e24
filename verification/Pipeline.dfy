/**
 The receive pipeline of one lane (transfer.cpp): the reader hands blocks to K writers
 and the retransmission thread through rings, they authenticate and write, and only on
 their verdict does the reader move its window. Rings are queues here and a step may join
 several accesses of one thread; `RingPipeline` has the rings and single accesses, and every
 run of it is a run of this.
 */
module Pipeline {
  import opened Word64
  import opened ReceiverWindow
  import opened Basics
  import opened Tiling
  import opened LaneSender
  import Modular

  const WRITE_BATCH: nat := 64
  const ROUTE_RUN: nat := 64

  datatype Datagram = Datagram(s: nat, offset: nat, payload: seq<byte>, last: bool, retransmission: bool)

  /** A datagram on its way to a consumer; one that was forged fails authentication there. */
  datatype Packet = Packet(dg: Datagram, authentic: bool)

  datatype WriteResult = Written | AuthFailed | IoFailed

  datatype Completion = Completion(s: nat, bytes: nat, last: bool, result: WriteResult)

  /** A consumer between batches, inside one, or between its `commit` and its `consume`. */
  datatype Work = Idle | Busy(n: nat, out: seq<Completion>) | Reported(n: nat)

  datatype Channel = Channel(inq: seq<Packet>, work: Work, done: seq<Completion>)
  {
    /** How many packets at the front already have their verdict in `done`. */
    function Spent(): nat { if work.Reported? then work.n else 0 }

    /** How many packets at the front have been processed. */
    function Processed(): nat {
      match work case Idle => 0 case Busy(_, out) => |out| case Reported(n) => n
    }

    /** The numbers in flight here: packets without a reported verdict, and verdicts not collected. */
    ghost function Flight(): multiset<nat>
      requires Spent() <= |inq|
    {
      multiset(PacketNumbers(inq[Spent()..])) + multiset(VerdictNumbers(done))
    }

    function Load(): int { |inq| - Spent() + |done| }
  }

  ghost function PacketNumbers(q: seq<Packet>): (r: seq<nat>)
    ensures |r| == |q| && forall i | 0 <= i < |q| :: r[i] == q[i].dg.s
  {
    seq(|q|, i requires 0 <= i < |q| => q[i].dg.s)
  }

  ghost function VerdictNumbers(q: seq<Completion>): (r: seq<nat>)
    ensures |r| == |q| && forall i | 0 <= i < |q| :: r[i] == q[i].s
  {
    seq(|q|, i requires 0 <= i < |q| => q[i].s)
  }

  /** Lane parameters of the pipeline: number of writers and the ring capacities. */
  datatype Config = Config(writers: nat, slots: nat, rtxSlots: nat)
  {
    ghost predicate Ok() { writers >= 1 }

    function Route(dg: Datagram): nat
      requires writers >= 1
    {
      if dg.retransmission then writers else dg.s / ROUTE_RUN % writers
    }

    function Capacity(c: nat): nat { if c == writers then rtxSlots else slots }
  }

  /**
   `dispatched[s % window] == Some(s)` while block `s` is with a consumer. `owner` and
   `wrote` only record history: which channel has a block, and which blocks have been
   written successfully.
   */
  datatype Pipe = Pipe(
    got: set<nat>, dispatched: seq<Option<nat>>, pending: int, written: nat, final: Option<nat>,
    channels: seq<Channel>, out: seq<byte>, owner: map<nat, nat>, wrote: set<nat>)
  {
    function Base(): nat { Mex(got) }
  }

  datatype Step =
    | Dispatch(p: Packet)                            // reader
    | Take(c: nat, n: nat)                           // consumer c: how much of its ring to process
    | Write(c: nat, ok: bool, partial: nat)          // consumer c: next block of the batch
    | Commit(c: nat)                                 // consumer c: verdicts to the reader
    | Release(c: nat)                                // consumer c: packet slots back to the reader
    | Drain(c: nat)                                  // reader: one verdict

  // ----- The steps -----

  /** `data` laid over `out` from `off` on. */
  function Overwrite(out: seq<byte>, off: nat, data: seq<byte>): (r: seq<byte>)
    requires off + |data| <= |out|
    ensures |r| == |out|
    ensures forall o | 0 <= o < |out| :: r[o] == if off <= o < off + |data| then data[o - off] else out[o]
  {
    out[..off] + data + out[off + |data|..]
  }

  predicate Fits(out: seq<byte>, dg: Datagram) {
    |dg.payload| > 0 && dg.offset <= |out| && |dg.payload| <= |out| - dg.offset
  }

  /** The reader's filter: new, inside the window, not already with a consumer, and room in its ring. */
  predicate Admissible(l: Lane, cfg: Config, rx: Pipe, p: Packet)
    requires cfg.writers >= 1 && |rx.dispatched| == l.window >= 1 && |rx.channels| == cfg.writers + 1
  {
    && rx.Base() <= p.dg.s < rx.Base() + l.window && p.dg.s !in rx.got
    && rx.dispatched[p.dg.s % l.window] != Some(p.dg.s)
    && |rx.channels[cfg.Route(p.dg)].inq| < cfg.Capacity(cfg.Route(p.dg))
  }

  ghost predicate Shaped(l: Lane, cfg: Config, rx: Pipe) {
    && cfg.writers >= 1 && l.window >= 1
    && |rx.dispatched| == l.window && |rx.channels| == cfg.writers + 1 && |rx.out| == |l.data|
  }

  ghost predicate Enabled(l: Lane, cfg: Config, rx: Pipe, step: Step) {
    && Shaped(l, cfg, rx)
    && match step
       case Dispatch(p) => Admissible(l, cfg, rx, p)
       case Take(c, n) =>
         && c < |rx.channels| && rx.channels[c].work == Idle
         && 1 <= n <= WRITE_BATCH && n <= |rx.channels[c].inq|
         && n + |rx.channels[c].done| <= cfg.Capacity(c)
       case Write(c, _, partial) =>
         && c < |rx.channels| && rx.channels[c].work.Busy?
         && |rx.channels[c].work.out| < rx.channels[c].work.n <= |rx.channels[c].inq|
         && partial <= |rx.channels[c].inq[|rx.channels[c].work.out|].dg.payload|
       case Commit(c) =>
         && c < |rx.channels| && rx.channels[c].work.Busy?
         && |rx.channels[c].work.out| == rx.channels[c].work.n <= |rx.channels[c].inq|
       case Release(c) =>
         c < |rx.channels| && rx.channels[c].work.Reported? && rx.channels[c].work.n <= |rx.channels[c].inq|
       case Drain(c) => c < |rx.channels| && rx.channels[c].done != []
  }

  function SetChannel(rx: Pipe, c: nat, ch: Channel): Pipe
    requires c < |rx.channels|
  {
    rx.(channels := rx.channels[c := ch])
  }

  /** The verdict on one block, and what the write leaves in the output. */
  function Judged(out: seq<byte>, p: Packet, ok: bool): Completion {
    var fits := Fits(out, p.dg);
    Completion(p.dg.s, if p.authentic && fits && ok then |p.dg.payload| else 0, p.dg.last,
               if !p.authentic then AuthFailed else if fits && !ok then IoFailed else Written)
  }

  function WriteOut(out: seq<byte>, p: Packet, ok: bool, partial: nat): (r: seq<byte>)
    requires partial <= |p.dg.payload|
  {
    if !p.authentic || !Fits(out, p.dg) then out
    else Overwrite(out, p.dg.offset, if ok then p.dg.payload else p.dg.payload[..partial])
  }

  /** `drain_results` on one verdict: only a written block enters the window. */
  function Credit(l: Lane, rx: Pipe, v: Completion): Pipe
    requires |rx.dispatched| == l.window >= 1
  {
    var i := v.s % l.window;
    var rx1 := rx.(
      pending := rx.pending - 1,
      dispatched := if rx.dispatched[i] == Some(v.s) then rx.dispatched[i := None] else rx.dispatched,
      owner := rx.owner - {v.s});
    if v.result != Written then rx1
    else
      var rx2 := if v.last then rx1.(final := Some(v.s)) else rx1;
      if v.s in rx.got || v.s >= rx.Base() + l.window then rx2
      else rx2.(got := rx.got + {v.s}, written := rx.written + v.bytes)
  }

  function Collect(l: Lane, rx: Pipe, c: nat): Pipe
    requires c < |rx.channels| && rx.channels[c].done != [] && |rx.dispatched| == l.window >= 1
  {
    var ch := rx.channels[c];
    Credit(l, SetChannel(rx, c, ch.(done := ch.done[1..])), ch.done[0])
  }

  ghost function Apply(l: Lane, cfg: Config, rx: Pipe, step: Step): Pipe
    requires Enabled(l, cfg, rx, step)
  {
    match step
    case Dispatch(p) =>
      var c := cfg.Route(p.dg);
      SetChannel(rx, c, rx.channels[c].(inq := rx.channels[c].inq + [p])).(
        dispatched := rx.dispatched[p.dg.s % l.window := Some(p.dg.s)],
        pending := rx.pending + 1, owner := rx.owner[p.dg.s := c])
    case Take(c, n) => SetChannel(rx, c, rx.channels[c].(work := Busy(n, [])))
    case Write(c, ok, partial) =>
      var ch := rx.channels[c];
      var p := ch.inq[|ch.work.out|];
      var v := Judged(rx.out, p, ok);
      SetChannel(rx, c, ch.(work := Busy(ch.work.n, ch.work.out + [v]))).(
        out := WriteOut(rx.out, p, ok, partial),
        wrote := if v.result == Written then rx.wrote + {v.s} else rx.wrote)
    case Commit(c) =>
      var ch := rx.channels[c];
      SetChannel(rx, c, Channel(ch.inq, Reported(ch.work.n), ch.done + ch.work.out))
    case Release(c) =>
      var ch := rx.channels[c];
      SetChannel(rx, c, Channel(ch.inq[ch.work.n..], Idle, ch.done))
    case Drain(c) => Collect(l, rx, c)
  }

  /**
   Routing keeps a run of 64 consecutive new blocks together, so that one writer can write it in one
   piece, moves on to the next writer with the next run, and sends resends to the thread of their own.
   */
  lemma RunsStayTogether(cfg: Config, a: Datagram, b: Datagram)
    requires cfg.writers >= 1
    ensures a.retransmission ==> cfg.Route(a) == cfg.writers
    ensures !a.retransmission ==> cfg.Route(a) < cfg.writers
    ensures !a.retransmission && !b.retransmission && a.s / ROUTE_RUN == b.s / ROUTE_RUN ==> cfg.Route(a) == cfg.Route(b)
    ensures !a.retransmission && !b.retransmission && b.s == a.s + ROUTE_RUN ==> cfg.Route(b) == (cfg.Route(a) + 1) % cfg.writers
  {
    var k := a.s / ROUTE_RUN;
    if b.s == a.s + ROUTE_RUN { NextWriter(k, cfg.writers); }
  }

  lemma NextWriter(k: nat, n: nat)
    requires n >= 1
    ensures (k + 1) % n == (k % n + 1) % n
  {
    var q, r := k / n, k % n;
    assert k == q * n + r;
    Modular.DivModUnique(n, n, 1, 0);
    if r + 1 == n {
      assert (q + 1) * n == q * n + n;
      Modular.DivModUnique(k + 1, n, q + 1, 0);
    } else {
      Modular.DivModUnique(k + 1, n, q, r + 1);
      Modular.DivModUnique(r + 1, n, 0, r + 1);
    }
  }

  // ----- What every step keeps -----

  /** `dg` is block `s` of the lane, as first sent. */
  ghost predicate Genuine(l: Lane, h: seq<Tile>, dg: Datagram) {
    && dg.s < |h| && l.Inside(h[dg.s])
    && dg.offset == h[dg.s].offset && dg.payload == l.Payload(h[dg.s]) && dg.last == h[dg.s].last
  }

  /** A verdict is `Written` exactly for a block that has been written, and then tells its true length. */
  ghost predicate VerdictOk(h: seq<Tile>, wrote: set<nat>, v: Completion) {
    && (v.result == Written <==> v.s in wrote)
    && (v.result == Written ==> v.s < |h| && v.bytes == h[v.s].length && v.last == h[v.s].last)
  }

  /** Packets not processed yet are not written yet; verdicts tell the truth. */
  ghost predicate ChannelOk(l: Lane, h: seq<Tile>, wrote: set<nat>, ch: Channel) {
    && (forall i | 0 <= i < |ch.inq| :: ch.inq[i].authentic ==> Genuine(l, h, ch.inq[i].dg))
    && ch.Processed() <= |ch.inq|
    && (forall i | ch.Processed() <= i < |ch.inq| :: ch.inq[i].dg.s !in wrote)
    && (forall i | 0 <= i < |ch.done| :: VerdictOk(h, wrote, ch.done[i]))
    && (ch.work.Busy? ==>
          && |ch.work.out| <= ch.work.n <= |ch.inq| && ch.work.n >= 1
          && forall i | 0 <= i < |ch.work.out| :: ch.work.out[i].s == ch.inq[i].dg.s && VerdictOk(h, wrote, ch.work.out[i]))
  }

  ghost predicate ChannelsOk(l: Lane, h: seq<Tile>, rx: Pipe) {
    forall c | 0 <= c < |rx.channels| :: ChannelOk(l, h, rx.wrote, rx.channels[c])
  }

  /** Channel `c` holds each block it owns exactly once, and no other. */
  ghost predicate Owns(ch: Channel, c: nat, owner: map<nat, nat>) {
    && ch.Spent() <= |ch.inq|
    && forall s: nat :: ch.Flight()[s] == if s in owner && owner[s] == c then 1 else 0
  }

  ghost predicate OwnersOk(rx: Pipe) {
    && (forall c | 0 <= c < |rx.channels| :: Owns(rx.channels[c], c, rx.owner))
    && (forall s <- rx.owner.Keys :: rx.owner[s] < |rx.channels|)
  }

  /** The marks are exactly the blocks in flight, which all lie in the window and are missing from it. */
  ghost predicate MarksOk(l: Lane, rx: Pipe) {
    && |rx.dispatched| == l.window >= 1
    && (forall s <- rx.owner.Keys ::
          rx.Base() <= s < rx.Base() + l.window && s !in rx.got && rx.dispatched[s % l.window] == Some(s))
    && (forall i | 0 <= i < l.window :: rx.dispatched[i].Some? ==>
          rx.dispatched[i].value in rx.owner && rx.dispatched[i].value % l.window == i)
  }

  /** Everything in the window is written, and everything written holds the source's bytes. */
  ghost predicate WroteOk(l: Lane, h: seq<Tile>, rx: Pipe) {
    && rx.got <= rx.wrote <= rx.got + rx.owner.Keys
    && (forall s <- rx.wrote :: s < |h|)
    && |rx.out| == |l.data|
    && (forall s | 0 <= s < |h| :: l.Inside(h[s]))
    && (forall s <- rx.wrote :: s < |h| ==> Landed(l, h[s], rx.out))
  }

  ghost predicate Landed(l: Lane, t: Tile, out: seq<byte>)
  {
    forall o: nat | t.Covers(o) && o < |out| && o < |l.data| :: out[o] == l.data[o]
  }

  function TotalLoad(channels: seq<Channel>): int {
    if channels == [] then 0 else channels[0].Load() + TotalLoad(channels[1..])
  }

  /** Bytes of the blocks below `n` that are in the window's record. */
  function GotBytes(h: seq<Tile>, got: set<nat>, n: nat): nat
    requires n <= |h|
  {
    if n == 0 then 0 else GotBytes(h, got, n - 1) + (if n - 1 in got then h[n - 1].length else 0)
  }

  ghost predicate CountsOk(h: seq<Tile>, rx: Pipe) {
    && rx.pending == TotalLoad(rx.channels)
    && rx.written == GotBytes(h, rx.got, |h|)
    && (rx.final.Some? ==> rx.final.value < |h| && h[rx.final.value].last)
    && (forall s <- rx.got :: s < |h| && h[s].last ==> rx.final.Some?)
  }

  ghost predicate Inv(l: Lane, cfg: Config, h: seq<Tile>, rx: Pipe) {
    && Shaped(l, cfg, rx)
    && ChannelsOk(l, h, rx) && OwnersOk(rx) && MarksOk(l, rx) && WroteOk(l, h, rx) && CountsOk(h, rx)
  }

  // ----- Small facts -----

  lemma {:induction false} LoadUpdate(channels: seq<Channel>, c: nat, ch: Channel)
    requires c < |channels|
    ensures TotalLoad(channels[c := ch]) == TotalLoad(channels) - channels[c].Load() + ch.Load()
  {
    if c == 0 {
      assert channels[0 := ch][1..] == channels[1..];
    } else {
      assert channels[c := ch][1..] == channels[1..][c - 1 := ch];
      LoadUpdate(channels[1..], c - 1, ch);
    }
  }

  lemma {:induction false} GotBytesAdd(h: seq<Tile>, got: set<nat>, s: nat, n: nat)
    requires s < n <= |h| && s !in got
    ensures GotBytes(h, got + {s}, n) == GotBytes(h, got, n) + h[s].length
  {
    if s < n - 1 { GotBytesAdd(h, got, s, n - 1); } else { GotBytesSame(h, got, got + {s}, n - 1); }
  }

  lemma {:induction false} GotBytesSame(h: seq<Tile>, a: set<nat>, b: set<nat>, n: nat)
    requires n <= |h| && forall s: nat | s < n :: s in a <==> s in b
    ensures GotBytes(h, a, n) == GotBytes(h, b, n)
  {
    if n > 0 { GotBytesSame(h, a, b, n - 1); }
  }

  lemma QueuedIsOwned(ch: Channel, c: nat, owner: map<nat, nat>, i: nat)
    requires Owns(ch, c, owner) && ch.Spent() <= i < |ch.inq|
    ensures ch.inq[i].dg.s in owner && owner[ch.inq[i].dg.s] == c
  {
    var q := PacketNumbers(ch.inq[ch.Spent()..]);
    assert q[i - ch.Spent()] == ch.inq[i].dg.s;
    assert ch.inq[i].dg.s in multiset(q);
  }

  lemma VerdictIsOwned(ch: Channel, c: nat, owner: map<nat, nat>, i: nat)
    requires Owns(ch, c, owner) && i < |ch.done|
    ensures ch.done[i].s in owner && owner[ch.done[i].s] == c
  {
    assert VerdictNumbers(ch.done)[i] in multiset(VerdictNumbers(ch.done));
  }

  lemma TwiceCounts(q: seq<nat>, i: nat, j: nat)
    requires i < j < |q| && q[i] == q[j]
    ensures multiset(q)[q[i]] >= 2
  {
    assert q == q[..j] + q[j..];
    assert q[..j][i] in multiset(q[..j]);
    assert q[j..][0] in multiset(q[j..]);
  }

  /** No number is queued twice, nor queued and judged, in one channel. */
  lemma QueuedOnce(ch: Channel, c: nat, owner: map<nat, nat>, i: nat, j: nat)
    requires Owns(ch, c, owner) && ch.Spent() <= i < j < |ch.inq|
    ensures ch.inq[i].dg.s != ch.inq[j].dg.s
  {
    var q := PacketNumbers(ch.inq[ch.Spent()..]);
    var s := ch.inq[i].dg.s;
    assert multiset(q)[s] <= ch.Flight()[s] <= 1;
    if s == ch.inq[j].dg.s { TwiceCounts(q, i - ch.Spent(), j - ch.Spent()); }
  }

  lemma QueuedNotJudged(ch: Channel, c: nat, owner: map<nat, nat>, i: nat, j: nat)
    requires Owns(ch, c, owner) && ch.Spent() <= i < |ch.inq| && j < |ch.done|
    ensures ch.inq[i].dg.s != ch.done[j].s
  {
    var q := PacketNumbers(ch.inq[ch.Spent()..]);
    assert q[i - ch.Spent()] in multiset(q);
    assert VerdictNumbers(ch.done)[j] in multiset(VerdictNumbers(ch.done));
    var s := ch.done[j].s;
    assert ch.Flight()[s] == multiset(q)[s] + multiset(VerdictNumbers(ch.done))[s] <= 1;
  }

  lemma ChannelsUpdate(l: Lane, h: seq<Tile>, a: Pipe, b: Pipe, c: nat, ch: Channel)
    requires ChannelsOk(l, h, a) && c < |a.channels| && b.wrote == a.wrote && b.channels == a.channels[c := ch]
    requires ChannelOk(l, h, a.wrote, ch)
    ensures ChannelsOk(l, h, b)
  {}

  lemma WroteFrame(l: Lane, h: seq<Tile>, a: Pipe, b: Pipe)
    requires WroteOk(l, h, a) && b.got == a.got && b.wrote == a.wrote && b.out == a.out
    requires a.owner.Keys <= b.owner.Keys
    ensures WroteOk(l, h, b)
  {}

  lemma CountsFrame(h: seq<Tile>, a: Pipe, b: Pipe, c: nat, ch: Channel)
    requires CountsOk(h, a) && c < |a.channels| && b.channels == a.channels[c := ch]
    requires b.got == a.got && b.written == a.written && b.final == a.final
    requires b.pending == a.pending + ch.Load() - a.channels[c].Load()
    ensures CountsOk(h, b)
  {
    LoadUpdate(a.channels, c, ch);
  }

  // ----- Dispatch -----

  /** `dispatched[s % window]` never collides: an admissible block finds its mark clear. */
  lemma MarkIsClear(l: Lane, cfg: Config, rx: Pipe, p: Packet)
    requires Shaped(l, cfg, rx) && MarksOk(l, rx) && Admissible(l, cfg, rx, p)
    ensures rx.dispatched[p.dg.s % l.window] == None && p.dg.s !in rx.owner
  {
    var m := rx.dispatched[p.dg.s % l.window];
    if m.Some? {
      assert m.value in rx.owner.Keys;
      Modular.SameSlot(m.value, p.dg.s, l.window);
    }
  }

  lemma FlightPush(ch: Channel, p: Packet)
    requires ch.Spent() <= |ch.inq|
    ensures ch.(inq := ch.inq + [p]).Flight() == ch.Flight() + multiset{p.dg.s}
  {
    var k := ch.Spent();
    assert (ch.inq + [p])[k..] == ch.inq[k..] + [p];
    assert PacketNumbers(ch.inq[k..] + [p]) == PacketNumbers(ch.inq[k..]) + [p.dg.s];
  }

  lemma OwnsPush(ch: Channel, c: nat, owner: map<nat, nat>, p: Packet)
    requires Owns(ch, c, owner) && p.dg.s !in owner
    ensures Owns(ch.(inq := ch.inq + [p]), c, owner[p.dg.s := c])
  {
    FlightPush(ch, p);
    assert ch.Flight()[p.dg.s] == 0;
  }

  lemma OwnsElsewhere(ch: Channel, c: nat, owner: map<nat, nat>, s: nat, d: nat)
    requires Owns(ch, c, owner) && s !in owner && d != c
    ensures Owns(ch, c, owner[s := d])
  {}

  lemma DispatchKeepsOwners(l: Lane, cfg: Config, rx: Pipe, p: Packet)
    requires Shaped(l, cfg, rx) && OwnersOk(rx) && MarksOk(l, rx) && Admissible(l, cfg, rx, p)
    ensures OwnersOk(Apply(l, cfg, rx, Dispatch(p)))
  {
    MarkIsClear(l, cfg, rx, p);
    hide Owns, MarksOk, Admissible;
    var after := Apply(l, cfg, rx, Dispatch(p));
    forall c | 0 <= c < |after.channels| ensures Owns(after.channels[c], c, after.owner) {
      if c == cfg.Route(p.dg) {
        OwnsPush(rx.channels[c], c, rx.owner, p);
      } else {
        OwnsElsewhere(rx.channels[c], c, rx.owner, p.dg.s, cfg.Route(p.dg));
      }
    }
  }

  lemma DispatchKeepsMarks(l: Lane, cfg: Config, h: seq<Tile>, rx: Pipe, p: Packet)
    requires Inv(l, cfg, h, rx) && Admissible(l, cfg, rx, p)
    ensures MarksOk(l, Apply(l, cfg, rx, Dispatch(p)))
  {
    MarkIsClear(l, cfg, rx, p);
    var after := Apply(l, cfg, rx, Dispatch(p));
    forall s <- after.owner.Keys ensures after.dispatched[s % l.window] == Some(s) {
      if s != p.dg.s { assert s in rx.owner.Keys; }
    }
  }

  lemma ChannelPush(l: Lane, h: seq<Tile>, wrote: set<nat>, ch: Channel, p: Packet)
    requires ChannelOk(l, h, wrote, ch) && p.dg.s !in wrote && (p.authentic ==> Genuine(l, h, p.dg))
    ensures ChannelOk(l, h, wrote, ch.(inq := ch.inq + [p]))
  {}

  lemma DispatchKeepsInv(l: Lane, cfg: Config, h: seq<Tile>, rx: Pipe, p: Packet)
    requires Inv(l, cfg, h, rx) && Admissible(l, cfg, rx, p)
    requires p.authentic ==> Genuine(l, h, p.dg)
    ensures Inv(l, cfg, h, Apply(l, cfg, rx, Dispatch(p)))
  {
    DispatchKeepsOwners(l, cfg, rx, p);
    DispatchKeepsMarks(l, cfg, h, rx, p);
    MarkIsClear(l, cfg, rx, p);
    assert p.dg.s !in rx.wrote;
    hide OwnersOk, MarksOk, Genuine, ChannelOk, ChannelsOk, WroteOk, CountsOk;
    var after := Apply(l, cfg, rx, Dispatch(p));
    var c := cfg.Route(p.dg);
    ChannelAt(l, h, rx, c);
    ChannelPush(l, h, rx.wrote, rx.channels[c], p);
    ChannelsUpdate(l, h, rx, after, c, after.channels[c]);
    WroteFrame(l, h, rx, after);
    CountsFrame(h, rx, after, c, after.channels[c]);
  }

  lemma ChannelAt(l: Lane, h: seq<Tile>, rx: Pipe, c: nat)
    requires ChannelsOk(l, h, rx) && c < |rx.channels|
    ensures ChannelOk(l, h, rx.wrote, rx.channels[c])
  {}

  // ----- The consumers -----

  lemma OwnersUpdate(a: Pipe, b: Pipe, c: nat, ch: Channel)
    requires OwnersOk(a) && c < |a.channels| && b.owner == a.owner && b.channels == a.channels[c := ch]
    requires ch.Spent() <= |ch.inq| && a.channels[c].Spent() <= |a.channels[c].inq|
    requires ch.Flight() == a.channels[c].Flight()
    ensures OwnersOk(b)
  {
    forall d | 0 <= d < |b.channels| ensures Owns(b.channels[d], d, b.owner) {
      assert Owns(a.channels[d], d, a.owner);
    }
  }

  lemma MarksFrame(l: Lane, a: Pipe, b: Pipe)
    requires MarksOk(l, a) && b.got == a.got && b.owner == a.owner && b.dispatched == a.dispatched
    ensures MarksOk(l, b)
  {}

  /** A step that only changes channel `c`, and leaves its numbers in flight as they were. */
  lemma ConsumerFrame(l: Lane, cfg: Config, h: seq<Tile>, a: Pipe, b: Pipe, c: nat, ch: Channel)
    requires Inv(l, cfg, h, a) && c < |a.channels| && b == SetChannel(a, c, ch)
    requires ch.Spent() <= |ch.inq| && a.channels[c].Spent() <= |a.channels[c].inq|
    requires ch.Flight() == a.channels[c].Flight() && ch.Load() == a.channels[c].Load()
    requires ChannelOk(l, h, a.wrote, ch)
    ensures Inv(l, cfg, h, b)
  {
    hide OwnersOk, MarksOk, ChannelOk, ChannelsOk, WroteOk, CountsOk, Channel.Flight;
    ChannelsUpdate(l, h, a, b, c, ch);
    OwnersUpdate(a, b, c, ch);
    MarksFrame(l, a, b);
    WroteFrame(l, h, a, b);
    CountsFrame(h, a, b, c, ch);
  }

  lemma TakeKeepsInv(l: Lane, cfg: Config, h: seq<Tile>, rx: Pipe, c: nat, n: nat)
    requires Inv(l, cfg, h, rx) && Enabled(l, cfg, rx, Take(c, n))
    ensures Inv(l, cfg, h, Apply(l, cfg, rx, Take(c, n)))
  {
    ChannelAt(l, h, rx, c);
    var ch := rx.channels[c].(work := Busy(n, []));
    ConsumerFrame(l, cfg, h, rx, SetChannel(rx, c, ch), c, ch);
  }

  lemma CommitFlight(ch: Channel)
    requires ch.work.Busy? && |ch.work.out| == ch.work.n <= |ch.inq|
    requires forall i | 0 <= i < ch.work.n :: ch.work.out[i].s == ch.inq[i].dg.s
    ensures Channel(ch.inq, Reported(ch.work.n), ch.done + ch.work.out).Flight() == ch.Flight()
  {
    var n, out := ch.work.n, ch.work.out;
    assert PacketNumbers(ch.inq[0..]) == VerdictNumbers(out) + PacketNumbers(ch.inq[n..]);
    assert VerdictNumbers(ch.done + out) == VerdictNumbers(ch.done) + VerdictNumbers(out);
  }

  lemma CommitChannel(l: Lane, h: seq<Tile>, wrote: set<nat>, ch: Channel)
    requires ChannelOk(l, h, wrote, ch) && ch.work.Busy? && |ch.work.out| == ch.work.n
    ensures ChannelOk(l, h, wrote, Channel(ch.inq, Reported(ch.work.n), ch.done + ch.work.out))
  {}

  lemma CommitKeepsInv(l: Lane, cfg: Config, h: seq<Tile>, rx: Pipe, c: nat)
    requires Inv(l, cfg, h, rx) && Enabled(l, cfg, rx, Commit(c))
    ensures Inv(l, cfg, h, Apply(l, cfg, rx, Commit(c)))
  {
    ChannelAt(l, h, rx, c);
    var ch := rx.channels[c];
    CommitFlight(ch);
    CommitChannel(l, h, rx.wrote, ch);
    var after := Channel(ch.inq, Reported(ch.work.n), ch.done + ch.work.out);
    ConsumerFrame(l, cfg, h, rx, SetChannel(rx, c, after), c, after);
  }

  lemma ReleaseChannel(l: Lane, h: seq<Tile>, wrote: set<nat>, ch: Channel)
    requires ChannelOk(l, h, wrote, ch) && ch.work.Reported?
    ensures var after := Channel(ch.inq[ch.work.n..], Idle, ch.done);
            ChannelOk(l, h, wrote, after) && after.Flight() == ch.Flight()
  {
    var after := Channel(ch.inq[ch.work.n..], Idle, ch.done);
    assert after.inq[0..] == ch.inq[ch.work.n..];
  }

  lemma ReleaseKeepsInv(l: Lane, cfg: Config, h: seq<Tile>, rx: Pipe, c: nat)
    requires Inv(l, cfg, h, rx) && Enabled(l, cfg, rx, Release(c))
    ensures Inv(l, cfg, h, Apply(l, cfg, rx, Release(c)))
  {
    ChannelAt(l, h, rx, c);
    var ch := rx.channels[c];
    var after := Channel(ch.inq[ch.work.n..], Idle, ch.done);
    ReleaseChannel(l, h, rx.wrote, ch);
    hide ChannelOk, Channel.Flight, Inv;
    ConsumerFrame(l, cfg, h, rx, SetChannel(rx, c, after), c, after);
  }

  // ----- Writing -----

  /** A genuine block written at its offset puts source bytes, and only source bytes, in the output. */
  lemma GenuineWrite(l: Lane, h: seq<Tile>, out: seq<byte>, p: Packet, ok: bool, partial: nat)
    requires |out| == |l.data| && partial <= |p.dg.payload| && (p.authentic ==> Genuine(l, h, p.dg))
    ensures var after := WriteOut(out, p, ok, partial);
            && |after| == |out|
            && (forall o | 0 <= o < |out| :: after[o] == out[o] || after[o] == l.data[o])
            && (p.authentic && ok ==> Landed(l, h[p.dg.s], after))
  {}

  lemma GenuineVerdict(l: Lane, h: seq<Tile>, out: seq<byte>, p: Packet, ok: bool)
    requires |out| == |l.data| && (p.authentic ==> Genuine(l, h, p.dg))
    ensures var v := Judged(out, p, ok);
            && v.s == p.dg.s
            && (v.result == Written ==> p.authentic && v.bytes == h[v.s].length && v.last == h[v.s].last)
            && (v.result == Written ==> ok || h[v.s].length == 0)
  {}

  /** Written bytes stay right: no later write changes a byte to anything but the source's. */
  lemma LandedStays(l: Lane, t: Tile, before: seq<byte>, after: seq<byte>)
    requires Landed(l, t, before) && |before| == |after| == |l.data|
    requires forall o | 0 <= o < |before| :: after[o] == before[o] || after[o] == l.data[o]
    ensures Landed(l, t, after)
  {}

  /** At most block `s`, just landed, joins the blocks written; every byte only got right. */
  lemma WroteGrows(l: Lane, h: seq<Tile>, rx: Pipe, after: Pipe, s: nat)
    requires WroteOk(l, h, rx) && after.got == rx.got && after.owner == rx.owner && |after.out| == |rx.out|
    requires forall o | 0 <= o < |rx.out| && o < |l.data| :: after.out[o] == rx.out[o] || after.out[o] == l.data[o]
    requires rx.wrote <= after.wrote <= rx.wrote + {s}
    requires s in after.wrote ==> s in rx.wrote || (s in rx.owner && s < |h| && Landed(l, h[s], after.out))
    ensures WroteOk(l, h, after)
  {
    hide Landed;
    forall t <- after.wrote ensures t < |h| && Landed(l, h[t], after.out) {
      if t in rx.wrote { LandedStays(l, h[t], rx.out, after.out); }
    }
  }

  lemma WriteKeepsWrote(l: Lane, cfg: Config, h: seq<Tile>, rx: Pipe, c: nat, ok: bool, partial: nat)
    requires Inv(l, cfg, h, rx) && Enabled(l, cfg, rx, Write(c, ok, partial))
    ensures WroteOk(l, h, Apply(l, cfg, rx, Write(c, ok, partial)))
  {
    hide OwnersOk, MarksOk, ChannelOk, CountsOk, Landed, Mex, Genuine, Overwrite, WriteOut, Judged, WroteOk;
    var ch := rx.channels[c];
    var p := ch.inq[|ch.work.out|];
    var after := Apply(l, cfg, rx, Write(c, ok, partial));
    BlockAt(l, cfg, h, rx, c, ok, partial);
    GenuineWrite(l, h, rx.out, p, ok, partial);
    GenuineVerdict(l, h, rx.out, p, ok);
    if p.dg.s < |h| { NothingToLand(l, h[p.dg.s], after.out); }
    WroteGrows(l, h, rx, after, p.dg.s);
  }

  /** The block that consumer `c` is at: its channel has it in flight, and if authentic it is genuine. */
  lemma BlockAt(l: Lane, cfg: Config, h: seq<Tile>, rx: Pipe, c: nat, ok: bool, partial: nat)
    requires Inv(l, cfg, h, rx) && Enabled(l, cfg, rx, Write(c, ok, partial))
    ensures var p := rx.channels[c].inq[|rx.channels[c].work.out|];
            p.dg.s in rx.owner && (p.authentic ==> Genuine(l, h, p.dg) && p.dg.s < |h|)
  {
    var ch := rx.channels[c];
    ChannelAt(l, h, rx, c);
    assert Owns(ch, c, rx.owner);
    QueuedIsOwned(ch, c, rx.owner, |ch.work.out|);
  }

  lemma NothingToLand(l: Lane, t: Tile, out: seq<byte>)
    ensures t.length == 0 ==> Landed(l, t, out)
  {}

  /** Another number being written changes nothing for this channel. */
  lemma ChannelElsewhere(l: Lane, h: seq<Tile>, wrote: set<nat>, ch: Channel, s: nat)
    requires ChannelOk(l, h, wrote, ch)
    requires forall i | ch.Processed() <= i < |ch.inq| :: ch.inq[i].dg.s != s
    requires forall i | 0 <= i < |ch.done| :: ch.done[i].s != s
    requires ch.work.Busy? ==> forall i | 0 <= i < |ch.work.out| :: ch.work.out[i].s != s
    ensures ChannelOk(l, h, wrote + {s}, ch)
  {}

  lemma NotHere(ch: Channel, c: nat, owner: map<nat, nat>, s: nat)
    requires Owns(ch, c, owner) && s in owner && owner[s] != c
    ensures forall i | ch.Spent() <= i < |ch.inq| :: ch.inq[i].dg.s != s
    ensures forall i | 0 <= i < |ch.done| :: ch.done[i].s != s
  {
    forall i | ch.Spent() <= i < |ch.inq| ensures ch.inq[i].dg.s != s { QueuedIsOwned(ch, c, owner, i); }
    forall i | 0 <= i < |ch.done| ensures ch.done[i].s != s { VerdictIsOwned(ch, c, owner, i); }
  }

  lemma OthersUnmoved(l: Lane, h: seq<Tile>, wrote: set<nat>, ch: Channel, c: nat, owner: map<nat, nat>, s: nat)
    requires ChannelOk(l, h, wrote, ch) && Owns(ch, c, owner) && s in owner && owner[s] != c
    ensures ChannelOk(l, h, wrote + {s}, ch)
  {
    NotHere(ch, c, owner, s);
    hide Owns;
    ChannelElsewhere(l, h, wrote, ch, s);
  }

  /** The verdict just reached takes its place in the batch. */
  lemma JudgedChannel(l: Lane, h: seq<Tile>, wrote: set<nat>, ch: Channel, c: nat, owner: map<nat, nat>, v: Completion)
    requires ChannelOk(l, h, wrote, ch) && Owns(ch, c, owner)
    requires ch.work.Busy? && |ch.work.out| < ch.work.n && v.s == ch.inq[|ch.work.out|].dg.s
    requires v.result == Written ==> v.s < |h| && v.bytes == h[v.s].length && v.last == h[v.s].last
    ensures ChannelOk(l, h, if v.result == Written then wrote + {v.s} else wrote,
                      ch.(work := Busy(ch.work.n, ch.work.out + [v])))
  {
    var k := |ch.work.out|;
    forall i | 0 <= i < |ch.inq| && i != k ensures ch.inq[i].dg.s != v.s {
      if i < k { QueuedOnce(ch, c, owner, i, k); } else { QueuedOnce(ch, c, owner, k, i); }
    }
    forall j | 0 <= j < |ch.done| ensures ch.done[j].s != v.s { QueuedNotJudged(ch, c, owner, k, j); }
    hide Owns, Genuine;
  }

  lemma WriteKeepsChannels(l: Lane, cfg: Config, h: seq<Tile>, rx: Pipe, c: nat, ok: bool, partial: nat)
    requires Inv(l, cfg, h, rx) && Enabled(l, cfg, rx, Write(c, ok, partial))
    ensures ChannelsOk(l, h, Apply(l, cfg, rx, Write(c, ok, partial)))
  {
    var ch := rx.channels[c];
    var p := ch.inq[|ch.work.out|];
    var after := Apply(l, cfg, rx, Write(c, ok, partial));
    ChannelAt(l, h, rx, c);
    assert Owns(ch, c, rx.owner);
    QueuedIsOwned(ch, c, rx.owner, |ch.work.out|);
    GenuineVerdict(l, h, rx.out, p, ok);
    hide Owns, MarksOk, ChannelOk, CountsOk, WroteOk, Landed, Mex, Genuine, WriteOut, Judged;
    forall d | 0 <= d < |after.channels| ensures ChannelOk(l, h, after.wrote, after.channels[d]) {
      if d == c {
        JudgedChannel(l, h, rx.wrote, ch, c, rx.owner, Judged(rx.out, p, ok));
      } else {
        OthersUnmoved(l, h, rx.wrote, rx.channels[d], d, rx.owner, p.dg.s);
      }
    }
  }

  lemma WriteKeepsInv(l: Lane, cfg: Config, h: seq<Tile>, rx: Pipe, c: nat, ok: bool, partial: nat)
    requires Inv(l, cfg, h, rx) && Enabled(l, cfg, rx, Write(c, ok, partial))
    ensures Inv(l, cfg, h, Apply(l, cfg, rx, Write(c, ok, partial)))
  {
    WriteKeepsWrote(l, cfg, h, rx, c, ok, partial);
    WriteKeepsChannels(l, cfg, h, rx, c, ok, partial);
    assert Owns(rx.channels[c], c, rx.owner);
    hide OwnersOk, MarksOk, ChannelOk, ChannelsOk, WroteOk, CountsOk, Judged, Overwrite, Fits;
    var after := Apply(l, cfg, rx, Write(c, ok, partial));
    OwnersUpdate(rx, after, c, after.channels[c]);
    MarksFrame(l, rx, after);
    CountsFrame(h, rx, after, c, after.channels[c]);
  }

  // ----- Draining -----

  lemma FlightPop(ch: Channel)
    requires ch.Spent() <= |ch.inq| && ch.done != []
    ensures ch.Flight() == ch.(done := ch.done[1..]).Flight() + multiset{ch.done[0].s}
  {
    assert VerdictNumbers(ch.done) == [ch.done[0].s] + VerdictNumbers(ch.done[1..]);
  }

  lemma OwnsPop(ch: Channel, c: nat, owner: map<nat, nat>)
    requires Owns(ch, c, owner) && ch.done != []
    ensures Owns(ch.(done := ch.done[1..]), c, owner - {ch.done[0].s})
  {
    FlightPop(ch);
    VerdictIsOwned(ch, c, owner, 0);
  }

  lemma OwnsWithout(ch: Channel, c: nat, owner: map<nat, nat>, s: nat)
    requires Owns(ch, c, owner) && s in owner && owner[s] != c
    ensures Owns(ch, c, owner - {s})
  {}

  lemma DrainKeepsOwners(l: Lane, cfg: Config, rx: Pipe, c: nat)
    requires Enabled(l, cfg, rx, Drain(c)) && OwnersOk(rx)
    ensures OwnersOk(Apply(l, cfg, rx, Drain(c)))
  {
    var after := Apply(l, cfg, rx, Drain(c));
    var v := rx.channels[c].done[0];
    assert Owns(rx.channels[c], c, rx.owner);
    VerdictIsOwned(rx.channels[c], c, rx.owner, 0);
    hide Owns, Mex;
    forall d | 0 <= d < |after.channels| ensures Owns(after.channels[d], d, after.owner) {
      if d == c { OwnsPop(rx.channels[c], c, rx.owner); } else { OwnsWithout(rx.channels[d], d, rx.owner, v.s); }
    }
  }

  /** Marks survive the window moving: the base only grows, and never past a block in flight. */
  lemma DrainKeepsMarks(l: Lane, cfg: Config, rx: Pipe, c: nat)
    requires Enabled(l, cfg, rx, Drain(c)) && OwnersOk(rx) && MarksOk(l, rx)
    ensures MarksOk(l, Apply(l, cfg, rx, Drain(c)))
  {
    var after := Apply(l, cfg, rx, Drain(c));
    var v := rx.channels[c].done[0];
    assert Owns(rx.channels[c], c, rx.owner);
    VerdictIsOwned(rx.channels[c], c, rx.owner, 0);
    MexMonotone(rx.got, after.got);
    hide Owns, Mex, MexFrom;
    forall s <- after.owner.Keys
      ensures after.Base() <= s < after.Base() + l.window && s !in after.got && after.dispatched[s % l.window] == Some(s)
    {
      assert s in rx.owner.Keys;
      MexAtMost(after.got, s);
    }
  }

  lemma ChannelPop(l: Lane, h: seq<Tile>, wrote: set<nat>, ch: Channel)
    requires ChannelOk(l, h, wrote, ch) && ch.done != []
    ensures VerdictOk(h, wrote, ch.done[0]) && ChannelOk(l, h, wrote, ch.(done := ch.done[1..]))
  {}

  /** A verdict waiting to be collected is about a block the window still lacks and can take. */
  lemma VerdictAtFront(l: Lane, cfg: Config, h: seq<Tile>, rx: Pipe, c: nat)
    requires Inv(l, cfg, h, rx) && Enabled(l, cfg, rx, Drain(c))
    ensures var v := rx.channels[c].done[0];
            && VerdictOk(h, rx.wrote, v)
            && v.s in rx.owner && v.s !in rx.got && v.s < rx.Base() + l.window
            && rx.dispatched[v.s % l.window] == Some(v.s)
            && ChannelOk(l, h, rx.wrote, rx.channels[c].(done := rx.channels[c].done[1..]))
  {
    ChannelAt(l, h, rx, c);
    ChannelPop(l, h, rx.wrote, rx.channels[c]);
    assert Owns(rx.channels[c], c, rx.owner);
    VerdictIsOwned(rx.channels[c], c, rx.owner, 0);
    hide OwnersOk, Owns, Mex, WroteOk, CountsOk, ChannelOk, VerdictOk, ChannelsOk;
    assert rx.channels[c].done[0].s in rx.owner.Keys;
  }

  /** What collecting a verdict does, when the window can take its block. */
  lemma Collected(l: Lane, rx: Pipe, c: nat)
    requires c < |rx.channels| && rx.channels[c].done != [] && |rx.dispatched| == l.window >= 1
    requires rx.channels[c].done[0].s !in rx.got && rx.channels[c].done[0].s < rx.Base() + l.window
    ensures var after, v := Collect(l, rx, c), rx.channels[c].done[0];
            && after.channels == rx.channels[c := rx.channels[c].(done := rx.channels[c].done[1..])]
            && after.owner == rx.owner - {v.s} && after.pending == rx.pending - 1
            && after.wrote == rx.wrote && after.out == rx.out && |after.dispatched| == |rx.dispatched|
            && after.got == (if v.result == Written then rx.got + {v.s} else rx.got)
            && after.written == rx.written + (if v.result == Written then v.bytes else 0)
            && (after.final == if v.result == Written && v.last then Some(v.s) else rx.final)
  {
    hide Mex;
  }

  lemma DrainKeepsCounts(h: seq<Tile>, rx: Pipe, after: Pipe, c: nat, ch: Channel, v: Completion)
    requires CountsOk(h, rx) && c < |rx.channels| && after.channels == rx.channels[c := ch]
    requires ch.Load() == rx.channels[c].Load() - 1 && after.pending == rx.pending - 1
    requires v.s !in rx.got && VerdictOk(h, rx.wrote, v)
    requires after.got == if v.result == Written then rx.got + {v.s} else rx.got
    requires after.written == rx.written + if v.result == Written then v.bytes else 0
    requires after.final == if v.result == Written && v.last then Some(v.s) else rx.final
    ensures CountsOk(h, after)
  {
    LoadUpdate(rx.channels, c, ch);
    if v.result == Written { GotBytesAdd(h, rx.got, v.s, |h|); }
  }

  lemma DrainKeepsWrote(l: Lane, h: seq<Tile>, rx: Pipe, after: Pipe, v: Completion)
    requires WroteOk(l, h, rx) && VerdictOk(h, rx.wrote, v)
    requires after.wrote == rx.wrote && after.out == rx.out && after.owner == rx.owner - {v.s}
    requires after.got == if v.result == Written then rx.got + {v.s} else rx.got
    ensures WroteOk(l, h, after)
  {
    hide Landed;
  }

  lemma DrainKeepsInv(l: Lane, cfg: Config, h: seq<Tile>, rx: Pipe, c: nat)
    requires Inv(l, cfg, h, rx) && Enabled(l, cfg, rx, Drain(c))
    ensures Inv(l, cfg, h, Apply(l, cfg, rx, Drain(c)))
  {
    VerdictAtFront(l, cfg, h, rx, c);
    DrainKeepsOwners(l, cfg, rx, c);
    DrainKeepsMarks(l, cfg, rx, c);
    Collected(l, rx, c);
    hide OwnersOk, MarksOk, CountsOk, WroteOk, ChannelsOk, ChannelOk, Mex, Collect, VerdictOk, Channel.Spent;
    var after := Apply(l, cfg, rx, Drain(c));
    var v := rx.channels[c].done[0];
    DrainKeepsCounts(h, rx, after, c, after.channels[c], v);
    DrainKeepsWrote(l, h, rx, after, v);
    ChannelsUpdate(l, h, rx, after, c, after.channels[c]);
  }

  /** What is received stays genuine when the sender sends more. */
  lemma HistoryGrows(l: Lane, cfg: Config, h: seq<Tile>, h': seq<Tile>, rx: Pipe)
    requires Inv(l, cfg, h, rx) && h <= h' && forall s | 0 <= s < |h'| :: l.Inside(h'[s])
    ensures Inv(l, cfg, h', rx)
  {
    hide OwnersOk, MarksOk, Mex, Landed;
    forall c | 0 <= c < |rx.channels| ensures ChannelOk(l, h', rx.wrote, rx.channels[c]) { ChannelAt(l, h, rx, c); }
    GotBytesGrows(h, h', rx.got, |h|);
    GotBytesBeyond(h', rx.got, |h|, |h'|);
  }

  lemma {:induction false} GotBytesGrows(h: seq<Tile>, h': seq<Tile>, got: set<nat>, n: nat)
    requires h <= h' && n <= |h|
    ensures GotBytes(h', got, n) == GotBytes(h, got, n)
  {
    if n > 0 { GotBytesGrows(h, h', got, n - 1); }
  }

  lemma {:induction false} GotBytesBeyond(h: seq<Tile>, got: set<nat>, n: nat, m: nat)
    requires n <= m <= |h| && forall s <- got :: s < n
    ensures GotBytes(h, got, m) == GotBytes(h, got, n)
  {
    if n < m { GotBytesBeyond(h, got, n, m - 1); }
  }

  // ----- Whole runs -----

  /** Every access of every thread keeps the invariant, provided only genuine blocks authenticate. */
  lemma StepKeepsInv(l: Lane, cfg: Config, h: seq<Tile>, rx: Pipe, step: Step)
    requires Inv(l, cfg, h, rx) && Enabled(l, cfg, rx, step)
    requires step.Dispatch? && step.p.authentic ==> Genuine(l, h, step.p.dg)
    ensures Inv(l, cfg, h, Apply(l, cfg, rx, step))
  {
    match step
    case Dispatch(p) => DispatchKeepsInv(l, cfg, h, rx, p);
    case Take(c, n) => TakeKeepsInv(l, cfg, h, rx, c, n);
    case Write(c, ok, partial) => WriteKeepsInv(l, cfg, h, rx, c, ok, partial);
    case Commit(c) => CommitKeepsInv(l, cfg, h, rx, c);
    case Release(c) => ReleaseKeepsInv(l, cfg, h, rx, c);
    case Drain(c) => DrainKeepsInv(l, cfg, h, rx, c);
  }

  /** A pipeline at the start of a session, over a file that already holds `before`. */
  function Fresh(l: Lane, cfg: Config, before: seq<byte>): Pipe {
    Pipe({}, seq(l.window, _ => None), 0, 0, None, seq(cfg.writers + 1, _ => Channel([], Idle, [])),
         before, map[], {})
  }

  lemma FreshInv(l: Lane, cfg: Config, before: seq<byte>)
    requires cfg.Ok() && l.window >= 1 && |before| == |l.data|
    ensures Inv(l, cfg, [], Fresh(l, cfg, before))
  {
    MexUnique({}, 0);
    NoLoad(Fresh(l, cfg, before).channels);
  }

  /** Whatever is written, and wherever: an output byte only ever changes to the source's. */
  lemma BytesOnlyGetRight(l: Lane, cfg: Config, h: seq<Tile>, rx: Pipe, step: Step, o: nat)
    requires Inv(l, cfg, h, rx) && Enabled(l, cfg, rx, step) && o < |l.data|
    ensures var after := Apply(l, cfg, rx, step);
            |after.out| == |l.data| && (after.out[o] == rx.out[o] || after.out[o] == l.data[o])
  {
    match step
    case Write(c, ok, partial) =>
      ChannelAt(l, h, rx, c);
      GenuineWrite(l, h, rx.out, rx.channels[c].inq[|rx.channels[c].work.out|], ok, partial);
    case _ =>
  }

  lemma {:induction false} NoLoad(channels: seq<Channel>)
    requires forall i | 0 <= i < |channels| :: channels[i] == Channel([], Idle, [])
    ensures TotalLoad(channels) == 0
  {
    if channels != [] { NoLoad(channels[1..]); }
  }

  /** A genuine block is never reported as forged, a forged one always is, and a failed write is never reported as written. */
  lemma VerdictsAreJust(l: Lane, cfg: Config, h: seq<Tile>, rx: Pipe, c: nat, ok: bool, partial: nat)
    requires Inv(l, cfg, h, rx) && Enabled(l, cfg, rx, Write(c, ok, partial))
    ensures var p, out := rx.channels[c].inq[|rx.channels[c].work.out|], Apply(l, cfg, rx, Write(c, ok, partial)).channels[c].work.out;
            var v := out[|out| - 1];
            && v.s == p.dg.s && (v.result == AuthFailed <==> !p.authentic) && (p.authentic && ok ==> v.result == Written)
            && (v.result == Written && !ok ==> p.authentic && p.dg.payload == [])
  {
    BlockAt(l, cfg, h, rx, c, ok, partial);
    hide OwnersOk, MarksOk, ChannelOk, CountsOk, WroteOk, Mex;
  }

  /** A block is written at most once: the block a consumer is about to write has never been written. */
  lemma WrittenAtMostOnce(l: Lane, cfg: Config, h: seq<Tile>, rx: Pipe, c: nat, ok: bool, partial: nat)
    requires Inv(l, cfg, h, rx) && Enabled(l, cfg, rx, Write(c, ok, partial))
    ensures var s := rx.channels[c].inq[|rx.channels[c].work.out|].dg.s;
            s !in rx.wrote && s !in rx.got
  {
    ChannelAt(l, h, rx, c);
  }

  /** No number is in flight in two channels, or twice in one. */
  lemma InFlightOnce(l: Lane, cfg: Config, h: seq<Tile>, rx: Pipe, c: nat, d: nat, s: nat)
    requires Inv(l, cfg, h, rx) && c < |rx.channels| && d < |rx.channels|
    requires rx.channels[c].Spent() <= |rx.channels[c].inq| && rx.channels[d].Spent() <= |rx.channels[d].inq|
    ensures rx.channels[c].Flight()[s] <= 1
    ensures rx.channels[c].Flight()[s] > 0 && rx.channels[d].Flight()[s] > 0 ==> c == d
  {
    assert Owns(rx.channels[c], c, rx.owner) && Owns(rx.channels[d], d, rx.owner);
  }

  /**
   Between a consumer's `commit` and its `consume` the packet slot still names a block
   whose verdict is already out: counted without regard to `Spent`, that block is in two
   rings, and the window may even hold it already.
   */
  lemma CommittedBlockIsInBothRings(l: Lane, cfg: Config, h: seq<Tile>, rx: Pipe, c: nat)
    requires Inv(l, cfg, h, rx) && Enabled(l, cfg, rx, Commit(c)) && rx.channels[c].work.n > 0
    ensures var after := Apply(l, cfg, rx, Commit(c)).channels[c];
            && after.inq[0].dg.s == after.done[|rx.channels[c].done|].s
            && !Enabled(l, cfg, Apply(l, cfg, rx, Commit(c)), Take(c, 1))
  {
    ChannelAt(l, h, rx, c);
  }

  /** The window moves as the receive window's own rule says: `Collect` accepts what `Rx.Arrive` accepts. */
  lemma CollectIsArrival(l: Lane, cfg: Config, h: seq<Tile>, rx: Pipe, c: nat, w: Rx, sendTime: nat, now: uint64)
    requires Inv(l, cfg, h, rx) && Enabled(l, cfg, rx, Drain(c)) && w.got == rx.got
    ensures var v := rx.channels[c].done[0];
            && w.Judge(l.window, v.s) == Accepted
            && (v.result == Written ==> Collect(l, rx, c).got == w.Arrive(l.window, v.s, sendTime, now).got)
            && (v.result != Written ==> Collect(l, rx, c).got == rx.got)
  {
    VerdictAtFront(l, cfg, h, rx, c);
    hide Mex, Inv;
  }
}
