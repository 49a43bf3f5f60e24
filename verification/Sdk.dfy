/**
 Messages over a connection (sdk.cpp): several threads in `fuse_send`, serialised by
 `send_busy`; blocks lost, repeated and reordered on the way; one reassembly buffer at the
 receiver, no message numbers on the wire. Runs in which no send has failed.
 */
module Sdk {
  import opened Word64
  import opened ReceiverWindow
  import opened Basics
  import opened Wire
  import Modular

  const BLOCK_SIZE: nat := 1200
  const MAX_MESSAGE: nat := 64 * 1024 * 1024
  const MAX_INBOX: nat := 256 * 1024 * 1024

  datatype Block = Block(offset: nat, payload: seq<byte>, last: bool)

  // ----- Framing -----

  function BlockCount(m: seq<byte>): (n: nat)
    ensures n >= 1
  {
    if m == [] then 1 else (|m| + BLOCK_SIZE - 1) / BLOCK_SIZE
  }

  /** Block `i` of a message, as the loop of `fuse_send` cuts it. */
  function BlockOf(m: seq<byte>, i: nat): Block {
    var off := i * BLOCK_SIZE;
    var len := Min(BLOCK_SIZE, |m| - Min(off, |m|));
    Block(off, if off <= |m| then m[off..off + len] else [], i + 1 == BlockCount(m))
  }

  function Split(m: seq<byte>): (r: seq<Block>)
    ensures |r| == BlockCount(m) && forall i | 0 <= i < |r| :: r[i] == BlockOf(m, i)
  {
    seq(BlockCount(m), i requires 0 <= i => BlockOf(m, i))
  }

  /** All messages' blocks, message after message. */
  function Framed(log: seq<seq<byte>>): seq<Block> {
    if log == [] then [] else Framed(log[..|log| - 1]) + Split(log[|log| - 1])
  }

  /** Where block `i` ends; the last one ends the message, and every byte is in some block. */
  lemma BlockExtent(m: seq<byte>, i: nat)
    requires i < BlockCount(m)
    ensures var b := BlockOf(m, i);
            && b.offset <= |m| && b.payload == m[b.offset..b.offset + |b.payload|]
            && (b.last <==> i == BlockCount(m) - 1) && (b.last ==> b.offset + |b.payload| == |m|)
  {
    if m != [] {
      var n := BlockCount(m);
      assert |m| + BLOCK_SIZE - 1 == n * BLOCK_SIZE + (|m| + BLOCK_SIZE - 1) % BLOCK_SIZE;
    }
  }

  lemma ByteInBlock(m: seq<byte>, o: nat)
    requires o < |m|
    ensures o / BLOCK_SIZE < BlockCount(m)
    ensures var b := BlockOf(m, o / BLOCK_SIZE); b.offset <= o < b.offset + |b.payload|
  {
    Modular.DivAtLeast(|m| + BLOCK_SIZE - 1, BLOCK_SIZE, o / BLOCK_SIZE + 1);
  }

  // ----- The connection -----

  /** A thread inside `fuse_send`: waiting its turn, sending block `i`, or waiting for the last ACK. */
  datatype Phase = Waiting(msg: seq<byte>) | Sending(msg: seq<byte>, i: nat) | Acking(msg: seq<byte>)

  /** The receiving half of a connection. */
  datatype Inbound = Inbound(
    got: set<nat>, asm: seq<byte>, asmEnd: Option<nat>, asmTotal: nat, inbox: seq<seq<byte>>, inboxBytes: nat)
  {
    function Base(): nat { Mex(got) }
  }

  /**
   `blocks[s]` is what was sent as number `s`; `log` are the messages begun, in order, the last of
   them from number `first` on; `acks` are the bases reported; `delivered` is all that ever
   entered the inbox; `ok` are the messages whose send returned.
   */
  datatype Conn = Conn(
    threads: map<nat, Phase>, busy: bool, txBase: nat, blocks: seq<Block>, log: seq<seq<byte>>, first: nat,
    acks: set<nat>, rx: Inbound, delivered: seq<seq<byte>>, ok: seq<seq<byte>>)
  {
    function Next(): nat { |blocks| }
  }

  datatype Step =
    | Call(t: nat, msg: seq<byte>)   // a thread enters fuse_send
    | Acquire(t: nat)                // ... gets its turn
    | SendBlock(t: nat)              // ... sends its next block, the window having room
    | Return(t: nat)                 // ... finds its last block acknowledged
    | Arrive(s: nat)                 // any block ever sent, any number of times, in any order
    | EmitAck
    | AckArrives(base: nat)          // any ACK ever sent
    | Receive                        // fuse_recv takes a message

  const FRESH: Conn := Conn(map[], false, 0, [], [], 0, {}, Inbound({}, [], None, 0, [], 0), [], [])

  /** Laid over a buffer that grows as needed. */
  function Grown(asm: seq<byte>, end: nat): (r: seq<byte>)
    ensures |r| == Max(|asm|, end) && asm <= r
  {
    if |asm| >= end then asm else asm + seq(end - |asm|, _ => 0)
  }

  /** `handle_data_locked` up to the completion check: admit the block and lay down its bytes. */
  function Admitted(rx: Inbound, s: nat, b: Block, window: nat): Inbound {
    if s in rx.got || s >= rx.Base() + window then rx
    else
      var rx1 := rx.(got := rx.got + {s});
      if b.offset > MAX_MESSAGE || |b.payload| > MAX_MESSAGE - b.offset then rx1
      else
        var end := b.offset + |b.payload|;
        var rx2 := rx1.(asm := Splice(Grown(rx.asm, end), b.offset, b.payload));
        if b.last then rx2.(asmEnd := Some(s), asmTotal := end) else rx2
  }

  predicate Whole(rx: Inbound) { rx.asmEnd.Some? && rx.Base() > rx.asmEnd.value }

  /** The completion check: a whole message moves to the inbox. */
  function Completed(rx: Inbound): Inbound {
    if !Whole(rx) then rx
    else
      var msg := Grown(rx.asm, rx.asmTotal)[..rx.asmTotal];
      rx.(asm := [], asmEnd := None, asmTotal := 0, inbox := rx.inbox + [msg], inboxBytes := rx.inboxBytes + |msg|)
  }

  /** A DATA datagram; with the inbox full it is not even looked at. */
  function Handled(rx: Inbound, s: nat, b: Block, window: nat): Inbound {
    if rx.inboxBytes >= MAX_INBOX then rx else Completed(Admitted(rx, s, b, window))
  }

  /** What the window takes: with room in the inbox, any number below the window's end, in whatever order. */
  lemma AdmittedExactly(rx: Inbound, s: nat, b: Block, window: nat, x: nat)
    ensures x in Handled(rx, s, b, window).got <==> x in rx.got || (x == s < rx.Base() + window && rx.inboxBytes < MAX_INBOX)
    ensures rx.got <= Handled(rx, s, b, window).got
  {
    hide Mex, Grown, Wire.Splice;
  }

  /** `c` after block `b` came in as number `s`. */
  function Delivered(c: Conn, window: nat, s: nat, b: Block): Conn {
    var rx := Handled(c.rx, s, b, window);
    c.(rx := rx, delivered := if |rx.inbox| > |c.rx.inbox| then c.delivered + [rx.inbox[|rx.inbox| - 1]] else c.delivered)
  }

  function Arrived(c: Conn, window: nat, s: nat): Conn
    requires s < c.Next()
  {
    Delivered(c, window, s, c.blocks[s])
  }

  ghost predicate Enabled(c: Conn, window: nat, step: Step) {
    match step
    case Call(t, msg) => t !in c.threads && |msg| <= MAX_MESSAGE
    case Acquire(t) => t in c.threads && c.threads[t].Waiting? && !c.busy
    case SendBlock(t) => t in c.threads && c.threads[t].Sending? && c.Next() < c.txBase + window
    case Return(t) => t in c.threads && c.threads[t].Acking? && c.txBase >= c.Next()
    case Arrive(s) => s < c.Next()
    case EmitAck => true
    case AckArrives(base) => base in c.acks
    case Receive => c.rx.inbox != []
  }

  ghost function Next(c: Conn, window: nat, step: Step): Conn
    requires Enabled(c, window, step)
  {
    match step
    case Call(t, msg) => c.(threads := c.threads[t := Waiting(msg)])
    case Acquire(t) =>
      c.(threads := c.threads[t := Sending(c.threads[t].msg, 0)], busy := true,
         log := c.log + [c.threads[t].msg], first := c.Next())
    case SendBlock(t) =>
      var m, i := c.threads[t].msg, c.threads[t].i;
      c.(blocks := c.blocks + [BlockOf(m, i)],
         threads := c.threads[t := if i + 1 >= BlockCount(m) then Acking(m) else Sending(m, i + 1)])
    case Return(t) => c.(threads := c.threads - {t}, busy := false, ok := c.ok + [c.threads[t].msg])
    case Arrive(s) => Arrived(c, window, s)
    case EmitAck => c.(acks := c.acks + {c.rx.Base()})
    case AckArrives(base) => c.(txBase := if base > c.txBase then Min(base, c.Next()) else c.txBase)
    case Receive =>
      c.(rx := c.rx.(inbox := c.rx.inbox[1..], inboxBytes := c.rx.inboxBytes - Min(|c.rx.inbox[0]|, c.rx.inboxBytes)))
  }

  // ----- What every step keeps -----

  ghost predicate Active(p: Phase) { p.Sending? || p.Acking? }

  /** At most one thread is past the gate, it is sending the last message of the log, and `busy` says so. */
  ghost predicate ThreadOk(p: Phase, busy: bool, next: nat, log: seq<seq<byte>>, first: nat) {
    && |p.msg| <= MAX_MESSAGE
    && (Active(p) ==> busy && log != [] && p.msg == log[|log| - 1])
    && (p.Sending? ==> p.i < BlockCount(p.msg) && next == first + p.i)
    && (p.Acking? ==> next == first + BlockCount(p.msg))
  }

  ghost predicate TurnOk(threads: map<nat, Phase>, busy: bool, txBase: nat, next: nat, log: seq<seq<byte>>, first: nat) {
    && (forall t <- threads.Keys :: ThreadOk(threads[t], busy, next, log, first))
    && (forall t <- threads.Keys, u <- threads.Keys :: Active(threads[t]) && Active(threads[u]) ==> t == u)
    && (busy ==> log != []) && (log == [] ==> next == 0)
    && (!busy ==> txBase >= next && (log != [] ==> next == first + BlockCount(log[|log| - 1])))
  }

  /** Sequence space is the messages' blocks, message after message; only the last may be unfinished. */
  ghost predicate LayoutOk(blocks: seq<Block>, log: seq<seq<byte>>, first: nat) {
    if log == [] then blocks == []
    else
      var n, m := |log| - 1, log[|log| - 1];
      && |m| <= MAX_MESSAGE && first <= |blocks| <= first + BlockCount(m)
      && |Framed(log[..n])| == first && blocks == Framed(log[..n]) + Split(m)[..|blocks| - first]
  }

  ghost predicate Placed(asm: seq<byte>, b: Block) {
    b.offset + |b.payload| <= |asm| && asm[b.offset..b.offset + |b.payload|] == b.payload
  }

  /** The receiver's part that assembling one message touches. */
  datatype Assembly = Assembly(got: set<nat>, asm: seq<byte>, asmEnd: Option<nat>, asmTotal: nat)

  function Part(rx: Inbound): Assembly { Assembly(rx.got, rx.asm, rx.asmEnd, rx.asmTotal) }

  /** The buffer holds the accepted blocks of `m` in their places, and nothing beyond it. */
  ghost predicate Assembling(a: Assembly, m: seq<byte>, first: nat) {
    var last := first + BlockCount(m) - 1;
    && first <= Mex(a.got) <= last && |a.asm| <= |m|
    && (a.asmEnd == if last in a.got then Some(last) else None)
    && a.asmTotal == (if last in a.got then |m| else 0)
    && forall i: nat | i < BlockCount(m) && first + i in a.got :: Placed(a.asm, BlockOf(m, i))
  }

  ghost predicate Between(a: Assembly, next: nat) {
    Mex(a.got) == next && a.asm == [] && a.asmEnd == None && a.asmTotal == 0
  }

  /** Either all begun messages are delivered, or all but the last, which is being assembled. */
  ghost predicate RxOk(a: Assembly, next: nat, log: seq<seq<byte>>, first: nat, delivered: seq<seq<byte>>) {
    && (forall s <- a.got :: s < next) && delivered <= log && |log| <= |delivered| + 1
    && (|delivered| == |log| ==> Between(a, next) && (log != [] ==> next == first + BlockCount(log[|log| - 1])))
    && (|delivered| < |log| ==> Assembling(a, log[|log| - 1], first))
  }

  ghost predicate BasesOk(base: nat, txBase: nat, next: nat, acks: set<nat>, window: nat) {
    txBase <= base && next <= txBase + window && forall a <- acks :: a <= base
  }

  function Sum(q: seq<seq<byte>>): nat { if q == [] then 0 else |q[0]| + Sum(q[1..]) }

  ghost predicate InboxOk(inbox: seq<seq<byte>>, inboxBytes: nat, delivered: seq<seq<byte>>) {
    && inboxBytes == Sum(inbox) < MAX_INBOX + MAX_MESSAGE
    && |inbox| <= |delivered| && inbox == delivered[|delivered| - |inbox|..]
  }

  /** What has returned is a prefix of what was begun, all of it unless a send is under way. */
  ghost predicate OkOk(ok: seq<seq<byte>>, log: seq<seq<byte>>, busy: bool) {
    ok <= log && |log| == |ok| + if busy then 1 else 0
  }

  ghost predicate Inv(c: Conn, window: nat) {
    && TurnOk(c.threads, c.busy, c.txBase, c.Next(), c.log, c.first) && LayoutOk(c.blocks, c.log, c.first)
    && RxOk(Part(c.rx), c.Next(), c.log, c.first, c.delivered) && BasesOk(c.rx.Base(), c.txBase, c.Next(), c.acks, window)
    && InboxOk(c.rx.inbox, c.rx.inboxBytes, c.delivered) && OkOk(c.ok, c.log, c.busy)
  }

  lemma FreshInv(window: nat)
    ensures Inv(FRESH, window)
  {
    MexUnique({}, 0);
  }

  // ----- The sending threads -----

  lemma CallStep(c: Conn, window: nat, t: nat, msg: seq<byte>)
    requires Inv(c, window) && Enabled(c, window, Call(t, msg))
    ensures Inv(Next(c, window, Call(t, msg)), window)
  {
    hide LayoutOk, RxOk, BasesOk, InboxOk, OkOk, BlockCount;
  }

  /** With the gate open everything sent has arrived and been delivered. */
  lemma GateOpenMeansDelivered(c: Conn, window: nat)
    requires Inv(c, window) && c.txBase >= c.Next()
    requires c.log != [] ==> c.Next() == c.first + BlockCount(c.log[|c.log| - 1])
    ensures c.rx.Base() == c.Next() && c.delivered == c.log
  {
    assert c.rx.Base() > c.Next() ==> c.Next() in c.rx.got;
    hide LayoutOk, InboxOk, OkOk, TurnOk;
  }

  lemma AcquireTurn(c: Conn, window: nat, t: nat)
    requires Inv(c, window) && Enabled(c, window, Acquire(t))
    ensures var d := Next(c, window, Acquire(t)); TurnOk(d.threads, d.busy, d.txBase, d.Next(), d.log, d.first)
  {
    hide RxOk, LayoutOk, InboxOk, OkOk, BlockCount;
  }

  lemma AcquireLayout(c: Conn, window: nat, t: nat)
    requires Inv(c, window) && Enabled(c, window, Acquire(t))
    ensures var d := Next(c, window, Acquire(t)); LayoutOk(d.blocks, d.log, d.first)
  {
    var d := Next(c, window, Acquire(t));
    assert d.log[..|c.log|] == c.log;
    if c.log != [] {
      var m := c.log[|c.log| - 1];
      assert Split(m)[..BlockCount(m)] == Split(m);
    }
    assert c.blocks == Framed(c.log);
    assert Split(c.threads[t].msg)[..0] == [];
    hide RxOk, InboxOk, OkOk;
  }

  lemma AcquireRx(c: Conn, window: nat, t: nat)
    requires Inv(c, window) && Enabled(c, window, Acquire(t))
    ensures var d := Next(c, window, Acquire(t)); RxOk(Part(d.rx), d.Next(), d.log, d.first, d.delivered)
  {
    GateOpenMeansDelivered(c, window);
    var d := Next(c, window, Acquire(t));
    assert d.log[..|c.log|] == c.log;
    hide TurnOk, LayoutOk, Mex, BlockOf;
  }

  lemma AcquireStep(c: Conn, window: nat, t: nat)
    requires Inv(c, window) && Enabled(c, window, Acquire(t))
    ensures Inv(Next(c, window, Acquire(t)), window)
  {
    AcquireTurn(c, window, t);
    AcquireLayout(c, window, t);
    AcquireRx(c, window, t);
    hide LayoutOk, RxOk, InboxOk, BasesOk;
    assert !c.busy;
    hide TurnOk;
  }

  lemma SendTurn(c: Conn, window: nat, t: nat)
    requires Inv(c, window) && Enabled(c, window, SendBlock(t))
    ensures var d := Next(c, window, SendBlock(t)); TurnOk(d.threads, d.busy, d.txBase, d.Next(), d.log, d.first)
  {
    assert ThreadOk(c.threads[t], c.busy, c.Next(), c.log, c.first);
    hide RxOk, LayoutOk, InboxOk, OkOk, BasesOk, BlockCount, BlockOf;
  }

  lemma SendLayout(c: Conn, window: nat, t: nat)
    requires Inv(c, window) && Enabled(c, window, SendBlock(t))
    ensures var d := Next(c, window, SendBlock(t)); LayoutOk(d.blocks, d.log, d.first)
  {
    var m, i := c.threads[t].msg, c.threads[t].i;
    assert ThreadOk(c.threads[t], c.busy, c.Next(), c.log, c.first);
    hide TurnOk, RxOk, InboxOk, OkOk, BasesOk, BlockCount, BlockOf;
    LayoutNext(c.blocks, c.log, c.first, i);
  }

  lemma LayoutNext(blocks: seq<Block>, log: seq<seq<byte>>, first: nat, i: nat)
    requires LayoutOk(blocks, log, first) && log != [] && |blocks| == first + i && i < BlockCount(log[|log| - 1])
    ensures LayoutOk(blocks + [BlockOf(log[|log| - 1], i)], log, first)
  {
    var m := log[|log| - 1];
    hide BlockCount, BlockOf, Framed;
    NextPrefix(Split(m), i);
    SeqAssoc(Framed(log[..|log| - 1]), Split(m)[..i], [BlockOf(m, i)]);
  }

  lemma NextPrefix(bs: seq<Block>, i: nat)
    requires i < |bs|
    ensures bs[..i + 1] == bs[..i] + [bs[i]]
  {}

  lemma SendRx(c: Conn, window: nat, t: nat)
    requires Inv(c, window) && Enabled(c, window, SendBlock(t))
    ensures var d := Next(c, window, SendBlock(t));
            RxOk(Part(d.rx), d.Next(), d.log, d.first, d.delivered) && BasesOk(d.rx.Base(), d.txBase, d.Next(), d.acks, window)
  {
    assert ThreadOk(c.threads[t], c.busy, c.Next(), c.log, c.first);
    hide TurnOk, LayoutOk, InboxOk, OkOk, BlockOf, Mex, Assembling;
  }

  lemma SendStep(c: Conn, window: nat, t: nat)
    requires Inv(c, window) && Enabled(c, window, SendBlock(t))
    ensures Inv(Next(c, window, SendBlock(t)), window)
  {
    hide TurnOk, LayoutOk, RxOk, InboxOk, BasesOk, OkOk;
    SendTurn(c, window, t);
    SendLayout(c, window, t);
    SendRx(c, window, t);
  }

  lemma ReturnStep(c: Conn, window: nat, t: nat)
    requires Inv(c, window) && Enabled(c, window, Return(t))
    ensures Inv(Next(c, window, Return(t)), window)
  {
    assert ThreadOk(c.threads[t], c.busy, c.Next(), c.log, c.first);
    hide RxOk, LayoutOk, InboxOk, BasesOk, BlockCount;
  }

  lemma AckSteps(c: Conn, window: nat, step: Step)
    requires Inv(c, window) && Enabled(c, window, step) && (step.EmitAck? || step.AckArrives?)
    ensures Inv(Next(c, window, step), window)
  {
    hide RxOk, LayoutOk, InboxOk, OkOk, BlockCount, Mex;
  }

  lemma ReceiveStep(c: Conn, window: nat)
    requires Inv(c, window) && Enabled(c, window, Receive)
    ensures Inv(Next(c, window, Receive), window)
  {
    assert Sum(c.rx.inbox) == |c.rx.inbox[0]| + Sum(c.rx.inbox[1..]);
    hide TurnOk, RxOk, LayoutOk, BasesOk, OkOk, Sum;
  }

  // ----- Reassembly -----

  /** Laying down one block of `m`: its bytes are in place, and no other byte of `m` is disturbed. */
  lemma LayBlock(asm: seq<byte>, m: seq<byte>, i: nat)
    requires i < BlockCount(m) && |asm| <= |m|
    ensures var b := BlockOf(m, i);
            var end := b.offset + |b.payload|;
            && end <= |m|
            && var after := Splice(Grown(asm, end), b.offset, b.payload);
               && |asm| <= |after| <= |m| && Placed(after, b)
               && forall o | 0 <= o < |asm| :: after[o] == asm[o] || after[o] == m[o]
  {
    BlockExtent(m, i);
    var b := BlockOf(m, i);
    var end := b.offset + |b.payload|;
    var after := Splice(Grown(asm, end), b.offset, b.payload);
    assert after[b.offset..end] == b.payload;
  }

  lemma PlacedStays(asm: seq<byte>, after: seq<byte>, m: seq<byte>, j: nat)
    requires j < BlockCount(m) && Placed(asm, BlockOf(m, j)) && |asm| <= |after| <= |m|
    requires forall o | 0 <= o < |asm| :: after[o] == asm[o] || after[o] == m[o]
    ensures Placed(after, BlockOf(m, j))
  {
    BlockExtent(m, j);
    var b := BlockOf(m, j);
    hide BlockOf, BlockCount;
    forall k | 0 <= k < |b.payload| ensures after[b.offset + k] == b.payload[k] {
      assert asm[b.offset + k] == asm[b.offset..b.offset + |b.payload|][k] == m[b.offset + k];
    }
    assert after[b.offset..b.offset + |b.payload|] == b.payload;
  }

  /** Once every block is in place the buffer is the message. */
  lemma AllPlaced(asm: seq<byte>, m: seq<byte>)
    requires |asm| <= |m| && forall i: nat | i < BlockCount(m) :: Placed(asm, BlockOf(m, i))
    ensures asm == m
  {
    var n := BlockCount(m) - 1;
    BlockExtent(m, n);
    assert Placed(asm, BlockOf(m, n));
    forall o | 0 <= o < |m| ensures asm[o] == m[o] {
      ByteInBlock(m, o);
      BlockExtent(m, o / BLOCK_SIZE);
      var b := BlockOf(m, o / BLOCK_SIZE);
      assert Placed(asm, b);
      hide BlockOf, BlockCount;
      assert asm[b.offset..b.offset + |b.payload|][o - b.offset] == m[b.offset..b.offset + |b.payload|][o - b.offset];
    }
  }

  /** A block of the message being assembled is admitted, before the completion check. */
  ghost predicate Joining(a: Assembly, m: seq<byte>, first: nat) {
    var last := first + BlockCount(m) - 1;
    && |a.asm| <= |m| && (a.asmEnd == if last in a.got then Some(last) else None)
    && a.asmTotal == (if last in a.got then |m| else 0)
    && forall i: nat | i < BlockCount(m) && first + i in a.got :: Placed(a.asm, BlockOf(m, i))
  }

  lemma AdmitPlaces(a: Assembly, m: seq<byte>, first: nat, i: nat, after: seq<byte>)
    requires Joining(a, m, first) && i < BlockCount(m) && |a.asm| <= |after| <= |m| && Placed(after, BlockOf(m, i))
    requires forall o | 0 <= o < |a.asm| :: after[o] == a.asm[o] || after[o] == m[o]
    ensures forall j: nat | j < BlockCount(m) && first + j in a.got + {first + i} :: Placed(after, BlockOf(m, j))
  {
    forall j: nat | j < BlockCount(m) && first + j in a.got + {first + i} ensures Placed(after, BlockOf(m, j)) {
      if j != i { PlacedStays(a.asm, after, m, j); }
    }
  }

  lemma AdmitJoins(rx: Inbound, m: seq<byte>, first: nat, i: nat, window: nat)
    requires Assembling(Part(rx), m, first) && |m| <= MAX_MESSAGE && i < BlockCount(m)
    requires first + i !in rx.got && first + i < rx.Base() + window
    ensures var after := Admitted(rx, first + i, BlockOf(m, i), window);
            && Joining(Part(after), m, first) && after.got == rx.got + {first + i}
            && after.inbox == rx.inbox && after.inboxBytes == rx.inboxBytes
  {
    LayBlock(rx.asm, m, i);
    BlockExtent(m, i);
    var b := BlockOf(m, i);
    var end := b.offset + |b.payload|;
    var laid := Splice(Grown(rx.asm, end), b.offset, b.payload);
    AdmitPlaces(Part(rx), m, first, i, laid);
    hide BlockOf, BlockCount, Placed, Splice, Grown, Mex;
  }

  /** A whole message is the message sent. */
  lemma WholeIsMessage(rx: Inbound, m: seq<byte>, first: nat)
    requires Joining(Part(rx), m, first) && first <= rx.Base() && Whole(rx)
    ensures Completed(rx) == rx.(asm := [], asmEnd := None, asmTotal := 0, inbox := rx.inbox + [m], inboxBytes := rx.inboxBytes + |m|)
  {
    var last := first + BlockCount(m) - 1;
    forall i: nat | i < BlockCount(m) ensures Placed(rx.asm, BlockOf(m, i)) { assert first + i in rx.got; }
    AllPlaced(rx.asm, m);
    hide BlockOf, BlockCount, Placed, Mex;
    assert Grown(rx.asm, rx.asmTotal)[..rx.asmTotal] == m;
  }

  lemma NotWholeAssembles(rx: Inbound, m: seq<byte>, first: nat)
    requires Joining(Part(rx), m, first) && first <= rx.Base() && !Whole(rx)
    ensures Assembling(Part(rx), m, first)
  {
    var last := first + BlockCount(m) - 1;
    if last !in rx.got { MexAtMost(rx.got, last); }
    hide BlockOf, BlockCount, Placed, Mex;
  }

  lemma {:induction false} SumAppend(q: seq<seq<byte>>, m: seq<byte>)
    ensures Sum(q + [m]) == Sum(q) + |m|
  {
    if q == [] {
      assert q + [m] == [m] && [m][1..] == [];
    } else {
      assert (q + [m])[1..] == q[1..] + [m];
      SumAppend(q[1..], m);
    }
  }

  /** A block that brings nothing new leaves the receiver as it is. */
  lemma ArriveOld(c: Conn, window: nat, s: nat)
    requires Inv(c, window) && s < c.Next() && (s in c.rx.got || c.rx.inboxBytes >= MAX_INBOX)
    ensures Arrived(c, window, s) == c
  {
    hide TurnOk, LayoutOk, InboxOk, OkOk, Mex, BlockOf, Placed;
  }

  /** Number `s` is a block of `m`, the one message not delivered yet, and fits the window. */
  ghost predicate Expected(c: Conn, window: nat, m: seq<byte>, s: nat) {
    && s < c.Next() <= c.first + BlockCount(m) && c.first <= s && |m| <= MAX_MESSAGE
    && c.blocks[s] == BlockOf(m, s - c.first) && s < c.rx.Base() + window && c.first <= c.rx.Base()
    && c.log == c.delivered + [m] && Assembling(Part(c.rx), m, c.first) && forall t <- c.rx.got :: t < c.Next()
  }

  lemma LastUndelivered(log: seq<seq<byte>>, delivered: seq<seq<byte>>)
    requires delivered <= log && |log| == |delivered| + 1
    ensures log == delivered + [log[|log| - 1]]
  {}

  /** A number the window lacks can only be such a block. */
  lemma NewIsExpected(c: Conn, window: nat, s: nat)
    requires Inv(c, window) && s < c.Next() && s !in c.rx.got
    ensures c.log != [] && Expected(c, window, c.log[|c.log| - 1], s)
  {
    MexAtMost(c.rx.got, s);
    hide TurnOk, InboxOk, OkOk, Mex, BlockOf, Framed, BlockCount, Assembling;
    assert |c.delivered| < |c.log|;
    LastUndelivered(c.log, c.delivered);
    CurrentBounds(c, window);
  }

  lemma CurrentBounds(c: Conn, window: nat)
    requires Inv(c, window) && |c.delivered| < |c.log|
    ensures c.first <= c.rx.Base()
  {
    hide TurnOk, LayoutOk, InboxOk, OkOk, Mex, BlockOf;
  }

  /** Only the receiving half changes. */
  lemma ReceiverFrame(c: Conn, window: nat, d: Conn)
    requires Inv(c, window) && d == c.(rx := d.rx, delivered := d.delivered)
    requires RxOk(Part(d.rx), d.Next(), d.log, d.first, d.delivered) && InboxOk(d.rx.inbox, d.rx.inboxBytes, d.delivered)
    requires c.rx.Base() <= d.rx.Base()
    ensures Inv(d, window)
  {
    hide TurnOk, LayoutOk, RxOk, InboxOk, OkOk, Mex;
  }

  /** The last missing block: the message is whole, and everything sent has now been delivered. */
  lemma CompletedRx(a: Assembly, next: nat, log: seq<seq<byte>>, first: nat, delivered: seq<seq<byte>>)
    requires log != [] && log == delivered + [log[|log| - 1]] && forall s <- a.got :: s < next
    requires var last := first + BlockCount(log[|log| - 1]) - 1; last in a.got && Mex(a.got) > last && next <= last + 1
    ensures RxOk(Assembly(a.got, [], None, 0), next, log, first, log)
  {
    assert Mex(a.got) > next ==> next in a.got;
    hide Mex, BlockCount;
  }

  lemma InboxPush(inbox: seq<seq<byte>>, bytes: nat, delivered: seq<seq<byte>>, m: seq<byte>)
    requires InboxOk(inbox, bytes, delivered) && bytes < MAX_INBOX && |m| <= MAX_MESSAGE
    ensures InboxOk(inbox + [m], bytes + |m|, delivered + [m])
  {
    SumAppend(inbox, m);
    hide Sum;
  }

  lemma ArriveCompletes(c: Conn, window: nat, m: seq<byte>, s: nat, rx: Inbound)
    requires Inv(c, window) && c.rx.inboxBytes < MAX_INBOX && Expected(c, window, m, s)
    requires rx == Admitted(c.rx, s, c.blocks[s], window) && Whole(rx) && Joining(Part(rx), m, c.first)
    requires rx.got == c.rx.got + {s} && rx.inbox == c.rx.inbox && rx.inboxBytes == c.rx.inboxBytes && c.rx.Base() <= rx.Base()
    ensures Inv(Arrived(c, window, s), window)
  {
    hide TurnOk, LayoutOk, RxOk, Assembling, BlockCount, OkOk, BasesOk, InboxOk, Mex, Admitted, BlockOf;
    WholeIsMessage(rx, m, c.first);
    assert c.log[|c.log| - 1] == m;
    CompletedRx(Part(rx), c.Next(), c.log, c.first, c.delivered);
    InboxPush(c.rx.inbox, c.rx.inboxBytes, c.delivered, m);
    hide Joining, Completed;
    var d := Arrived(c, window, s);
    assert d == c.(rx := d.rx, delivered := c.delivered + [m]);
    ReceiverFrame(c, window, d);
  }

  /** Not whole yet: one more block in place. */
  lemma ArriveJoins(c: Conn, window: nat, m: seq<byte>, s: nat, rx: Inbound)
    requires Inv(c, window) && c.rx.inboxBytes < MAX_INBOX && Expected(c, window, m, s)
    requires rx == Admitted(c.rx, s, c.blocks[s], window) && !Whole(rx) && Joining(Part(rx), m, c.first)
    requires rx.got == c.rx.got + {s} && rx.inbox == c.rx.inbox && rx.inboxBytes == c.rx.inboxBytes && c.rx.Base() <= rx.Base()
    ensures Inv(Arrived(c, window, s), window)
  {
    hide TurnOk, LayoutOk, Assembling, BlockCount, OkOk, BasesOk, InboxOk, Mex, Admitted, BlockOf;
    NotWholeAssembles(rx, m, c.first);
    hide Joining;
    var d := Arrived(c, window, s);
    assert d == c.(rx := rx);
    ReceiverFrame(c, window, d);
  }

  lemma ArriveNew(c: Conn, window: nat, s: nat)
    requires Inv(c, window) && s < c.Next() && s !in c.rx.got && c.rx.inboxBytes < MAX_INBOX
    ensures Inv(Arrived(c, window, s), window)
  {
    hide Inv, Assembling, Joining, Mex, Admitted, BlockOf, BlockCount;
    NewIsExpected(c, window, s);
    var m := c.log[|c.log| - 1];
    AdmitJoins(c.rx, m, c.first, s - c.first, window);
    var rx := Admitted(c.rx, s, c.blocks[s], window);
    MexMonotone(c.rx.got, rx.got);
    if Whole(rx) { ArriveCompletes(c, window, m, s, rx); } else { ArriveJoins(c, window, m, s, rx); }
  }

  lemma StepKeepsInv(c: Conn, window: nat, step: Step)
    requires Inv(c, window) && Enabled(c, window, step)
    ensures Inv(Next(c, window, step), window)
  {
    hide Inv;
    match step
    case Call(t, msg) => CallStep(c, window, t, msg);
    case Acquire(t) => AcquireStep(c, window, t);
    case SendBlock(t) => SendStep(c, window, t);
    case Return(t) => ReturnStep(c, window, t);
    case Arrive(s) =>
      if s in c.rx.got || c.rx.inboxBytes >= MAX_INBOX { ArriveOld(c, window, s); } else { ArriveNew(c, window, s); }
    case EmitAck => AckSteps(c, window, step);
    case AckArrives(_) => AckSteps(c, window, step);
    case Receive => ReceiveStep(c, window);
  }

  // ----- Every run -----

  ghost predicate Leads(c: Conn, window: nat, steps: seq<Step>, end: Conn)
    decreases |steps|
  {
    if steps == [] then c == end
    else Enabled(c, window, steps[0]) && Leads(Next(c, window, steps[0]), window, steps[1..], end)
  }

  lemma {:induction false} RunKeepsInv(c: Conn, window: nat, steps: seq<Step>, end: Conn)
    requires Inv(c, window) && Leads(c, window, steps, end)
    ensures Inv(end, window)
    decreases |steps|
  {
    if steps != [] {
      hide Inv, Enabled, Next;
      StepKeepsInv(c, window, steps[0]);
      RunKeepsInv(Next(c, window, steps[0]), window, steps[1..], end);
    }
  }

  /**
   Message boundaries, in every run of any number of sending threads over a network that loses,
   repeats and reorders: blocks of different messages never interleave in sequence space; what has
   entered the inbox, over all time, is exactly the messages sent, whole and in order, but for
   at most the one still in transit; and every send that returned is among them.
   */
  lemma MessagesArriveWhole(window: nat, steps: seq<Step>, c: Conn)
    requires Leads(FRESH, window, steps, c)
    ensures c.blocks <= Framed(c.log)
    ensures c.delivered <= c.log && |c.log| <= |c.delivered| + 1
    ensures c.ok <= c.delivered
  {
    FreshInv(window);
    RunKeepsInv(FRESH, window, steps, c);
    LayoutIsPrefix(c.blocks, c.log, c.first);
    OkIsDelivered(c, window);
    hide TurnOk, LayoutOk, InboxOk, Assembling;
  }

  lemma LayoutIsPrefix(blocks: seq<Block>, log: seq<seq<byte>>, first: nat)
    requires LayoutOk(blocks, log, first)
    ensures blocks <= Framed(log)
  {
    if log != [] {
      var n, m := |log| - 1, log[|log| - 1];
      assert Framed(log) == Framed(log[..n]) + Split(m);
      hide Framed, Split;
      assert Split(m) == Split(m)[..|blocks| - first] + Split(m)[|blocks| - first..];
    }
  }

  lemma OkIsDelivered(c: Conn, window: nat)
    requires Inv(c, window)
    ensures c.ok <= c.delivered
  {
    if !c.busy { GateOpenMeansDelivered(c, window); }
    hide LayoutOk, InboxOk, Assembling, Mex;
  }

  /** The inbox's byte count is the sum of what is queued, and is bounded whatever the reader does. */
  lemma InboxIsBounded(window: nat, steps: seq<Step>, c: Conn)
    requires Leads(FRESH, window, steps, c)
    ensures c.rx.inboxBytes == Sum(c.rx.inbox) < MAX_INBOX + MAX_MESSAGE
    ensures |c.rx.inbox| <= |c.delivered| && c.rx.inbox == c.delivered[|c.delivered| - |c.rx.inbox|..]
  {
    FreshInv(window);
    RunKeepsInv(FRESH, window, steps, c);
    hide TurnOk, LayoutOk, RxOk;
  }

  // ----- The connection as it runs -----

  /** The block loop of `fuse_send`, without its waits. */
  method CutMessage(msg: seq<byte>) returns (blocks: seq<Block>)
    ensures blocks == Split(msg)
  {
    var n := if |msg| == 0 then 1 else (|msg| + BLOCK_SIZE - 1) / BLOCK_SIZE;
    blocks := [];
    for i := 0 to n
      invariant |blocks| == i && n == BlockCount(msg)
      invariant forall k | 0 <= k < i :: blocks[k] == BlockOf(msg, k)
    {
      hide BlockCount;
      var off := i * BLOCK_SIZE;
      BlockExtent(msg, i);
      var len := Min(BLOCK_SIZE, |msg| - Min(off, |msg|));
      blocks := blocks + [Block(off, msg[off..off + len], i + 1 == n)];
    }
  }

  datatype Status = Ok | NothingQueued | BufferTooSmall

  /** The receiving half of `fuse_conn`, on top of the real receive window. */
  class FuseConn {
    const rx: ReceiverStream
    var asm: seq<byte>
    var asmEnd: Option<nat>
    var asmTotal: nat
    var inbox: seq<seq<byte>>
    var inboxBytes: nat

    ghost function View(): Inbound
      reads this, rx
    {
      Inbound(rx.view.got, asm, asmEnd, asmTotal, inbox, inboxBytes)
    }

    ghost predicate Valid()
      reads this, rx, rx.ring, rx.firstMissing, rx.lastNack
    {
      rx.Valid() && inboxBytes == Sum(inbox)
    }

    constructor (lane: nat, window: nat)
      ensures Valid() && View() == FRESH.rx && fresh(rx) && fresh(rx.ring) && fresh(rx.firstMissing) && fresh(rx.lastNack)
    {
      rx := new ReceiverStream(lane, window, true);
      asm, asmEnd, asmTotal, inbox, inboxBytes := [], None, 0, [], 0;
    }

    /** `handle_data_locked` on an authentic block. */
    method HandleData(s: nat, b: Block, sendTime: nat, now: uint64)
      requires Valid()
      modifies this, rx, rx.ring, rx.firstMissing, rx.lastNack
      ensures Valid() && View() == Handled(old(View()), s, b, rx.windowSize)
    {
      if inboxBytes >= MAX_INBOX { return; }
      ghost var before := View();
      hide Mex, Sum;
      var verdict := rx.OnReceive(s, sendTime, now);
      if verdict == Accepted && b.offset <= MAX_MESSAGE && |b.payload| <= MAX_MESSAGE - b.offset {
        var end := b.offset + |b.payload|;
        asm := Splice(Grown(asm, end), b.offset, b.payload);
        if b.last { asmEnd, asmTotal := Some(s), end; }
      }
      assert View() == Admitted(before, s, b, rx.windowSize);
      Complete();
    }

    /** The message is whole once the window's base has passed its last block. */
    method Complete()
      requires Valid()
      modifies this
      ensures Valid() && View() == Completed(old(View()))
    {
      hide Mex;
      if asmEnd.Some? && rx.base > asmEnd.value {
        var msg := Grown(asm, asmTotal)[..asmTotal];
        SumAppend(inbox, msg);
        inboxBytes := inboxBytes + |msg|;
        inbox := inbox + [msg];
        asm, asmEnd, asmTotal := [], None, 0;
      }
    }

    /** `fuse_recv` once a message is queued: a buffer too small leaves it queued. */
    method Receive(cap: nat) returns (status: Status, msg: seq<byte>)
      requires Valid()
      modifies this
      ensures Valid() && Part(View()) == old(Part(View()))
      ensures status == if old(inbox) == [] then NothingQueued else if |old(inbox)[0]| > cap then BufferTooSmall else Ok
      ensures if status == Ok then inbox == old(inbox)[1..] && msg == old(inbox)[0] && inboxBytes == old(inboxBytes) - |msg|
              else inbox == old(inbox) && inboxBytes == old(inboxBytes)
    {
      msg := [];
      if inbox == [] { return NothingQueued, msg; }
      if |inbox[0]| > cap { return BufferTooSmall, msg; }
      msg := inbox[0];
      inboxBytes := inboxBytes - |msg|;
      inbox := inbox[1..];
      status := Ok;
    }
  }
}
