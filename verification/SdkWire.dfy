/**
 What an SDK connection puts on the wire (sdk.cpp): first copies, and resends rebuilt from the
 registry and from `tx_meta`, the ring of offsets and flags beside it. A resend is always the block
 first sent, so the connection of `Sdk`, which takes it for that, loses nothing; and exactly when
 two transmissions of one number are given the same associated data.
 */
module SdkWire {
  import opened Word64
  import opened Basics
  import opened ReceiverWindow
  import opened Wire
  import opened Registry
  import opened Sdk
  import Modular

  const FLAG_RETRANSMISSION: nat := 1
  const FLAG_LAST_BLOCK: nat := 2

  datatype Dgram = Dgram(s: nat, offset: nat, payload: seq<byte>, flags: byte)
  {
    predicate IsLast() { And(flags, FLAG_LAST_BLOCK) != 0 }
    predicate IsResend() { And(flags, FLAG_RETRANSMISSION) != 0 }

    /** What the receiver makes of it. */
    function Carried(): Block { Block(offset, payload, IsLast()) }
  }

  datatype Meta = Meta(offset: nat, flags: byte)

  /** A connection with its registry, its `tx_meta`, and every datagram it ever sent. */
  datatype Wired = Wired(c: Conn, ring: seq<Entry>, meta: seq<Meta>, sent: set<Dgram>)

  datatype Act =
    | Other(step: Step)       // anything but an arrival
    | Resend(s: nat)          // `retransmit_locked`, for any number
    | Deliver(dg: Dgram)      // any datagram ever sent, any number of times, in any order

  function FlagsOf(b: Block): byte { if b.last then FLAG_LAST_BLOCK else 0 }

  function MetaOf(b: Block): Meta { Meta(b.offset, FlagsOf(b)) }

  function FirstCopy(s: nat, b: Block): Dgram { Dgram(s, b.offset, b.payload, FlagsOf(b)) }

  function Marked(flags: byte): byte
    requires flags == 0 || flags == FLAG_LAST_BLOCK
  {
    assert Or(0, 1) == 1 && Or(2, 1) == 3;
    Or(flags, FLAG_RETRANSMISSION)
  }

  function Begin(window: nat): Wired { Wired(FRESH, seq(window, _ => VACANT), seq(window, _ => Meta(0, 0)), {}) }

  ghost predicate Shaped(w: Wired, window: nat) {
    window >= 1 && |w.ring| == |w.meta| == window && forall i | 0 <= i < window :: w.meta[i].flags == 0 || w.meta[i].flags == FLAG_LAST_BLOCK
  }

  ghost predicate Enabled(w: Wired, window: nat, a: Act) {
    && Shaped(w, window)
    && match a
       case Other(step) => !step.Arrive? && Sdk.Enabled(w.c, window, step)
       case Resend(s) => true
       case Deliver(dg) => dg in w.sent
  }

  ghost function Next(w: Wired, window: nat, a: Act): Wired
    requires Enabled(w, window, a)
  {
    match a
    case Other(step) =>
      var c := Sdk.Next(w.c, window, step);
      if step.SendBlock? then
        var s, b := w.c.Next(), c.blocks[w.c.Next()];
        Wired(c, w.ring[s % window := Entry(s, 0, b.offset, b.payload, 0, true)], w.meta[s % window := MetaOf(b)], w.sent + {FirstCopy(s, b)})
      else if step.AckArrives? then w.(c := c, ring := Freed(w.ring, Span(w.c.txBase, c.txBase)))
      else w.(c := c)
    case Resend(s) =>
      if Find(w.ring, s).None? then w
      else
        var m := w.meta[s % window];
        w.(sent := w.sent + {Dgram(s, m.offset, Find(w.ring, s).value.payload, Marked(m.flags))})
    case Deliver(dg) => w.(c := Delivered(w.c, window, dg.s, dg.Carried()))
  }

  // ----- What every act keeps -----

  /** A valid slot and the meta beside it are those of the block sent under its number. */
  ghost predicate SlotOk(blocks: seq<Block>, e: Entry, m: Meta, i: nat, window: nat)
    requires window >= 1
  {
    e.valid ==> e.s % window == i && e.s < |blocks| && e.payload == blocks[e.s].payload && m == MetaOf(blocks[e.s])
  }

  ghost predicate SlotsOk(blocks: seq<Block>, ring: seq<Entry>, meta: seq<Meta>) {
    |ring| == |meta| >= 1 && forall i | 0 <= i < |ring| :: SlotOk(blocks, ring[i], meta[i], i, |ring|)
  }

  /** Whatever is not acknowledged can be resent. */
  ghost predicate HeldOk(ring: seq<Entry>, base: nat, next: nat) {
    |ring| >= 1 && next <= base + |ring| && forall s: nat | base <= s < next :: Find(ring, s).Some?
  }

  /** `dg` is a first copy or a resend of the block sent under its number. */
  ghost predicate Genuine(blocks: seq<Block>, dg: Dgram) {
    && dg.s < |blocks| && dg.offset == blocks[dg.s].offset && dg.payload == blocks[dg.s].payload
    && (dg.flags == FlagsOf(blocks[dg.s]) || dg.flags == Marked(FlagsOf(blocks[dg.s])))
  }

  ghost predicate Inv(w: Wired, window: nat) {
    && Shaped(w, window) && Sdk.Inv(w.c, window) && SlotsOk(w.c.blocks, w.ring, w.meta)
    && HeldOk(w.ring, w.c.txBase, w.c.Next()) && forall dg <- w.sent :: Genuine(w.c.blocks, dg)
  }

  /** The flags that occur, and what the receiver reads from them. */
  lemma FlagBits(b: Block)
    ensures var plain, marked := FlagsOf(b), Marked(FlagsOf(b));
            && marked == plain + 1
            && (And(plain, FLAG_LAST_BLOCK) != 0 <==> b.last) && (And(marked, FLAG_LAST_BLOCK) != 0 <==> b.last)
            && And(plain, FLAG_RETRANSMISSION) == 0 && And(marked, FLAG_RETRANSMISSION) != 0
            && And(plain, 254) == And(marked, 254) == plain
  {
    assert Or(0, 1) == 1 && Or(2, 1) == 3;
    assert And(0, 63) == 0 && And(0, 127) == 0 && And(1, 127) == 1 && And(1, 254) == 0 && And(2, 254) == 2 && And(3, 254) == 2;
    assert And(1, 2) == 0 && And(2, 2) == 2 && And(3, 2) == 2 && And(1, 1) == 1 && And(2, 1) == 0 && And(3, 1) == 1;
  }

  lemma GenuineCarries(blocks: seq<Block>, dg: Dgram)
    requires Genuine(blocks, dg)
    ensures dg.Carried() == blocks[dg.s]
  {
    FlagBits(blocks[dg.s]);
  }

  lemma BeginInv(window: nat)
    requires window >= 1
    ensures Inv(Begin(window), window)
  {
    FreshInv(window);
    hide Sdk.Inv;
  }

  lemma SendKeepsSlots(blocks: seq<Block>, ring: seq<Entry>, meta: seq<Meta>, b: Block)
    requires SlotsOk(blocks, ring, meta)
    ensures var s := |blocks|;
            SlotsOk(blocks + [b], ring[s % |ring| := Entry(s, 0, b.offset, b.payload, 0, true)], meta[s % |ring| := MetaOf(b)])
  {
    var s, n := |blocks|, |ring|;
    var ring', meta' := ring[s % n := Entry(s, 0, b.offset, b.payload, 0, true)], meta[s % n := MetaOf(b)];
    forall i | 0 <= i < n ensures SlotOk(blocks + [b], ring'[i], meta'[i], i, n) { assert SlotOk(blocks, ring[i], meta[i], i, n); }
  }

  lemma SendKeepsHeld(ring: seq<Entry>, base: nat, next: nat, e: Entry)
    requires HeldOk(ring, base, next) && next < base + |ring| && e.valid && e.s == next
    ensures HeldOk(ring[next % |ring| := e], base, next + 1)
  {
    var after := ring[next % |ring| := e];
    forall s: nat | base <= s < next + 1 ensures Find(after, s).Some? {
      if s < next {
        assert Find(ring, s).Some?;
        if s % |ring| == next % |ring| { Modular.SameSlot(s, next, |ring|); }
      }
    }
  }

  lemma AckKeeps(blocks: seq<Block>, ring: seq<Entry>, meta: seq<Meta>, base: nat, base': nat, next: nat)
    requires SlotsOk(blocks, ring, meta) && HeldOk(ring, base, next) && base <= base' <= next
    ensures SlotsOk(blocks, Freed(ring, Span(base, base')), meta) && HeldOk(Freed(ring, Span(base, base')), base', next)
  {
    var ring' := Freed(ring, Span(base, base'));
    forall i | 0 <= i < |ring| ensures SlotOk(blocks, ring'[i], meta[i], i, |ring|) { assert SlotOk(blocks, ring[i], meta[i], i, |ring|); }
    forall s: nat | base' <= s < next ensures Find(ring', s).Some? { assert Find(ring, s).Some?; }
  }

  lemma GenuineStays(blocks: seq<Block>, more: seq<Block>, dg: Dgram)
    requires Genuine(blocks, dg) && blocks <= more
    ensures Genuine(more, dg)
  {}

  /** The connection's own step that an act is, if it is one. */
  ghost function Shown(w: Wired, window: nat, a: Act): seq<Step>
    requires Enabled(w, window, a)
  {
    match a
    case Other(step) => [step]
    case Resend(_) => []
    case Deliver(dg) => [Arrive(dg.s)]
  }

  lemma ResendIsGenuine(w: Wired, window: nat, s: nat)
    requires Inv(w, window) && Find(w.ring, s).Some?
    ensures var m := w.meta[s % window]; Genuine(w.c.blocks, Dgram(s, m.offset, Find(w.ring, s).value.payload, Marked(m.flags)))
  {
    assert SlotOk(w.c.blocks, w.ring[s % window], w.meta[s % window], s % window, window);
    hide Sdk.Inv, Marked;
  }

  lemma ResendAct(w: Wired, window: nat, s: nat)
    requires Inv(w, window) && Enabled(w, window, Resend(s))
    ensures Inv(Next(w, window, Resend(s)), window)
  {
    hide Sdk.Inv, SlotsOk, HeldOk, Genuine, Find;
    if Find(w.ring, s).Some? { ResendIsGenuine(w, window, s); }
  }

  lemma ConnGrows(c: Conn, window: nat, step: Step)
    requires Sdk.Enabled(c, window, step) && Sdk.Inv(c, window)
    ensures var d := Sdk.Next(c, window, step);
            && (if step.SendBlock? then |d.blocks| == c.Next() + 1 && d.blocks == c.blocks + [d.blocks[c.Next()]] else d.blocks == c.blocks)
            && (if step.AckArrives? then c.txBase <= d.txBase <= c.Next() else d.txBase == c.txBase)
            && (step.SendBlock? ==> c.Next() < c.txBase + window)
  {
    assert c.rx.Base() > c.Next() ==> c.Next() in c.rx.got;
    assert c.txBase <= c.Next();
    hide Sdk.Inv, Handled;
  }

  /** The parts of the invariant that look at what was sent. */
  ghost predicate WireOk(blocks: seq<Block>, ring: seq<Entry>, meta: seq<Meta>, sent: set<Dgram>, base: nat) {
    SlotsOk(blocks, ring, meta) && HeldOk(ring, base, |blocks|) && forall dg <- sent :: Genuine(blocks, dg)
  }

  lemma SendKeepsWire(blocks: seq<Block>, ring: seq<Entry>, meta: seq<Meta>, sent: set<Dgram>, base: nat, b: Block)
    requires WireOk(blocks, ring, meta, sent, base) && |blocks| < base + |ring|
    ensures var s := |blocks|;
            WireOk(blocks + [b], ring[s % |ring| := Entry(s, 0, b.offset, b.payload, 0, true)], meta[s % |ring| := MetaOf(b)], sent + {FirstCopy(s, b)}, base)
  {
    hide SlotsOk, HeldOk, Genuine;
    var s := |blocks|;
    SlotsShape(blocks, ring, meta);
    SendKeepsSlots(blocks, ring, meta, b);
    SendKeepsHeld(ring, base, s, Entry(s, 0, b.offset, b.payload, 0, true));
    FirstIsGenuine(blocks + [b], s);
    forall dg <- sent ensures Genuine(blocks + [b], dg) { GenuineStays(blocks, blocks + [b], dg); }
  }

  lemma SlotsShape(blocks: seq<Block>, ring: seq<Entry>, meta: seq<Meta>)
    requires SlotsOk(blocks, ring, meta)
    ensures |ring| == |meta| >= 1
  {}

  lemma OtherAct(w: Wired, window: nat, step: Step)
    requires Inv(w, window) && Enabled(w, window, Other(step))
    ensures Inv(Next(w, window, Other(step)), window)
  {
    hide Sdk.Inv, Sdk.Next, Sdk.Enabled, SlotsOk, HeldOk, Genuine, Freed, Span;
    StepKeepsInv(w.c, window, step);
    ConnGrows(w.c, window, step);
    var after := Next(w, window, Other(step));
    var s := w.c.Next();
    assert WireOk(w.c.blocks, w.ring, w.meta, w.sent, w.c.txBase);
    if step.SendBlock? {
      SendKeepsWire(w.c.blocks, w.ring, w.meta, w.sent, w.c.txBase, after.c.blocks[s]);
    } else if step.AckArrives? {
      AckKeeps(w.c.blocks, w.ring, w.meta, w.c.txBase, after.c.txBase, s);
    }
    assert WireOk(after.c.blocks, after.ring, after.meta, after.sent, after.c.txBase);
  }

  lemma FirstIsGenuine(blocks: seq<Block>, s: nat)
    requires s < |blocks|
    ensures Genuine(blocks, FirstCopy(s, blocks[s]))
  {}

  /** Every act keeps the invariant, and is the step of the connection that `Sdk` takes it for. */
  lemma ActRefines(w: Wired, window: nat, a: Act)
    requires Inv(w, window) && Enabled(w, window, a)
    ensures Inv(Next(w, window, a), window)
    ensures Sdk.Leads(w.c, window, Shown(w, window, a), Next(w, window, a).c)
  {
    match a
    case Other(step) =>
      OtherAct(w, window, step);
      assert [step][1..] == [];
      hide Inv, Sdk.Next, Sdk.Enabled;
    case Resend(s) => ResendAct(w, window, s);
    case Deliver(dg) =>
      GenuineCarries(w.c.blocks, dg);
      StepKeepsInv(w.c, window, Arrive(dg.s));
      assert [Arrive(dg.s)][1..] == [];
      hide Sdk.Inv, Handled;
  }

  ghost predicate Leads(w: Wired, window: nat, run: seq<Act>, end: Wired)
    decreases |run|
  {
    if run == [] then w == end else Enabled(w, window, run[0]) && Leads(Next(w, window, run[0]), window, run[1..], end)
  }

  ghost function AllShown(w: Wired, window: nat, run: seq<Act>): seq<Step>
    decreases |run|
  {
    if run == [] || !Enabled(w, window, run[0]) then []
    else Shown(w, window, run[0]) + AllShown(Next(w, window, run[0]), window, run[1..])
  }

  lemma {:induction false} LeadsJoin(c: Conn, window: nat, a: seq<Step>, mid: Conn, b: seq<Step>, end: Conn)
    requires Sdk.Leads(c, window, a, mid) && Sdk.Leads(mid, window, b, end)
    ensures Sdk.Leads(c, window, a + b, end)
    decreases |a|
  {
    hide Sdk.Enabled, Sdk.Next;
    if a == [] {
      assert a + b == b;
    } else {
      assert (a + b)[1..] == a[1..] + b;
      LeadsJoin(Sdk.Next(c, window, a[0]), window, a[1..], mid, b, end);
    }
  }

  lemma {:induction false} RunRefines(w: Wired, window: nat, run: seq<Act>, end: Wired)
    requires Inv(w, window) && Leads(w, window, run, end)
    ensures Inv(end, window) && Sdk.Leads(w.c, window, AllShown(w, window, run), end.c)
    decreases |run|
  {
    hide Inv, Enabled, Next, Shown, Sdk.Leads;
    if run == [] {
      NoSteps(w.c, window);
    } else {
      var mid := Next(w, window, run[0]);
      ActRefines(w, window, run[0]);
      RunRefines(mid, window, run[1..], end);
      LeadsJoin(w.c, window, Shown(w, window, run[0]), mid.c, AllShown(mid, window, run[1..]), end.c);
    }
  }

  lemma NoSteps(c: Conn, window: nat)
    ensures Sdk.Leads(c, window, [], c)
  {}

  /**
   In every run the wire carries nothing but the blocks sent: whatever was resent, from registry and
   `tx_meta` and however late, is the block first sent under its number. So messages arrive whole as
   `Sdk.MessagesArriveWhole` says, and any number not acknowledged can be resent.
   */
  lemma ResendsAreTheBlocks(window: nat, run: seq<Act>, w: Wired)
    requires window >= 1 && Leads(Begin(window), window, run, w)
    ensures forall dg <- w.sent :: dg.s < |w.c.blocks| && dg.Carried() == w.c.blocks[dg.s]
    ensures |w.ring| >= 1 && forall s: nat | w.c.txBase <= s < w.c.Next() :: Find(w.ring, s).Some?
    ensures Sdk.Leads(FRESH, window, AllShown(Begin(window), window, run), w.c)
    ensures w.c.blocks <= Framed(w.c.log) && w.c.delivered <= w.c.log && |w.c.log| <= |w.c.delivered| + 1 && w.c.ok <= w.c.delivered
  {
    BeginInv(window);
    RunRefines(Begin(window), window, run, w);
    MessagesArriveWhole(window, AllShown(Begin(window), window, run), w.c);
    hide Sdk.Inv, SlotsOk, Leads, Sdk.Leads, Find;
    forall dg <- w.sent ensures dg.s < |w.c.blocks| && dg.Carried() == w.c.blocks[dg.s] { GenuineCarries(w.c.blocks, dg); }
  }

  // ----- Associated data -----

  /** `build_aad`: transfer.cpp masks the retransmission bit, sdk.cpp does not. */
  function Aad(masked: bool, lane: nat, dg: Dgram): seq<byte> {
    Be(2, lane) + Be(8, dg.s) + Be(8, dg.offset) + Be(1, if masked then And(dg.flags, 255 - FLAG_RETRANSMISSION) else dg.flags)
  }

  lemma LastByte(a: seq<byte>, x: byte, y: byte)
    ensures a + Be(1, x) == a + Be(1, y) <==> x == y
  {
    assert (a + Be(1, x))[|a|] == Be(1, x)[0] == x && (a + Be(1, y))[|a|] == Be(1, y)[0] == y;
  }

  /**
   In every run, two transmissions of one number have the same offset, payload and last-block mark;
   they are given the same associated data exactly if both or neither are resends, or if the
   retransmission bit is masked. (Key and nonce depend on lane and number alone.)
   */
  lemma SameAssociatedData(window: nat, run: seq<Act>, w: Wired, masked: bool, lane: nat, a: Dgram, b: Dgram)
    requires window >= 1 && Leads(Begin(window), window, run, w)
    requires a in w.sent && b in w.sent && a.s == b.s
    ensures a.Carried() == b.Carried()
    ensures Aad(masked, lane, a) == Aad(masked, lane, b) <==> masked || (a.IsResend() <==> b.IsResend())
  {
    BeginInv(window);
    RunRefines(Begin(window), window, run, w);
    assert Genuine(w.c.blocks, a) && Genuine(w.c.blocks, b);
    hide Inv, Leads;
    GenuineCarries(w.c.blocks, a);
    GenuineCarries(w.c.blocks, b);
    FlagBits(w.c.blocks[a.s]);
    hide Be, And, Or;
    LastByte(Be(2, lane) + Be(8, a.s) + Be(8, a.offset), if masked then And(a.flags, 254) else a.flags, if masked then And(b.flags, 254) else b.flags);
  }

  /** The first copy of an empty message's block and its resend: one number, two associated data. */
  lemma FirstResendDiffers(window: nat, lane: nat) returns (run: seq<Act>, w: Wired, a: Dgram, b: Dgram)
    requires window >= 1
    ensures Leads(Begin(window), window, run, w) && a in w.sent && b in w.sent && a.s == b.s == 0
    ensures Aad(false, lane, a) != Aad(false, lane, b) && Aad(true, lane, a) == Aad(true, lane, b)
  {
    var w0 := Begin(window);
    var w1 := Next(w0, window, Other(Call(0, [])));
    var w2 := Next(w1, window, Other(Acquire(0)));
    var w3 := Next(w2, window, Other(SendBlock(0)));
    w := Next(w3, window, Resend(0));
    run := [Other(Call(0, [])), Other(Acquire(0)), Other(SendBlock(0)), Resend(0)];
    a, b := FirstCopy(0, BlockOf([], 0)), Dgram(0, 0, [], Marked(FlagsOf(BlockOf([], 0))));
    assert run[1..] == [Other(Acquire(0)), Other(SendBlock(0)), Resend(0)] && run[1..][1..] == [Other(SendBlock(0)), Resend(0)];
    assert [Other(SendBlock(0)), Resend(0)][1..] == [Resend(0)] && [Resend(0)][1..] == [];
    FlagBits(BlockOf([], 0));
    hide Be, And, Or;
    SameAssociatedData(window, run, w, false, lane, a, b);
    SameAssociatedData(window, run, w, true, lane, a, b);
  }
}
