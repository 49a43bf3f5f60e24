/**
 Reassembly (reassembly.cpp) in its two modes. The unordered mode keeps a ring of bits, the
 ordered one a ring of slots and a drain loop; both are shown to be the same thing, a set of
 accepted numbers and the bytes written, and differ only in when a block is surfaced.
 */
module Reassembly {
  import opened Word64
  import opened Control
  import opened ReceiverWindow
  import opened Wire
  import Modular

  const MAX_TRACE: nat := 65536

  /** What either mode amounts to. */
  datatype Blocks = Blocks(got: set<nat>, sink: seq<byte>)
  {
    function Low(): nat { Mex(got) }

    predicate Accepts(s: nat) { Low() <= s < Low() + MAX_WINDOW && s !in got }

    function Take(s: nat, off: nat, payload: seq<byte>): Blocks {
      if Accepts(s) then Blocks(got + {s}, Written(sink, off, payload)) else this
    }
  }

  /** A positional write, or none if the block does not fit. */
  function Written(sink: seq<byte>, off: nat, payload: seq<byte>): (r: seq<byte>)
    ensures |r| == |sink|
  {
    if |payload| > 0 && off <= |sink| && |payload| <= |sink| - off then Splice(sink, off, payload) else sink
  }

  method WriteSink(sink: array<byte>, off: nat, payload: seq<byte>)
    modifies sink
    ensures sink[..] == Written(old(sink[..]), off, payload)
  {
    if |payload| > 0 && off <= sink.Length && |payload| <= sink.Length - off {
      var _ := PutBytes(sink, off, payload);
    }
  }

  /** The trace keeps the first 65536 numbers surfaced. */
  ghost predicate Traces(trace: seq<nat>, order: seq<nat>) {
    trace == if |order| <= MAX_TRACE then order else order[..MAX_TRACE]
  }

  /** Numbers accepted so far lie below the window's end. */
  ghost predicate Bounded(got: set<nat>, low: nat) { forall s <- got :: s < low + MAX_WINDOW }

  // ----- Unordered -----

  class Unordered {
    const sink: array<byte>
    const seen: array<uint64>
    var low: nat
    var delivered: nat
    var trace: seq<nat>
    ghost var got: set<nat>
    ghost var order: seq<nat>

    ghost function View(): Blocks
      reads this, sink
    {
      Blocks(got, sink[..])
    }

    ghost predicate Ring()
      reads this, seen
    {
      RingHolds(seen[..], low, got) && Bounded(got, low) && forall s: nat | s < low :: s in got
    }

    ghost predicate Valid()
      reads this, seen
    {
      && Ring() && low == Mex(got)
      && delivered == |got| == |order| && (forall s <- order :: s in got) && Traces(trace, order)
    }

    constructor (sink: array<byte>)
      ensures Valid() && this.sink == sink && got == {} && order == [] && fresh(seen)
    {
      this.sink := sink;
      seen := new uint64[MASK_WORDS](_ => 0);
      low, delivered, trace, got, order := 0, 0, [], {}, [];
      new;
      forall s: nat | s < MAX_WINDOW ensures !RingBit(seen[..], s) { BitZero(Slot(s) % 64); }
      MexUnique({}, 0);
    }

    method Seen(s: nat) returns (r: bool)
      requires Ring() && low <= s < low + MAX_WINDOW
      ensures r <==> s in got
    {
      LowBits(s);
      TestBit(seen[Slot(s) / 64], s % 64);
      assert RingBit(seen[..], s) <==> s in got;
      r := And(seen[Slot(s) / 64], Shl(1, s % 64)) != 0;
    }

    method MarkSeen(s: nat)
      requires Ring() && low <= s < low + MAX_WINDOW
      modifies seen, this`got
      ensures Ring() && got == old(got) + {s}
    {
      LowBits(s);
      ghost var words := seen[..];
      var i := Slot(s) / 64;
      OrIsWord(seen[i], Shl(1, s % 64));
      seen[i] := Or(seen[i], Shl(1, s % 64));
      assert seen[..] == words[i := seen[i]];
      SetRing(words, low, got, s, seen[i]);
      got := got + {s};
    }

    /** The low mark moves over the contiguous prefix, clearing as it goes. */
    method SlideLow()
      requires Ring()
      modifies seen, this`low
      ensures Ring() && low == Mex(got)
    {
      ghost var top := low + MAX_WINDOW;
      var more := Seen(low);
      while more
        invariant Ring() && (more <==> low in got) && forall s <- got :: s < top
        decreases top - low
      {
        LowBits(low);
        ghost var words := seen[..];
        SlideRing(words, low, got);
        var i := Slot(low) / 64;
        seen[i] := And(seen[i], Not(Shl(1, low % 64)));
        assert seen[..] == words[i := seen[i]];
        low := low + 1;
        more := Seen(low);
      }
      MexUnique(got, low);
    }

    /** `on_block`, unordered: a block is surfaced the moment it is accepted, each at most once. */
    method OnBlock(s: nat, off: nat, payload: seq<byte>) returns (surfaced: nat)
      requires Valid()
      modifies this, seen, sink
      ensures Valid() && View() == old(View()).Take(s, off, payload)
      ensures surfaced == if old(View()).Accepts(s) then 1 else 0
      ensures order == if old(View()).Accepts(s) then old(order) + [s] else old(order)
    {
      hide RingHolds;
      if s < low || s - low >= MAX_WINDOW { return 0; }
      var dup := Seen(s);
      if dup { return 0; }
      MarkSeen(s);
      SlideLow();
      WriteSink(sink, off, payload);
      if |trace| < MAX_TRACE { trace := trace + [s]; }
      delivered := delivered + 1;
      order := order + [s];
      surfaced := 1;
    }
  }

  /** The bit of `s` inside its word is `s % 64`. */
  lemma LowBits(s: nat)
    ensures Slot(s) % 64 == s % 64
  {
    assert s == s / MAX_WINDOW * MAX_WINDOW + Slot(s);
    Modular.ModAdd(Slot(s), s / MAX_WINDOW * 16, 64);
  }

  // ----- Ordered -----

  datatype Cell = Cell(s: nat, len: nat, valid: bool)

  predicate Held(cells: seq<Cell>, s: nat)
    requires |cells| == MAX_WINDOW
  {
    cells[Slot(s)].valid && cells[Slot(s)].s == s
  }

  /** The slots hold exactly the numbers of the window that have arrived. */
  ghost predicate SlotsHold(cells: seq<Cell>, next: nat, got: set<nat>) {
    && |cells| == MAX_WINDOW
    && (forall s: nat | next <= s < next + MAX_WINDOW :: Held(cells, s) <==> s in got)
    && (forall i | 0 <= i < MAX_WINDOW :: cells[i].valid ==> cells[i].s < next + MAX_WINDOW)
  }

  lemma SetSlot(cells: seq<Cell>, next: nat, got: set<nat>, s: nat, len: nat)
    requires SlotsHold(cells, next, got) && next <= s < next + MAX_WINDOW
    ensures SlotsHold(cells[Slot(s) := Cell(s, len, true)], next, got + {s})
  {
    var after := cells[Slot(s) := Cell(s, len, true)];
    forall t: nat | next <= t < next + MAX_WINDOW ensures Held(after, t) <==> t in got + {s} {
      assert Held(cells, t) <==> t in got;
      if t != s { DistinctSlots(next, s, t); }
    }
  }

  /** Past a delivered number: its slot, cleared or never used, now stands for the number a window on. */
  lemma PassSlot(cells: seq<Cell>, after: seq<Cell>, next: nat, got: set<nat>)
    requires SlotsHold(cells, next, got) && next + MAX_WINDOW !in got
    requires after == cells || after == cells[Slot(next) := cells[Slot(next)].(valid := false)]
    ensures SlotsHold(after, next + 1, got)
  {
    forall t: nat | next + 1 <= t < next + 1 + MAX_WINDOW ensures Held(after, t) <==> t in got {
      if t < next + MAX_WINDOW {
        assert Held(cells, t) <==> t in got;
        DistinctSlots(next, next, t);
      } else {
        Modular.ModAdd(next, 1, MAX_WINDOW);
      }
    }
  }

  function UpTo(n: nat): (r: seq<nat>)
    ensures |r| == n && forall i | 0 <= i < n :: r[i] == i
  {
    seq(n, i => i)
  }

  lemma UpToNext(n: nat)
    ensures UpTo(n + 1) == UpTo(n) + [n]
  {}

  class Ordered {
    const sink: array<byte>
    const cells: array<Cell>
    var next: nat
    var delivered: nat
    var trace: seq<nat>
    ghost var got: set<nat>

    ghost function View(): Blocks
      reads this, sink
    {
      Blocks(got, sink[..])
    }

    /** All but `next` itself may be in place; delivery has been in order and without gaps. */
    ghost predicate Ring()
      reads this, cells
    {
      && SlotsHold(cells[..], next, got) && Bounded(got, next) && (forall s: nat | s < next :: s in got)
      && delivered == next && Traces(trace, UpTo(next))
    }

    ghost predicate Valid()
      reads this, cells
    {
      Ring() && next == Mex(got)
    }

    constructor (sink: array<byte>)
      ensures Valid() && this.sink == sink && got == {} && fresh(cells)
    {
      this.sink := sink;
      cells := new Cell[MAX_WINDOW](_ => Cell(0, 0, false));
      next, delivered, trace, got := 0, 0, [], {};
      new;
      MexUnique({}, 0);
    }

    method Record()
      modifies this`trace, this`delivered
      requires Traces(trace, UpTo(next))
      ensures Traces(trace, UpTo(next + 1)) && delivered == old(delivered) + 1
    {
      UpToNext(next);
      if |trace| < MAX_TRACE { trace := trace + [next]; }
      delivered := delivered + 1;
    }

    /** The buffered run that an arrival unblocked. */
    method Drain()
      requires Ring()
      modifies this`next, this`trace, this`delivered, cells
      ensures Ring() && next == Mex(got) && old(next) <= next
    {
      hide Traces, UpTo;
      ghost var top := next + MAX_WINDOW;
      while cells[Slot(next)].valid && cells[Slot(next)].s == next
        invariant Ring() && old(next) <= next && forall s <- got :: s < top
        decreases top - next
      {
        hide SlotsHold;
        ghost var before := cells[..];
        HeldIs(before, next, got, next);
        var i := Slot(next);
        PassSlot(before, before[i := before[i].(valid := false)], next, got);
        Record();
        cells[i] := cells[i].(valid := false);
        assert cells[..] == before[i := cells[i]];
        next := next + 1;
      }
      HeldIs(cells[..], next, got, next);
      MexUnique(got, next);
    }

    /** `on_block`, ordered: what is surfaced is always the next numbers in order. */
    method OnBlock(s: nat, off: nat, payload: seq<byte>) returns (surfaced: nat)
      requires Valid()
      modifies this, cells, sink
      ensures Valid() && View() == old(View()).Take(s, off, payload)
      ensures surfaced == next - old(next) && next >= old(next)
    {
      hide SlotsHold, Traces, UpTo;
      surfaced := 0;
      if s < next { return; }
      if s > next {
        if s - next < MAX_WINDOW { Buffer(s, off, payload); }
        return;
      }
      ghost var before := cells[..];
      WriteSink(sink, off, payload);
      SetOrPass(before, next, got);
      Record();
      got := got + {s};
      next := next + 1;
      Drain();
      surfaced := next - s;
    }

    /** A block ahead of the next one: written at once, remembered in its slot. */
    method Buffer(s: nat, off: nat, payload: seq<byte>)
      requires Valid() && next < s < next + MAX_WINDOW
      modifies sink, cells, this`got
      ensures Valid() && View() == old(View()).Take(s, off, payload)
    {
      hide Traces, UpTo;
      ghost var before := cells[..];
      var cell := cells[Slot(s)];
      if !cell.valid || cell.s != s {
        SetSlot(before, next, got, s, |payload|);
        WriteSink(sink, off, payload);
        cells[Slot(s)] := Cell(s, |payload|, true);
        assert cells[..] == before[Slot(s) := cells[Slot(s)]];
        got := got + {s};
        MexUnique(got, next);
      }
    }
  }

  lemma HeldIs(cells: seq<Cell>, next: nat, got: set<nat>, s: nat)
    requires SlotsHold(cells, next, got) && next <= s < next + MAX_WINDOW
    ensures Held(cells, s) <==> s in got
  {}

  /** Delivering the next number straight away leaves the slots as right as they were. */
  lemma SetOrPass(cells: seq<Cell>, next: nat, got: set<nat>)
    requires SlotsHold(cells, next, got) && Bounded(got, next)
    ensures SlotsHold(cells, next + 1, got + {next})
  {
    PassSlot(cells, cells, next, got);
    assert forall t: nat | next + 1 <= t < next + 1 + MAX_WINDOW :: t in got + {next} <==> t in got;
  }

  // ----- The two modes side by side -----

  datatype Arrival = Arrival(s: nat, off: nat, payload: seq<byte>)

  function TakeAll(b: Blocks, arrivals: seq<Arrival>): Blocks {
    if arrivals == [] then b
    else
      var n := |arrivals| - 1;
      TakeAll(b, arrivals[..n]).Take(arrivals[n].s, arrivals[n].off, arrivals[n].payload)
  }

  /** Same low mark, same blocks remembered above it: bit for slot. */
  ghost predicate Bisimilar(u: Unordered, o: Ordered)
    reads u, u.seen, o, o.cells
    requires u.seen.Length == MASK_WORDS && o.cells.Length == MAX_WINDOW
  {
    && u.got == o.got && u.low == o.next
    && forall s: nat | u.low <= s < u.low + MAX_WINDOW :: RingBit(u.seen[..], s) <==> Held(o.cells[..], s)
  }

  lemma SameGotIsBisimilar(u: Unordered, o: Ordered)
    requires u.Valid() && o.Valid() && u.got == o.got
    ensures Bisimilar(u, o)
  {
    forall s: nat | u.low <= s < u.low + MAX_WINDOW ensures RingBit(u.seen[..], s) <==> Held(o.cells[..], s) {
      assert RingBit(u.seen[..], s) <==> s in u.got;
      HeldIs(o.cells[..], o.next, o.got, s);
    }
  }

  /**
   Fed the same arrivals, whatever they are and in whatever order, both modes accept the same
   blocks and hold the same bytes after every one of them; the ordered one has then surfaced
   0, 1, 2, ... in order, the unordered one every accepted number exactly once.
   */
  method FeedBoth(u: Unordered, o: Ordered, arrivals: seq<Arrival>)
    requires u.Valid() && o.Valid() && u.View() == o.View()
    requires u.sink != o.sink
    modifies u, u.seen, u.sink, o, o.cells, o.sink
    ensures u.Valid() && o.Valid() && Bisimilar(u, o)
    ensures u.View() == o.View() == TakeAll(old(u.View()), arrivals)
    ensures u.delivered == |u.got| && o.delivered == Mex(o.got) == u.low
    ensures Traces(o.trace, UpTo(o.delivered))
  {
    ghost var start := u.View();
    assert arrivals[..0] == [];
    for i := 0 to |arrivals|
      invariant u.Valid() && o.Valid() && u.View() == o.View() == TakeAll(start, arrivals[..i])
    {
      hide Unordered.Valid, Ordered.Valid, Blocks.Take;
      FeedOne(u, o, arrivals[i]);
      assert arrivals[..i + 1][..i] == arrivals[..i];
    }
    assert arrivals[..|arrivals|] == arrivals;
    SameGotIsBisimilar(u, o);
  }

  method FeedOne(u: Unordered, o: Ordered, a: Arrival)
    requires u.Valid() && o.Valid() && u.View() == o.View() && u.sink != o.sink
    modifies u, u.seen, u.sink, o, o.cells, o.sink
    ensures u.Valid() && o.Valid() && u.View() == o.View() == old(u.View()).Take(a.s, a.off, a.payload)
  {
    hide RingHolds, SlotsHold, Traces, UpTo, Mex, Blocks.Take;
    var _ := u.OnBlock(a.s, a.off, a.payload);
    var _ := o.OnBlock(a.s, a.off, a.payload);
  }

  // ----- What ends up in the sink -----

  /** A block is taken exactly if it lies below the end of the window; the others leave everything as it was. */
  lemma TakenIs(b: Blocks, s: nat, off: nat, payload: seq<byte>)
    ensures s in b.Take(s, off, payload).got <==> s in b.got || s < b.Low() + MAX_WINDOW
    ensures s in b.got || s >= b.Low() + MAX_WINDOW ==> b.Take(s, off, payload) == b
  {}

  /** `blocks[s]` is what the sender cut out of `data` as number `s`. */
  ghost predicate CutFrom(data: seq<byte>, blocks: seq<Arrival>) {
    forall s | 0 <= s < |blocks| ::
      blocks[s].s == s && blocks[s].off + |blocks[s].payload| <= |data|
      && blocks[s].payload == data[blocks[s].off..blocks[s].off + |blocks[s].payload|]
  }

  ghost predicate Carries(a: Arrival, o: nat) { a.off <= o < a.off + |a.payload| }

  ghost predicate InSome(blocks: seq<Arrival>, o: nat) { exists s: nat :: s < |blocks| && Carries(blocks[s], o) }

  /** Byte `o` is the source's if an accepted block carries it. */
  ghost predicate RightAt(data: seq<byte>, blocks: seq<Arrival>, b: Blocks, o: nat) {
    o < |b.sink| == |data| && forall s <- b.got :: s < |blocks| && Carries(blocks[s], o) ==> b.sink[o] == data[o]
  }

  lemma TakeKeepsRight(data: seq<byte>, blocks: seq<Arrival>, b: Blocks, a: Arrival, o: nat)
    requires CutFrom(data, blocks) && a in blocks && RightAt(data, blocks, b, o)
    ensures RightAt(data, blocks, b.Take(a.s, a.off, a.payload), o)
  {
    var i :| 0 <= i < |blocks| && blocks[i] == a;
    WrittenAt(b.sink, a.off, a.payload, o);
    hide Mex, Written;
  }

  lemma WrittenAt(sink: seq<byte>, off: nat, payload: seq<byte>, o: nat)
    requires off + |payload| <= |sink| && o < |sink|
    ensures Written(sink, off, payload)[o] == if off <= o < off + |payload| then payload[o - off] else sink[o]
  {}

  lemma {:induction false} ArrivalsKeepRight(data: seq<byte>, blocks: seq<Arrival>, b: Blocks, arrivals: seq<Arrival>, o: nat)
    requires CutFrom(data, blocks) && (forall a <- arrivals :: a in blocks) && RightAt(data, blocks, b, o)
    ensures RightAt(data, blocks, TakeAll(b, arrivals), o)
  {
    if arrivals != [] {
      var n := |arrivals| - 1;
      assert arrivals[n] in arrivals && forall a <- arrivals[..n] :: a in arrivals;
      ArrivalsKeepRight(data, blocks, b, arrivals[..n], o);
      hide RightAt, Blocks.Take;
      TakeKeepsRight(data, blocks, TakeAll(b, arrivals[..n]), arrivals[n], o);
    }
  }

  /**
   In either mode, in any order, with any repetition: once every block of a source has been
   accepted, the sink is the source, whatever it held before.
   */
  lemma AllBlocksAreTheData(data: seq<byte>, blocks: seq<Arrival>, sink: seq<byte>, arrivals: seq<Arrival>)
    requires CutFrom(data, blocks) && (forall a <- arrivals :: a in blocks) && |sink| == |data|
    requires forall o: nat | o < |data| :: InSome(blocks, o)
    requires forall s: nat | s < |blocks| :: s in TakeAll(Blocks({}, sink), arrivals).got
    ensures TakeAll(Blocks({}, sink), arrivals).sink == data
  {
    var end := TakeAll(Blocks({}, sink), arrivals);
    SinkLength(Blocks({}, sink), arrivals);
    forall o: nat | o < |data| ensures end.sink[o] == data[o] {
      ArrivalsKeepRight(data, blocks, Blocks({}, sink), arrivals, o);
      assert InSome(blocks, o);
      var s: nat :| s < |blocks| && Carries(blocks[s], o);
      assert s in end.got;
    }
  }

  lemma {:induction false} SinkLength(b: Blocks, arrivals: seq<Arrival>)
    ensures |TakeAll(b, arrivals).sink| == |b.sink|
  {
    if arrivals != [] { SinkLength(b, arrivals[..|arrivals| - 1]); }
  }

  // ----- is_complete -----

  /**
   In unordered mode `is_complete` only counts. It means that every block below `total` has
   arrived exactly if no block numbered `total` or more was accepted.
   */
  lemma UnorderedComplete(got: set<nat>, total: nat)
    requires |got| == total
    ensures (forall s: nat | s < total :: s in got) <==> (forall s <- got :: s < total)
  {
    SpanSize(0, total);
    if forall s: nat | s < total :: s in got { SubsetSize(Span(0, total), got); }
    if forall s <- got :: s < total { SubsetSize(got, Span(0, total)); }
  }

  /** One stray block is enough: block 1 of a one-block stream completes it without block 0. */
  lemma UnorderedCompletesEarly(sink: seq<byte>)
    ensures var after := Blocks({}, sink).Take(1, 0, []); |after.got| == 1 && 0 !in after.got
  {
    MexUnique({}, 0);
    assert {} + {1} == {1};
  }

  /** In ordered mode it is exact, until a block numbered `total` is delivered too. */
  lemma OrderedComplete(got: set<nat>, total: nat)
    ensures Mex(got) == total <==> total !in got && forall s: nat | s < total :: s in got
  {
    if total !in got && forall s: nat | s < total :: s in got { MexUnique(got, total); }
  }
}
