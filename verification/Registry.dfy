/**
 The sender's registry (registry.cpp): a ring of the blocks still unconfirmed, and
 `apply_ack`, which frees what one ACK reports, cumulatively and selectively.
 */
module Registry {
  import opened Basics
  import opened Word64
  import opened Control
  import opened ReceiverWindow
  import Modular

  const MAX_PAYLOAD: nat := 16384

  datatype Entry = Entry(s: nat, sendTime: nat, offset: nat, payload: seq<byte>, flags: nat, valid: bool)

  const VACANT: Entry := Entry(0, 0, 0, [], 0, false)

  // ----- The ring as a value -----

  /** Every resident block sits in the slot its number maps to. */
  ghost predicate Placed(ring: seq<Entry>) {
    && |ring| >= 1
    && forall i | 0 <= i < |ring| :: ring[i].valid ==> ring[i].s % |ring| == i
  }

  function Find(ring: seq<Entry>, s: nat): Option<Entry>
    requires |ring| >= 1
  {
    var e := ring[s % |ring|];
    if e.valid && e.s == s then Some(e) else None
  }

  /** The ring with the blocks numbered in `acked` marked evictable, every other slot as it was. */
  function Freed(ring: seq<Entry>, acked: set<nat>): (r: seq<Entry>)
    ensures |r| == |ring|
    ensures forall i | 0 <= i < |ring| ::
              r[i] == if ring[i].valid && ring[i].s in acked then ring[i].(valid := false) else ring[i]
  {
    if ring == [] then []
    else var e := ring[0];
         [if e.valid && e.s in acked then e.(valid := false) else e] + Freed(ring[1..], acked)
  }

  /** Payload bytes of the blocks still resident. */
  function ResidentBytes(ring: seq<Entry>): nat {
    if ring == [] then 0
    else (if ring[0].valid then |ring[0].payload| else 0) + ResidentBytes(ring[1..])
  }

  function EntryBytes(e: Entry): nat { if e.valid then |e.payload| else 0 }

  lemma {:induction false} ResidentUpdate(ring: seq<Entry>, i: nat, e: Entry)
    requires i < |ring|
    ensures ResidentBytes(ring[i := e]) + EntryBytes(ring[i]) == ResidentBytes(ring) + EntryBytes(e)
  {
    if i == 0 {
      assert ring[0 := e][1..] == ring[1..];
    } else {
      assert ring[i := e][1..] == ring[1..][i - 1 := e];
      ResidentUpdate(ring[1..], i - 1, e);
    }
  }

  lemma FreedNone(ring: seq<Entry>)
    ensures Freed(ring, {}) == ring
  {}

  /** Freeing one more number changes at most its own slot. */
  lemma FreeOne(ring: seq<Entry>, acked: set<nat>, s: nat)
    requires Placed(ring)
    ensures var cur := Freed(ring, acked);
            Freed(ring, acked + {s}) == (if Find(cur, s).Some? then cur[s % |ring| := cur[s % |ring|].(valid := false)] else cur)
  {
    var cur, next := Freed(ring, acked), Freed(ring, acked + {s});
    var want := if Find(cur, s).Some? then cur[s % |ring| := cur[s % |ring|].(valid := false)] else cur;
    forall i | 0 <= i < |ring| ensures next[i] == want[i] {}
    assert next == want;
  }

  // ----- What one ACK confirms -----

  function NewBase(ack: Ack, base: nat, next: nat): nat {
    if ack.base > base then (if ack.base < next then ack.base else next) else base
  }

  predicate Selected(ack: Ack, s: nat)
    requires ack.WellFormed()
  {
    s >= ack.base && ack.Selects(s - ack.base)
  }

  /** The numbers the ACK confirms among `[base, next)`, looking at selective bits below `upto`. */
  function AckedUpTo(ack: Ack, base: nat, next: nat, upto: nat): set<nat>
    requires ack.WellFormed()
  {
    var nb := NewBase(ack, base, next);
    Span(base, nb) + set s <- Span(nb, if upto < next then upto else next) | Selected(ack, s)
  }

  function Acked(ack: Ack, base: nat, next: nat): set<nat>
    requires ack.WellFormed()
  {
    AckedUpTo(ack, base, next, next)
  }

  /** An ACK confirms nothing outside `[base, next)`, and everything below the new base. */
  lemma AckedBounds(ack: Ack, base: nat, next: nat)
    requires ack.WellFormed() && base <= next
    ensures base <= NewBase(ack, base, next) <= next
    ensures forall s <- Acked(ack, base, next) :: base <= s < next
    ensures forall s: nat | base <= s < NewBase(ack, base, next) :: s in Acked(ack, base, next)
  {}

  /** One past the highest number below `upto` the selective part reports, or 0. */
  function SelectedEnd(ack: Ack, upto: nat): nat
    requires ack.WellFormed()
  {
    if upto == 0 then 0 else if Selected(ack, upto - 1) then upto else SelectedEnd(ack, upto - 1)
  }

  /** It is the least number above everything selected below `upto`. */
  lemma {:induction false} SelectedEndIs(ack: Ack, upto: nat)
    requires ack.WellFormed()
    ensures var e := SelectedEnd(ack, upto);
            && e <= upto && (forall s: nat | s < upto && Selected(ack, s) :: s < e)
            && (e > 0 ==> Selected(ack, e - 1))
  {
    hide Selected;
    if upto > 0 && !Selected(ack, upto - 1) { SelectedEndIs(ack, upto - 1); }
  }

  /** What an ACK confirms, number by number. */
  lemma AckedIs(ack: Ack, base: nat, next: nat, s: nat)
    requires ack.WellFormed() && base <= next
    ensures s in Acked(ack, base, next) <==> base <= s < next && (s < ack.base || Selected(ack, s))
  {}

  lemma AckedNext(ack: Ack, base: nat, next: nat, upto: nat)
    requires ack.WellFormed() && upto < next
    ensures AckedUpTo(ack, base, next, upto + 1)
            == AckedUpTo(ack, base, next, upto) + (if upto >= NewBase(ack, base, next) && Selected(ack, upto) then {upto} else {})
  {
  }

  lemma AckedBelow(ack: Ack, base: nat, next: nat, upto: nat)
    requires ack.WellFormed() && base <= next && upto <= ack.base
    ensures AckedUpTo(ack, base, next, upto) == Span(base, NewBase(ack, base, next))
  {}

  lemma {:induction false} SelectedEndSkip(ack: Ack, lo: nat, hi: nat)
    requires ack.WellFormed() && lo <= hi
    requires forall s: nat | lo <= s < hi :: !Selected(ack, s)
    ensures SelectedEnd(ack, hi) == SelectedEnd(ack, lo)
    decreases hi
  {
    if lo < hi { SelectedEndSkip(ack, lo, hi - 1); }
  }

  /** Numbers the ACK does not select change nothing. */
  lemma AckedSkip(ack: Ack, base: nat, next: nat, lo: nat, hi: nat)
    requires ack.WellFormed() && lo <= hi
    requires forall s: nat | lo <= s < hi && s < next :: !Selected(ack, s)
    ensures AckedUpTo(ack, base, next, hi) == AckedUpTo(ack, base, next, lo)
    ensures SelectedEnd(ack, Min(hi, next)) == SelectedEnd(ack, Min(lo, next))
  {
    SelectedEndSkip(ack, Min(lo, next), Min(hi, next));
    assert forall s: nat :: s in AckedUpTo(ack, base, next, hi) <==> s in AckedUpTo(ack, base, next, lo);
  }

  lemma PastMask(ack: Ack, base: nat, next: nat)
    requires ack.WellFormed() && base <= next
    ensures AckedUpTo(ack, base, next, ack.base + MAX_WINDOW) == Acked(ack, base, next)
    ensures SelectedEnd(ack, Min(ack.base + MAX_WINDOW, next)) == SelectedEnd(ack, next)
  {
    AckedSkip(ack, base, next, ack.base + MAX_WINDOW, Max(ack.base + MAX_WINDOW, next));
    assert AckedUpTo(ack, base, next, Max(ack.base + MAX_WINDOW, next)) == Acked(ack, base, next);
  }

  // ----- The registry -----

  class SenderRegistry {
    const streamId: nat
    const windowSize: nat
    const slots: array<Entry>

    ghost predicate Valid()
      reads this, slots
    {
      1 <= windowSize <= MAX_WINDOW && slots.Length == windowSize && Placed(slots[..])
    }

    constructor (streamId: nat, windowSize: nat)
      ensures Valid() && fresh(slots)
      ensures this.windowSize == if windowSize < 1 then 1 else if windowSize > MAX_WINDOW then MAX_WINDOW else windowSize
      ensures forall s: nat :: Find(slots[..], s) == None
    {
      this.streamId := streamId;
      var w := if windowSize < 1 then 1 else if windowSize > MAX_WINDOW then MAX_WINDOW else windowSize;
      this.windowSize := w;
      slots := new Entry[w](_ => VACANT);
    }

    /** Overwrites whatever the number's slot held; every other slot keeps its block. */
    method Store(s: nat, payload: seq<byte>, sendTime: nat, offset: nat, flags: nat) returns (ok: bool)
      requires Valid()
      modifies slots
      ensures Valid() && (ok <==> |payload| <= MAX_PAYLOAD)
      ensures slots[..] == if ok then old(slots[..])[s % windowSize := Entry(s, sendTime, offset, payload, flags, true)]
                           else old(slots[..])
    {
      if |payload| > MAX_PAYLOAD { return false; }
      slots[s % windowSize] := Entry(s, sendTime, offset, payload, flags, true);
      ok := true;
    }

    method Lookup(s: nat) returns (r: Option<Entry>)
      requires Valid()
      ensures r == Find(slots[..], s)
      ensures r.Some? ==> r.value in slots[..] && r.value.valid && r.value.s == s
      ensures r.None? ==> forall e <- slots[..] :: !(e.valid && e.s == s)
    {
      assert forall i | 0 <= i < slots.Length :: slots[..][i].valid ==> slots[i].s % windowSize == i;
      var e := slots[s % windowSize];
      r := if e.valid && e.s == s then Some(e) else None;
    }

    method Confirm(s: nat)
      requires Valid()
      modifies slots
      ensures Valid() && slots[..] == Freed(old(slots[..]), {s})
    {
      ghost var before := slots[..];
      FreedNone(before);
      FreeOne(before, {}, s);
      assert {} + {s} == {s};
      var i := s % windowSize;
      if slots[i].valid && slots[i].s == s {
        slots[i] := slots[i].(valid := false);
        assert slots[..] == before[i := slots[i]];
      }
    }
  }

  /** `acked` has been freed out of `before`, and `bytes` counts exactly the payload let go. */
  ghost predicate Applied(reg: SenderRegistry, before: seq<Entry>, acked: set<nat>, bytes: nat)
    reads reg, reg.slots
  {
    && reg.Valid() && Placed(before)
    && reg.slots[..] == Freed(before, acked)
    && bytes + ResidentBytes(reg.slots[..]) == ResidentBytes(before)
  }

  /** `take`: count the block's payload if it is still held, then free it. */
  method Take(reg: SenderRegistry, s: nat, ghost before: seq<Entry>, ghost acked: set<nat>, bytes: nat)
    returns (total: nat)
    requires Applied(reg, before, acked, bytes)
    modifies reg.slots
    ensures Applied(reg, before, acked + {s}, total)
  {
    ghost var cur := reg.slots[..];
    FreeOne(before, acked, s);
    FreeOne(cur, {}, s);
    FreedNone(cur);
    total := bytes;
    var found := reg.Lookup(s);
    if found.Some? {
      total := total + |found.value.payload|;
      var i := s % reg.windowSize;
      ResidentUpdate(cur, i, cur[i].(valid := false));
      assert {} + {s} == {s};
      reg.Confirm(s);
    }
  }

  /** The cumulative part: everything from `base` to the new base. */
  method TakeRange(reg: SenderRegistry, base: nat, newBase: nat) returns (bytes: nat)
    requires reg.Valid() && base <= newBase
    modifies reg.slots
    ensures Applied(reg, old(reg.slots[..]), Span(base, newBase), bytes)
  {
    hide Freed, ResidentBytes, Placed;
    bytes := 0;
    ghost var before := reg.slots[..];
    FreedNone(before);
    for s := base to newBase
      invariant Applied(reg, before, Span(base, s), bytes)
    {
      hide Applied;
      bytes := Take(reg, s, before, Span(base, s), bytes);
    }
  }

  /** One application of an ACK: the ring, base and marker it started from. */
  datatype Job = Job(ack: Ack, base: nat, next: nat, before: seq<Entry>, end: nat)

  /** The walk over the mask has applied the bits below `upto`. */
  ghost predicate Walked(reg: SenderRegistry, j: Job, upto: nat, bytes: nat, end: nat)
    reads reg, reg.slots
  {
    && j.ack.WellFormed()
    && Applied(reg, j.before, AckedUpTo(j.ack, j.base, j.next, upto), bytes)
    && end == Max(j.end, SelectedEnd(j.ack, Min(upto, j.next)))
  }

  lemma WalkedSkip(reg: SenderRegistry, j: Job, lo: nat, hi: nat, bytes: nat, end: nat)
    requires Walked(reg, j, lo, bytes, end) && lo <= hi
    requires forall s: nat | lo <= s < hi && s < j.next :: !Selected(j.ack, s)
    ensures Walked(reg, j, hi, bytes, end)
  {
    AckedSkip(j.ack, j.base, j.next, lo, hi);
  }

  /** One set bit of the selective part: free the block if it is at or above the base. */
  method TakeSelected(reg: SenderRegistry, ghost j: Job, newBase: nat, s: nat, bytes: nat, end: nat)
    returns (total: nat, raised: nat)
    requires newBase == NewBase(j.ack, j.base, j.next) && s < j.next
    requires Walked(reg, j, s, bytes, end) && Selected(j.ack, s)
    modifies reg.slots
    ensures Walked(reg, j, s + 1, total, raised)
  {
    hide Applied, AckedUpTo, Selected;
    AckedNext(j.ack, j.base, j.next, s);
    total := bytes;
    if s >= newBase {
      total := Take(reg, s, j.before, AckedUpTo(j.ack, j.base, j.next, s), bytes);
    }
    assert AckedUpTo(j.ack, j.base, j.next, s) + {} == AckedUpTo(j.ack, j.base, j.next, s);
    raised := if s + 1 > end then s + 1 else end;
    SelectedEndBound(j.ack, s);
  }

  lemma {:induction false} SelectedEndBound(ack: Ack, upto: nat)
    requires ack.WellFormed()
    ensures SelectedEnd(ack, upto) <= upto
  {
    if upto > 0 { SelectedEndBound(ack, upto - 1); }
  }

  /** Word `w` of the mask covers the numbers from `ack.base + 64 w` on. */
  lemma WordSelects(ack: Ack, w: nat, k: nat)
    requires ack.WellFormed() && w < MASK_WORDS && k < 64
    ensures Selected(ack, ack.base + 64 * w + k) == Bit(ack.mask[w], k)
  {
    Modular.DivModUnique(64 * w + k, 64, w, k);
  }

  lemma WordSkip(ack: Ack, w: nat, lo: nat, hi: nat)
    requires ack.WellFormed() && w < MASK_WORDS && lo <= hi <= 64
    requires forall k: nat | lo <= k < hi :: !Bit(ack.mask[w], k)
    ensures forall s: nat | ack.base + 64 * w + lo <= s < ack.base + 64 * w + hi :: !Selected(ack, s)
  {
    forall s: nat | ack.base + 64 * w + lo <= s < ack.base + 64 * w + hi ensures !Selected(ack, s) {
      WordSelects(ack, w, s - ack.base - 64 * w);
    }
  }

  /** The lowest remaining bit is the next selected number of the word. */
  lemma NextSelected(ack: Ack, w: nat, bits: uint64, done: nat)
    requires ack.WellFormed() && w < MASK_WORDS && BitsLeft(bits, ack.mask[w], done) && bits != 0
    ensures done <= Ctz(bits) < 64 && Selected(ack, ack.base + 64 * w + Ctz(bits))
    ensures forall s: nat | ack.base + 64 * w + done <= s < ack.base + 64 * w + Ctz(bits) :: !Selected(ack, s)
  {
    LowestLeft(bits, ack.mask[w], done);
    WordSelects(ack, w, Ctz(bits));
    WordSkip(ack, w, done, Ctz(bits));
  }

  lemma NoMoreSelected(ack: Ack, w: nat, done: nat)
    requires ack.WellFormed() && w < MASK_WORDS && done <= 64 && BitsLeft(0, ack.mask[w], done)
    ensures forall s: nat | ack.base + 64 * w + done <= s < ack.base + 64 * (w + 1) :: !Selected(ack, s)
  {
    forall k: nat | done <= k < 64 ensures !Bit(ack.mask[w], k) { NoneLeft(ack.mask[w], done, k); }
    WordSkip(ack, w, done, 64);
  }

  /** The bit loop over one mask word, with its early exit at the first number not sent yet. */
  method TakeWord(reg: SenderRegistry, ghost j: Job, ack: Ack, newBase: nat, next: nat, w: nat, bytes: nat, end: nat)
    returns (total: nat, raised: nat)
    requires ack == j.ack && next == j.next && newBase == NewBase(ack, j.base, next)
    requires w < MASK_WORDS && Walked(reg, j, ack.base + 64 * w, bytes, end)
    modifies reg.slots
    ensures Walked(reg, j, ack.base + 64 * (w + 1), total, raised)
  {
    hide Applied, AckedUpTo, SelectedEnd;
    total, raised := bytes, end;
    var bits := ack.mask[w];
    ghost var done: nat := 0;
    while bits != 0
      invariant done <= 64 && BitsLeft(bits, ack.mask[w], done)
      invariant Walked(reg, j, ack.base + 64 * w + done, total, raised)
      decreases bits
    {
      NextSelected(ack, w, bits, done);
      DropLeft(bits, ack.mask[w], done);
      var s := ack.base + 64 * w + Ctz(bits);
      WalkedSkip(reg, j, ack.base + 64 * w + done, s, total, raised);
      done := Ctz(bits) + 1;
      bits := And(bits, bits - 1);
      if s >= next {
        WalkedSkip(reg, j, s, ack.base + 64 * (w + 1), total, raised);
        return;
      }
      total, raised := TakeSelected(reg, j, newBase, s, total, raised);
    }
    NoMoreSelected(ack, w, done);
    WalkedSkip(reg, j, ack.base + 64 * w + done, ack.base + 64 * (w + 1), total, raised);
  }

  /** The selective part of the ACK. */
  method TakeMask(reg: SenderRegistry, ghost j: Job, ack: Ack, newBase: nat, next: nat, bytes: nat, end: nat)
    returns (total: nat, raised: nat)
    requires ack == j.ack && next == j.next && newBase == NewBase(ack, j.base, next) && j.base <= next
    requires Walked(reg, j, ack.base, bytes, end)
    modifies reg.slots
    ensures Walked(reg, j, next, total, raised)
  {
    hide Applied, AckedUpTo, SelectedEnd;
    total, raised := bytes, end;
    for w := 0 to MASK_WORDS
      invariant Walked(reg, j, ack.base + 64 * w, total, raised)
    {
      total, raised := TakeWord(reg, j, ack, newBase, next, w, total, raised);
    }
    PastMask(ack, j.base, next);
  }

  /**
   `apply_ack`, for any ACK whatever: the base moves to min(ack.base, next) and never back,
   exactly the numbers the ACK reports among `[base, next)` are freed, and the bytes returned
   are exactly the payload of the blocks that were still held.
   */
  method ApplyAck(reg: SenderRegistry, ack: Ack, base: nat, next: nat, receivedEnd: nat)
    returns (bytes: nat, newBase: nat, newEnd: nat)
    requires reg.Valid() && ack.WellFormed() && base <= next
    modifies reg.slots
    ensures Applied(reg, old(reg.slots[..]), Acked(ack, base, next), bytes)
    ensures newBase == NewBase(ack, base, next)
    ensures newEnd == Max(Max(receivedEnd, SelectedEnd(ack, next)), newBase)
  {
    ghost var j := Job(ack, base, next, reg.slots[..], receivedEnd);
    bytes, newBase, newEnd := 0, base, receivedEnd;
    FreedNone(j.before);
    if ack.base > base {
      newBase := if ack.base < next then ack.base else next;
      bytes := TakeRange(reg, base, newBase);
    }
    AckedBelow(ack, base, next, ack.base);
    SelectedEndSkip(ack, 0, ack.base);
    SelectedEndSkip(ack, 0, Min(ack.base, next));
    assert Walked(reg, j, ack.base, bytes, newEnd);
    if ack.base < next {
      bytes, newEnd := TakeMask(reg, j, ack, newBase, next, bytes, newEnd);
    } else {
      WalkedSkip(reg, j, next, ack.base, bytes, newEnd);
    }
    if newBase > newEnd { newEnd := newBase; }
  }
}
