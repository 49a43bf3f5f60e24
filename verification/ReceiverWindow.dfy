/**
 The receive window (receiver.cpp): a bit ring, gap timers and the ACK and NACK
 built from them. The reference is a plain set of accepted numbers with, per
 number, the time it became a gap and the time it was last NACKed; the class
 keeps all of that in rings indexed by `seq % 1024` and behaves exactly so.
 */
module ReceiverWindow {
  import opened Word64
  import opened Control
  import Modular

  datatype Verdict = Accepted | Duplicate | OutOfWindow

  /** The least number from `n` on that is not in `got`. */
  function MexFrom(got: set<nat>, n: nat): (b: nat)
    ensures n <= b && b !in got
    ensures forall s: nat | n <= s < b :: s in got
    decreases got
  {
    if n !in got then n else MexFrom(got - {n}, n + 1)
  }

  /** The window base: everything below it has arrived, it has not. */
  function Mex(got: set<nat>): (b: nat)
    ensures b !in got
    ensures forall s: nat | s < b :: s in got
  {
    MexFrom(got, 0)
  }

  lemma MexUnique(got: set<nat>, b: nat)
    requires b !in got
    requires forall s: nat | s < b :: s in got
    ensures Mex(got) == b
  {
    assert Mex(got) < b ==> Mex(got) in got;
    assert b < Mex(got) ==> b in got;
  }

  lemma MexAtMost(got: set<nat>, s: nat)
    requires s !in got
    ensures Mex(got) <= s
  {
    assert s < Mex(got) ==> s in got;
  }

  lemma MexMonotone(a: set<nat>, b: set<nat>)
    requires a <= b
    ensures Mex(a) <= Mex(b)
  {
    assert Mex(b) < Mex(a) ==> Mex(b) in a;
  }

  /** The numbers from `lo` up to but not including `hi`. */
  function Span(lo: nat, hi: nat): (r: set<nat>)
    ensures forall s :: s in r <==> lo <= s < hi
    decreases hi
  {
    if lo >= hi then {} else Span(lo, hi - 1) + {hi - 1}
  }

  lemma {:induction false} SpanSize(lo: nat, hi: nat)
    requires lo <= hi
    ensures |Span(lo, hi)| == hi - lo
    decreases hi
  {
    if lo < hi { SpanSize(lo, hi - 1); }
  }

  lemma SubsetSize(a: set<nat>, b: set<nat>)
    requires a <= b
    ensures |a| <= |b| && (|a| == |b| ==> a == b)
  {
    assert b == a + (b - a);
    assert |b| == |a| + |b - a|;
  }

  /** Every number of `[lo, hi)` gets the stamp `now`. */
  function StampAll(times: map<nat, uint64>, lo: nat, hi: nat, now: uint64): map<nat, uint64> {
    times + map g <- Span(lo, hi) :: now
  }

  lemma StampNone(times: map<nat, uint64>, lo: nat, now: uint64)
    ensures StampAll(times, lo, lo, now) == times
  {}

  lemma StampNext(times: map<nat, uint64>, lo: nat, hi: nat, now: uint64)
    requires lo <= hi
    ensures StampAll(times, lo, hi, now)[hi := now] == StampAll(times, lo, hi + 1, now)
  {}

  function Stamp(times: map<nat, uint64>, s: nat): uint64 {
    if s in times then times[s] else 0
  }

  /** A call of `collect_nacks`: the clock, the reorder tolerance and the re-NACK interval. */
  datatype Timing = Timing(now: uint64, reorder: nat, renack: nat)

  /**
   `top` is one past the highest number accepted. `gapSince[s]` is when a higher
   block first arrived without `s`, `nackedAt[s]` when `s` was last reported.
   */
  datatype Rx = Rx(
    got: set<nat>, top: nat, gapSince: map<nat, uint64>, nackedAt: map<nat, uint64>,
    echo: nat, overflows: nat)
  {
    function Base(): nat { Mex(got) }

    ghost predicate WellFormed(window: nat) {
      && Base() <= top <= Base() + window
      && (forall s <- got :: s < top)
      && (top > 0 ==> top - 1 in got)
      && (forall s <- gapSince.Keys :: s < top)
      && (forall s <- nackedAt.Keys :: s < top)
    }

    /** `s` has left no trace yet, so a ring slot that falls to it must be clear. */
    ghost predicate Untouched(s: nat) {
      s !in got && s !in gapSince && s !in nackedAt
    }

    function Judge(window: nat, s: nat): Verdict {
      if s in got then Duplicate
      else if s < Base() + window then Accepted else OutOfWindow
    }

    function Arrive(window: nat, s: nat, sendTime: nat, now: uint64): Rx {
      match Judge(window, s)
      case Duplicate => this
      case OutOfWindow => this.(overflows := overflows + 1)
      case Accepted =>
        if s < top then this.(got := got + {s})
        else this.(got := got + {s}, top := s + 1, echo := sendTime,
                   gapSince := StampAll(gapSince, top, s, now))
    }

    /** Is the gap `s` old enough, and not reported too recently? */
    predicate Due(s: nat, t: Timing) {
      && s !in got
      && var since := Stamp(gapSince, s);
         var last := Stamp(nackedAt, s);
         && since != 0 && Sub64(t.now, since) >= t.reorder
         && (last == 0 || Sub64(t.now, last) >= t.renack)
    }

    /** The due gaps of `[lo, hi)`, ascending. */
    function DueIn(lo: nat, hi: nat, t: Timing): seq<nat>
      decreases hi
    {
      if lo >= hi then []
      else if Due(hi - 1, t) then DueIn(lo, hi - 1, t) + [hi - 1]
      else DueIn(lo, hi - 1, t)
    }

    /** What `collect_nacks` reports: every due gap from the base to the highest block. */
    function Nacks(lossless: bool, t: Timing): seq<nat> {
      if lossless then DueIn(Base(), top, t) else []
    }

    function Reported(missing: seq<nat>, now: uint64): Rx {
      this.(nackedAt := nackedAt + map s <- missing :: now)
    }
  }

  const EMPTY: Rx := Rx({}, 0, map[], map[], 0, 0)

  lemma ArriveKeepsWellFormed(rx: Rx, window: nat, s: nat, sendTime: nat, now: uint64)
    requires window >= 1 && rx.WellFormed(window)
    ensures rx.Arrive(window, s, sendTime, now).WellFormed(window)
    ensures rx.Base() <= rx.Arrive(window, s, sendTime, now).Base()
  {
    var after := rx.Arrive(window, s, sendTime, now);
    MexMonotone(rx.got, after.got);
    assert after.top < after.Base() ==> after.top in after.got;
  }

  /** `DueIn` lists the due numbers of its range: all of them, nothing else, in ascending order. */
  lemma {:induction false} DueInLists(rx: Rx, lo: nat, hi: nat, t: Timing)
    requires lo <= hi
    ensures var r := rx.DueIn(lo, hi, t);
            && (forall s: nat :: s in r <==> lo <= s < hi && rx.Due(s, t))
            && (forall i, j | 0 <= i < j < |r| :: r[i] < r[j])
            && |r| <= hi - lo
    decreases hi
  {
    if lo < hi {
      DueInLists(rx, lo, hi - 1, t);
      var r := rx.DueIn(lo, hi - 1, t);
      forall s: nat ensures s in rx.DueIn(lo, hi, t)
                            <==> lo <= s < hi && rx.Due(s, t) {
        assert s in r + [hi - 1] <==> s in r || s == hi - 1;
      }
      assert forall i | 0 <= i < |r| :: r[i] in r;
    }
  }

  /** Numbers that are not due add nothing to the list. */
  lemma {:induction false} DueSkip(rx: Rx, lo: nat, mid: nat, hi: nat, t: Timing)
    requires lo <= mid <= hi
    requires forall s | mid <= s < hi :: !rx.Due(s, t)
    ensures rx.DueIn(lo, hi, t) == rx.DueIn(lo, mid, t)
    decreases hi
  {
    if mid < hi { DueSkip(rx, lo, mid, hi - 1, t); }
  }

  lemma ReportedNone(rx: Rx, now: uint64)
    ensures rx.Reported([], now) == rx
  {
    assert rx.Reported([], now).nackedAt == rx.nackedAt;
  }

  lemma ReportedNext(rx: Rx, missing: seq<nat>, s: nat, now: uint64)
    ensures rx.Reported(missing + [s], now) == rx.Reported(missing, now).(nackedAt := rx.Reported(missing, now).nackedAt[s := now])
  {
    assert rx.Reported(missing + [s], now).nackedAt == rx.Reported(missing, now).nackedAt[s := now];
  }

  // ----- The ring of received bits -----

  function Slot(s: nat): (i: nat)
    ensures i < MAX_WINDOW
  {
    s % MAX_WINDOW
  }

  predicate RingBit(words: seq<uint64>, s: nat)
    requires |words| == MASK_WORDS
  {
    Bit(words[Slot(s) / 64], Slot(s) % 64)
  }

  /** Every bit belongs to exactly one number of `[base, base + 1024)`. */
  ghost predicate RingHolds(words: seq<uint64>, base: nat, got: set<nat>) {
    && |words| == MASK_WORDS
    && forall s: nat | base <= s < base + MAX_WINDOW :: RingBit(words, s) <==> s in got
  }

  /** The same for a ring of timers: no number sees another one's stamp. */
  ghost predicate TimersHold(ring: seq<uint64>, base: nat, times: map<nat, uint64>) {
    && |ring| == MAX_WINDOW
    && forall s: nat | base <= s < base + MAX_WINDOW :: ring[Slot(s)] == Stamp(times, s)
  }

  lemma DistinctSlots(base: nat, s: nat, t: nat)
    requires base <= s < base + MAX_WINDOW && base <= t < base + MAX_WINDOW && s != t
    ensures Slot(s) != Slot(t)
  {
    if Slot(s) == Slot(t) { Modular.SameSlot(s, t, MAX_WINDOW); }
  }

  lemma TestBit(w: uint64, k: nat)
    requires k < 64
    ensures And(w, Shl(1, k)) != 0 <==> Bit(w, k)
  {
    ShlOne(k);
    var masked := And(w, Shl(1, k));
    if masked == 0 {
      BitAnd(w, Shl(1, k), k);
      BitOfPow2(k, k);
      BitZero(k);
    } else {
      var j := Ctz(masked);
      BitAnd(w, Shl(1, k), j);
      BitOfPow2(k, j);
    }
  }

  lemma SetBitOf(w: uint64, k: nat, j: nat)
    requires k < 64
    ensures Bit(Or(w, Shl(1, k)), j) == (Bit(w, j) || j == k)
  {
    ShlOne(k);
    BitOr(w, Shl(1, k), j);
    BitOfPow2(k, j);
  }

  lemma ClearBitOf(w: uint64, k: nat, j: nat)
    requires k < 64 && j < 64
    ensures Bit(And(w, Not(Shl(1, k))), j) == (Bit(w, j) && j != k)
  {
    ShlOne(k);
    BitAnd(w, Not(Shl(1, k)), j);
    BitNot(Shl(1, k), j);
    BitOfPow2(k, j);
  }

  lemma OrIsWord(a: uint64, b: uint64)
    ensures Or(a, b) < TWO64
  {
    PowWord();
    OrBound(64, a, b);
  }

  lemma SetRing(words: seq<uint64>, base: nat, got: set<nat>, s: nat, word: uint64)
    requires RingHolds(words, base, got) && base <= s < base + MAX_WINDOW
    requires word == Or(words[Slot(s) / 64], Shl(1, Slot(s) % 64))
    ensures RingHolds(words[Slot(s) / 64 := word], base, got + {s})
  {
    var q, k := Slot(s) / 64, Slot(s) % 64;
    var after := words[q := word];
    forall t: nat | base <= t < base + MAX_WINDOW
      ensures RingBit(after, t) <==> t in got + {s}
    {
      assert RingBit(words, t) <==> t in got;
      SetBitOf(words[q], k, Slot(t) % 64);
      if t != s { DistinctSlots(base, s, t); }
    }
  }

  lemma SlideRing(words: seq<uint64>, base: nat, got: set<nat>)
    requires RingHolds(words, base, got) && base + MAX_WINDOW !in got
    ensures RingHolds(words[Slot(base) / 64 := And(words[Slot(base) / 64], Not(Shl(1, Slot(base) % 64)))],
                      base + 1, got)
  {
    var q, k := Slot(base) / 64, Slot(base) % 64;
    var after := words[q := And(words[q], Not(Shl(1, k)))];
    forall t: nat | base + 1 <= t < base + 1 + MAX_WINDOW
      ensures RingBit(after, t) <==> t in got
    {
      ClearBitOf(words[q], k, Slot(t) % 64);
      if t < base + MAX_WINDOW {
        assert RingBit(words, t) <==> t in got;
        DistinctSlots(base, base, t);
      } else {
        Modular.ModAdd(base, 1, MAX_WINDOW);
      }
    }
  }

  lemma SlideTimers(ring: seq<uint64>, base: nat, times: map<nat, uint64>)
    requires TimersHold(ring, base, times) && base + MAX_WINDOW !in times
    ensures TimersHold(ring[Slot(base) := 0], base + 1, times)
  {
    var after := ring[Slot(base) := 0];
    forall t: nat | base + 1 <= t < base + 1 + MAX_WINDOW
      ensures after[Slot(t)] == Stamp(times, t)
    {
      if t < base + MAX_WINDOW {
        assert ring[Slot(t)] == Stamp(times, t);
        DistinctSlots(base, base, t);
      } else {
        Modular.ModAdd(base, 1, MAX_WINDOW);
      }
    }
  }

  lemma SetTimer(ring: seq<uint64>, base: nat, times: map<nat, uint64>, s: nat, now: uint64)
    requires TimersHold(ring, base, times) && base <= s < base + MAX_WINDOW
    ensures TimersHold(ring[Slot(s) := now], base, times[s := now])
  {
    forall t: nat | base <= t < base + MAX_WINDOW
      ensures ring[Slot(s) := now][Slot(t)] == Stamp(times[s := now], t)
    {
      assert ring[Slot(t)] == Stamp(times, t);
      if t != s { DistinctSlots(base, s, t); }
    }
  }

  // ----- The relative view: 64 bits of the received set from `base + 64 * w` on -----

  /** Two ring words joined at the base's bit position, before the trim to the window. */
  function JoinedWord(words: seq<uint64>, base: nat, w: nat): (v: uint64)
    requires |words| == MASK_WORDS
  {
    var start := Slot(base + 64 * w);
    var q, r := start / 64, start % 64;
    if r == 0 then words[q]
    else OrIsWord(Shr(words[q], r), Shl(words[(q + 1) % MASK_WORDS], 64 - r));
         Or(Shr(words[q], r), Shl(words[(q + 1) % MASK_WORDS], 64 - r))
  }

  function RelativeWord(words: seq<uint64>, base: nat, window: nat, w: nat): uint64
    requires |words| == MASK_WORDS
  {
    var first := 64 * w;
    if first >= window then 0
    else if window - first < 64 then
      ShlOne(window - first);
      And(JoinedWord(words, base, w), Shl(1, window - first) - 1)
    else JoinedWord(words, base, w)
  }

  lemma SlotAdd(x: nat, b: nat)
    requires b < 64
    ensures Slot(x + b) == if Slot(x) + b < MAX_WINDOW then Slot(x) + b else Slot(x) + b - MAX_WINDOW
  {
    Modular.ModAdd(Slot(x) + b, x / MAX_WINDOW, MAX_WINDOW);
  }

  /** Where bit `b` of the joined word lives in the ring. */
  lemma JoinedSlot(base: nat, w: nat, b: nat)
    requires b < 64
    ensures var start := Slot(base + 64 * w);
            var at := start % 64 + b;
            Slot(base + 64 * w + b) / 64 == (if at < 64 then start / 64 else (start / 64 + 1) % MASK_WORDS) &&
            Slot(base + 64 * w + b) % 64 == (if at < 64 then at else at - 64)
  {
    SlotAdd(base + 64 * w, b);
  }

  lemma JoinedBit(words: seq<uint64>, base: nat, w: nat, b: nat)
    requires |words| == MASK_WORDS && b < 64
    ensures Bit(JoinedWord(words, base, w), b) == RingBit(words, base + 64 * w + b)
  {
    var start := Slot(base + 64 * w);
    var q, r := start / 64, start % 64;
    JoinedSlot(base, w, b);
    if r != 0 {
      var next := words[(q + 1) % MASK_WORDS];
      BitOr(Shr(words[q], r), Shl(next, 64 - r), b);
      BitShr(words[q], r, b);
      BitShl(next, 64 - r, b);
      if b + r >= 64 {
        PowWord();
        BitAbove(64, words[q], b + r);
      }
    }
  }

  /** Bit `b` of relative word `w` is set exactly when `base + 64 w + b` is inside the window and arrived. */
  lemma RelativeBit(words: seq<uint64>, base: nat, got: set<nat>, window: nat, w: nat, b: nat)
    requires RingHolds(words, base, got) && window <= MAX_WINDOW && b < 64
    ensures Bit(RelativeWord(words, base, window, w), b) <==> 64 * w + b < window && base + 64 * w + b in got
  {
    var first := 64 * w;
    if first >= window {
      BitZero(b);
    } else {
      JoinedBit(words, base, w, b);
      if first + b < window {
        assert RingBit(words, base + (first + b)) <==> base + (first + b) in got;
      }
      if window - first < 64 {
        ShlOne(window - first);
        BitAnd(JoinedWord(words, base, w), Shl(1, window - first) - 1, b);
        BitLowMask(window - first, b);
      }
    }
  }

  lemma {:induction false} ShlTwo(k: nat)
    requires k < 63
    ensures Shl(2, k) == Shl(1, k + 1)
  {
    if k > 0 { ShlTwo(k - 1); }
  }

  /** The holes of one word: the positions up to `span` that have not arrived. */
  function Holes(words: seq<uint64>, base: nat, window: nat, w: nat, span: nat): uint64
    requires |words| == MASK_WORDS && 64 * w <= span
  {
    var missing := Not(RelativeWord(words, base, window, w));
    if span - 64 * w < 63 then
      ShlTwo(span - 64 * w);
      ShlOne(span - 64 * w + 1);
      And(missing, Shl(2, span - 64 * w) - 1)
    else missing
  }

  lemma HoleBit(words: seq<uint64>, base: nat, got: set<nat>, window: nat, w: nat, span: nat, b: nat)
    requires RingHolds(words, base, got) && window <= MAX_WINDOW && b < 64
    requires 64 * w <= span < window
    ensures Bit(Holes(words, base, window, w, span), b)
            <==> 64 * w + b <= span && base + 64 * w + b !in got
  {
    hide Bit, And, RelativeWord;
    var word := RelativeWord(words, base, window, w);
    RelativeBit(words, base, got, window, w, b);
    BitNot(word, b);
    var k := span - 64 * w;
    if k < 63 {
      ShlTwo(k);
      ShlOne(k + 1);
      BitAnd(Not(word), Shl(2, k) - 1, b);
      BitLowMask(k + 1, b);
    }
  }

  /** What an ACK built from `rx` says: its base, and for every bit whether that number arrived. */
  ghost predicate AckReflects(ack: Ack, rx: Rx) {
    && ack.WellFormed()
    && ack.base == rx.Base() && ack.echo == rx.echo
    && forall i: nat | i < MAX_WINDOW :: ack.Selects(i) <==> ack.base + i in rx.got
  }

  lemma MaskReflects(words: seq<uint64>, rx: Rx, window: nat, ack: Ack)
    requires RingHolds(words, rx.Base(), rx.got) && rx.WellFormed(window) && window <= MAX_WINDOW
    requires ack.WellFormed() && ack.base == rx.Base() && ack.echo == rx.echo
    requires forall i | 0 <= i < MASK_WORDS :: ack.mask[i] == RelativeWord(words, rx.Base(), window, i)
    ensures AckReflects(ack, rx)
  {
    forall i: nat | i < MAX_WINDOW ensures ack.Selects(i) <==> ack.base + i in rx.got {
      RelativeBit(words, rx.Base(), rx.got, window, i / 64, i % 64);
      assert 64 * (i / 64) + i % 64 == i;
    }
  }

  /** `holes` still lists exactly the missing positions from `done` on. */
  ghost predicate HolesLeft(holes: uint64, rx: Rx, first: nat, done: nat, span: nat) {
    forall b: nat | b < 64 :: Bit(holes, b) <==> done <= b && first + b <= span && rx.Base() + first + b !in rx.got
  }

  lemma AllHoles(words: seq<uint64>, rx: Rx, window: nat, w: nat, span: nat)
    requires RingHolds(words, rx.Base(), rx.got) && 64 * w <= span < window <= MAX_WINDOW
    ensures HolesLeft(Holes(words, rx.Base(), window, w, span), rx, 64 * w, 0, span)
  {
    forall b: nat | b < 64
      ensures Bit(Holes(words, rx.Base(), window, w, span), b)
              <==> 64 * w + b <= span && rx.Base() + 64 * w + b !in rx.got
    {
      HoleBit(words, rx.Base(), rx.got, window, w, span, b);
    }
  }

  /** The lowest listed hole is the next missing position. */
  lemma LowestHole(holes: uint64, rx: Rx, first: nat, done: nat, span: nat)
    requires HolesLeft(holes, rx, first, done, span) && holes != 0
    ensures var b := Ctz(holes);
            && done <= b < 64 && first + b <= span && rx.Base() + first + b !in rx.got
            && forall s | rx.Base() + first + done <= s < rx.Base() + first + b :: s in rx.got
  {
    hide Bit, Mex, Pow2;
    var b := Ctz(holes);
    if b >= 64 {
      PowWord();
      BitAbove(64, holes, b);
    }
    assert Bit(holes, b);
    forall s | rx.Base() + first + done <= s < rx.Base() + first + b ensures s in rx.got {
      assert !Bit(holes, s - rx.Base() - first);
    }
  }

  /** Dropping the lowest hole moves past it. */
  lemma DropHole(holes: uint64, rest: nat, rx: Rx, first: nat, done: nat, span: nat)
    requires HolesLeft(holes, rx, first, done, span) && holes != 0 && rest == And(holes, holes - 1)
    ensures HolesLeft(rest, rx, first, Ctz(holes) + 1, span)
  {
    hide Bit, Mex, And;
    LowestHole(holes, rx, first, done, span);
    forall k: nat | k < 64
      ensures Bit(rest, k) <==> Ctz(holes) + 1 <= k && first + k <= span && rx.Base() + first + k !in rx.got
    {
      BitDropLowest(holes, k);
      assert Bit(holes, k) ==> k >= Ctz(holes);
    }
  }

  lemma NoHolesLeft(rx: Rx, first: nat, done: nat, span: nat, end: nat, t: Timing)
    requires HolesLeft(0, rx, first, done, span)
    requires rx.Base() + first + done <= end <= rx.Base() + first + 64 && end <= rx.Base() + span + 1
    ensures rx.DueIn(rx.Base(), end, t)
            == rx.DueIn(rx.Base(), rx.Base() + first + done, t)
  {
    forall s | rx.Base() + first + done <= s < end ensures s in rx.got {
      BitZero(s - rx.Base() - first);
      assert !Bit(0, s - rx.Base() - first);
    }
    DueSkip(rx, rx.Base(), rx.Base() + first + done, end, t);
  }

  lemma ReportedKeepsWellFormed(rx: Rx, window: nat, missing: seq<nat>, now: uint64)
    requires rx.WellFormed(window) && forall s <- missing :: s < rx.top
    ensures rx.Reported(missing, now).WellFormed(window)
  {}

  class ReceiverStream {
    const streamId: nat
    const windowSize: nat
    const lossless: bool
    const ring: array<uint64>
    const firstMissing: array<uint64>
    const lastNack: array<uint64>
    var base: nat
    var highest: nat
    var haveAny: bool
    var lastSendTime: nat
    var overflows: nat
    ghost var view: Rx

    ghost predicate Rings()
      reads this, ring, firstMissing, lastNack
    {
      && 1 <= windowSize <= MAX_WINDOW
      && ring != firstMissing && ring != lastNack && firstMissing != lastNack
      && RingHolds(ring[..], base, view.got)
      && TimersHold(firstMissing[..], base, view.gapSince)
      && TimersHold(lastNack[..], base, view.nackedAt)
    }

    ghost predicate Valid()
      reads this, ring, firstMissing, lastNack
    {
      && Rings()
      && view.WellFormed(windowSize)
      && base == view.Base()
      && view.top == (if haveAny then highest + 1 else 0)
      && lastSendTime == view.echo && overflows == view.overflows
    }

    constructor (streamId: nat, windowSize: nat, lossless: bool)
      ensures Valid() && view == EMPTY
      ensures this.streamId == streamId && this.lossless == lossless
      ensures this.windowSize == if windowSize < 1 then 1 else if windowSize > MAX_WINDOW then MAX_WINDOW else windowSize
      ensures fresh(ring) && fresh(firstMissing) && fresh(lastNack)
    {
      this.streamId, this.lossless := streamId, lossless;
      this.windowSize := if windowSize < 1 then 1 else if windowSize > MAX_WINDOW then MAX_WINDOW else windowSize;
      ring := new uint64[MASK_WORDS](_ => 0);
      firstMissing := new uint64[MAX_WINDOW](_ => 0);
      lastNack := new uint64[MAX_WINDOW](_ => 0);
      base, highest, haveAny, lastSendTime, overflows := 0, 0, false, 0, 0;
      view := EMPTY;
      new;
      forall s: nat | s < MAX_WINDOW ensures !RingBit(ring[..], s) { BitZero(Slot(s) % 64); }
      MexUnique({}, 0);
    }

    /** `ring_test`. */
    predicate RingTest(s: nat)
      requires ring.Length == MASK_WORDS
      reads this, ring
    {
      And(ring[Slot(s) / 64], Shl(1, Slot(s) % 64)) != 0
    }

    method IsReceived(rel: nat) returns (r: bool)
      requires Valid()
      ensures r <==> rel < windowSize && base + rel in view.got
    {
      if rel < windowSize { RingTestIs(base + rel); }
      r := rel < windowSize && RingTest(base + rel);
    }

    /** The base passes one delivered position: its bit and both its timers are cleared. */
    method PassBase()
      requires Rings() && view.Untouched(base + MAX_WINDOW)
      modifies this`base, ring, firstMissing, lastNack
      ensures Rings() && base == old(base) + 1
    {
      ghost var words, first, last := ring[..], firstMissing[..], lastNack[..];
      SlideRing(words, base, view.got);
      SlideTimers(first, base, view.gapSince);
      SlideTimers(last, base, view.nackedAt);
      var i := Slot(base);
      ring[i / 64] := And(ring[i / 64], Not(Shl(1, i % 64)));
      firstMissing[i] := 0;
      lastNack[i] := 0;
      base := base + 1;
      assert ring[..] == words[i / 64 := ring[i / 64]];
      assert firstMissing[..] == first[i := 0];
      assert lastNack[..] == last[i := 0];
    }

    /** `slide_base_over_contiguous_prefix`; each round clears a set bit, so it ends. */
    method Slide()
      requires Rings()
      requires forall s: nat | s < base :: s in view.got
      requires view.top <= base + MAX_WINDOW
      requires forall s <- view.got :: s < view.top
      requires forall s: nat | s >= view.top :: view.Untouched(s)
      modifies this`base, ring, firstMissing, lastNack
      ensures Rings() && base == view.Base()
    {
      RingTestIs(base);
      while RingTest(base)
        invariant Rings() && old(base) <= base
        invariant RingTest(base) <==> base in view.got
        invariant forall s: nat | s < base :: s in view.got
        decreases view.top - base
      {
        assert view.Untouched(base + MAX_WINDOW);
        PassBase();
        RingTestIs(base);
      }
      MexUnique(view.got, base);
    }

    lemma RingTestIs(s: nat)
      requires Rings() && base <= s < base + MAX_WINDOW
      ensures RingTest(s) <==> s in view.got
    {
      TestBit(ring[Slot(s) / 64], Slot(s) % 64);
      assert RingBit(ring[..], s) <==> s in view.got;
    }

    method MarkBit(s: nat)
      requires Rings() && base <= s < base + MAX_WINDOW
      modifies this`view, ring
      ensures Rings() && view == old(view).(got := old(view).got + {s})
    {
      ghost var words := ring[..];
      var i := Slot(s);
      OrIsWord(ring[i / 64], Shl(1, i % 64));
      ring[i / 64] := Or(ring[i / 64], Shl(1, i % 64));
      assert ring[..] == words[i / 64 := ring[i / 64]];
      SetRing(words, base, view.got, s, ring[i / 64]);
      view := view.(got := view.got + {s});
    }

    method StampGap(g: nat, now: uint64)
      requires Rings() && base <= g < base + MAX_WINDOW && g !in view.gapSince
      modifies this`view, firstMissing
      ensures Rings() && view == old(view).(gapSince := old(view).gapSince[g := now])
    {
      ghost var first := firstMissing[..];
      assert first[Slot(g)] == Stamp(view.gapSince, g) == 0;
      SetTimer(first, base, view.gapSince, g, now);
      if firstMissing[Slot(g)] == 0 { firstMissing[Slot(g)] := now; }
      assert firstMissing[..] == first[Slot(g) := now];
      view := view.(gapSince := view.gapSince[g := now]);
    }

    /** Each number of `[from, upto)` becomes a gap now; none has a stamp yet. */
    method StampGaps(from: nat, upto: nat, now: uint64)
      requires Rings() && base <= from <= upto <= base + MAX_WINDOW
      requires forall g | from <= g < upto :: g !in view.gapSince
      modifies this`view, firstMissing
      ensures Rings()
      ensures view == old(view).(gapSince := StampAll(old(view).gapSince, from, upto, now))
    {
      hide RingHolds, TimersHold, Span;
      StampNone(view.gapSince, from, now);
      for gap := from to upto
        invariant Rings()
        invariant view == old(view).(gapSince := StampAll(old(view).gapSince, from, gap, now))
      {
        StampNext(old(view).gapSince, from, gap, now);
        StampGap(gap, now);
      }
    }

    /** `s` is the new highest number: everything skipped on the way to it is now a gap. */
    method RaiseTop(s: nat, sendTime: nat, now: uint64)
      requires Rings() && base <= s < base + MAX_WINDOW
      requires view.top == (if haveAny then highest + 1 else 0) && base <= view.top <= s
      requires forall g <- view.gapSince.Keys :: g < view.top
      modifies this`view, this`highest, this`lastSendTime, firstMissing
      ensures Rings() && highest == s && lastSendTime == sendTime
      ensures view == old(view).(top := s + 1, echo := sendTime,
                                 gapSince := StampAll(old(view).gapSince, old(view).top, s, now))
    {
      hide RingHolds, TimersHold;
      var from := if haveAny then highest + 1 else base;
      if from < base { from := base; }
      StampGaps(from, s, now);
      highest, lastSendTime := s, sendTime;
      view := view.(top := s + 1, echo := sendTime);
    }

    /** The block is new and inside the window: record it, stamp the gaps it exposes, slide. */
    method Admit(s: nat, sendTime: nat, now: uint64)
      requires Valid() && view.Judge(windowSize, s) == Accepted
      modifies this, ring, firstMissing, lastNack
      ensures Valid() && view == old(view).Arrive(windowSize, s, sendTime, now)
    {
      hide RingHolds, TimersHold;
      ArriveKeepsWellFormed(view, windowSize, s, sendTime, now);
      MarkBit(s);
      if !haveAny || s > highest { RaiseTop(s, sendTime, now); }
      haveAny := true;
      Slide();
    }

    method OnReceive(s: nat, sendTime: nat, now: uint64) returns (verdict: Verdict)
      requires Valid()
      modifies this, ring, firstMissing, lastNack
      ensures Valid()
      ensures verdict == old(view).Judge(windowSize, s)
      ensures view == old(view).Arrive(windowSize, s, sendTime, now)
    {
      hide TimersHold;
      if s < base { return Duplicate; }
      if s - base >= windowSize {
        overflows := overflows + 1;
        view := view.(overflows := overflows);
        return OutOfWindow;
      }
      RingTestIs(s);
      if RingTest(s) { return Duplicate; }
      Admit(s, sendTime, now);
      return Accepted;
    }

    method BuildAck() returns (ack: Ack)
      requires Valid()
      ensures AckReflects(ack, view) && ack.streamId == streamId
      ensures ack.nonce == 0 && ack.rwnd == RWND_UNLIMITED
    {
      var mask: seq<uint64> := [];
      for w := 0 to MASK_WORDS
        invariant |mask| == w
        invariant forall i | 0 <= i < w :: mask[i] == RelativeWord(ring[..], base, windowSize, i)
      {
        mask := mask + [RelativeWord(ring[..], base, windowSize, w)];
      }
      ack := Ack(streamId, base, mask, lastSendTime, 0, RWND_UNLIMITED);
      MaskReflects(ring[..], view, windowSize, ack);
    }

    method MarkNacked(s: nat, now: uint64)
      requires Rings() && base <= s < base + MAX_WINDOW
      modifies this`view, lastNack
      ensures Rings() && view == old(view).(nackedAt := old(view).nackedAt[s := now])
    {
      ghost var last := lastNack[..];
      SetTimer(last, base, view.nackedAt, s, now);
      lastNack[Slot(s)] := now;
      assert lastNack[..] == last[Slot(s) := now];
      view := view.(nackedAt := view.nackedAt[s := now]);
    }

    /** `collect_nacks` has walked the positions up to `upto` and reported `out`. */
    ghost predicate Scanned(from: Rx, upto: nat, t: Timing, out: seq<nat>)
      reads this, ring, firstMissing, lastNack
    {
      && Rings() && base == from.Base()
      && out == from.DueIn(base, upto, t)
      && view == from.Reported(out, t.now)
    }

    /** One hole of `collect_nacks`: report it if its two timers allow. */
    method ReportHole(ghost from: Rx, s: nat, t: Timing, missing: seq<nat>) returns (out: seq<nat>)
      requires Scanned(from, s, t, missing) && base <= s < base + MAX_WINDOW && s !in from.got
      modifies this`view, lastNack
      ensures Scanned(from, s + 1, t, out)
    {
      out := missing;
      DueInLists(from, base, s, t);
      var since := firstMissing[Slot(s)];
      assert since == Stamp(view.gapSince, s);
      assert lastNack[Slot(s)] == Stamp(view.nackedAt, s) == Stamp(from.nackedAt, s);
      if since == 0 || Sub64(t.now, since) < t.reorder { return; }
      var last := lastNack[Slot(s)];
      if last != 0 && Sub64(t.now, last) < t.renack { return; }
      if |missing| < MAX_WINDOW {
        ReportedNext(from, missing, s, t.now);
        out := missing + [s];
        MarkNacked(s, t.now);
      }
    }

    /** One round of the bit loop: the lowest hole is taken out of `holes` and reported if due. */
    method TakeHole(ghost from: Rx, ghost done: nat, first: nat, ghost span: nat, holes: uint64, t: Timing, missing: seq<nat>)
      returns (rest: uint64, out: seq<nat>, ghost next: nat)
      requires Scanned(from, from.Base() + first + done, t, missing)
      requires HolesLeft(holes, from, first, done, span) && holes != 0 && span < MAX_WINDOW
      modifies this`view, lastNack
      ensures Scanned(from, from.Base() + first + next, t, out)
      ensures HolesLeft(rest, from, first, next, span)
      ensures rest < holes && next <= 64 && first + next <= span + 1
    {
      hide RingHolds, TimersHold, HolesLeft, Bit, And, Rx.DueIn, Rx.Reported;
      LowestHole(holes, from, first, done, span);
      var b := Ctz(holes);
      rest := And(holes, holes - 1);
      DropHole(holes, rest, from, first, done, span);
      DueSkip(from, base, base + first + done, base + first + b, t);
      out := ReportHole(from, base + first + b, t, missing);
      next := b + 1;
    }

    method HolesOf(ghost from: Rx, w: nat, span: nat, ghost t: Timing, ghost out: seq<nat>) returns (holes: uint64)
      requires Scanned(from, from.Base() + 64 * w, t, out) && 64 * w <= span < windowSize
      ensures HolesLeft(holes, from, 64 * w, 0, span)
    {
      AllHoles(ring[..], from, windowSize, w, span);
      holes := Holes(ring[..], base, windowSize, w, span);
    }

    /** How far `collect_nacks` has got once the words below `w` are scanned. */
    ghost function ScanEnd(from: Rx, w: nat): nat {
      if from.Base() + 64 * w <= from.top then from.Base() + 64 * w else from.top
    }

    method ScanWord(ghost from: Rx, w: nat, span: nat, t: Timing, missing: seq<nat>) returns (out: seq<nat>)
      requires Scanned(from, from.Base() + 64 * w, t, missing)
      requires from.top == from.Base() + span + 1 && 64 * w <= span < windowSize <= MAX_WINDOW
      modifies this`view, lastNack
      ensures Scanned(from, ScanEnd(from, w + 1), t, out)
    {
      hide Scanned, HolesLeft;
      out := missing;
      var holes := HolesOf(from, w, span, t, out);
      ghost var done: nat := 0;
      while holes != 0
        invariant Scanned(from, from.Base() + 64 * w + done, t, out)
        invariant HolesLeft(holes, from, 64 * w, done, span)
        invariant done <= 64 && 64 * w + done <= span + 1
        decreases holes
      {
        holes, out, done := TakeHole(from, done, 64 * w, span, holes, t, out);
      }
      WordScanned(from, w, done, span, t, out);
    }

    lemma WordScanned(from: Rx, w: nat, done: nat, span: nat, t: Timing, out: seq<nat>)
      requires Scanned(from, from.Base() + 64 * w + done, t, out) && HolesLeft(0, from, 64 * w, done, span)
      requires from.top == from.Base() + span + 1 && done <= 64 && 64 * w + done <= span + 1
      ensures Scanned(from, ScanEnd(from, w + 1), t, out)
    {
      NoHolesLeft(from, 64 * w, done, span, ScanEnd(from, w + 1), t);
    }

    method ScanWords(span: nat, t: Timing) returns (missing: seq<nat>)
      requires Rings() && base == view.Base() && view.top == base + span + 1 && span < windowSize
      modifies this`view, lastNack
      ensures Scanned(old(view), old(view).top, t, missing)
    {
      ghost var from := view;
      ReportedNone(from, t.now);
      missing := [];
      var w := 0;
      while w * 64 <= span && w < MASK_WORDS
        invariant Scanned(from, ScanEnd(from, w), t, missing)
        decreases MASK_WORDS - w
      {
        missing := ScanWord(from, w, span, t, missing);
        w := w + 1;
      }
    }

    method CollectNacks(t: Timing) returns (nack: Nack)
      requires Valid()
      modifies this`view, lastNack
      ensures Valid()
      ensures nack == Nack(streamId, old(view).Nacks(lossless, t))
      ensures view == old(view).Reported(nack.missing, t.now)
    {
      ghost var from := view;
      var missing: seq<nat> := [];
      ReportedNone(from, t.now);
      if lossless && haveAny && highest >= base { missing := ScanWords(highest - base, t); }
      if from.Base() < from.top { DueInLists(from, from.Base(), from.top, t); }
      ReportedKeepsWellFormed(from, windowSize, missing, t.now);
      nack := Nack(streamId, missing);
    }
  }
}
