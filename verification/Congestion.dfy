/**
 Congestion control and the retransmission timeout (congestion.hpp). The window moves once
 per round-trip epoch; the timeout is the RFC 6298 estimator (section 2) with the backoff of
 its section 5. Fixed-width arithmetic is written out where it could matter.
 */
module Congestion {
  import opened Word64
  import opened Basics
  import Modular

  const TWO32: nat := 0x1_0000_0000
  const POLL_GUARD: nat := 4096
  const MAX_BACKOFF: nat := 6
  const MINUTE_NS: nat := 60_000_000_000
  const VARIANCE_FLOOR: nat := 1_000_000

  type uint32 = x: nat | x < TWO32

  datatype Cc = Cc(
    enabled: bool, cleanToGrow: uint32, growStep: uint32, maxWindow: nat, floor: nat,
    window: nat, slowStart: bool, lossSeen: bool, cleanStreak: nat, start: nat,
    srtt: nat, rttvar: nat, backoff: nat)
  {
    ghost predicate Shaped() {
      1 <= floor <= 2 && floor <= maxWindow < 65536 && (floor == 2 || maxWindow == 1) && window < TWO32
    }

    /** The window is where it should be. */
    ghost predicate InBounds() { floor <= window <= maxWindow }
  }

  function Initial(maxWindow: nat, enabled: bool, cleanToGrow: uint32, growStep: uint32): Cc {
    var max := Max(1, maxWindow);
    var floor := Min(max, 2);
    Cc(enabled, cleanToGrow, growStep, max, floor, if enabled then Max(max / 8, floor) else max,
       false, false, 0, 0, 0, 0, 0)
  }

  /** A new controller starts at an eighth of the maximum, but not under the floor; a disabled one at the maximum. */
  lemma StartsAtAnEighth(maxWindow: nat, enabled: bool, cleanToGrow: uint32, growStep: uint32)
    ensures var c := Initial(maxWindow, enabled, cleanToGrow, growStep);
            && c.maxWindow == Max(1, maxWindow) && (!enabled ==> c.window == c.maxWindow)
            && (enabled ==> (8 * c.window <= c.maxWindow || c.window == c.floor) && 8 * (c.window + 1) > c.maxWindow)
  {}

  // ----- One epoch -----

  function Halved(c: Cc): nat { Max(c.window / 2, c.floor) }

  /** The addition wraps at 32 bits, as the code's does. */
  function Grown(c: Cc): nat { Min((c.window + c.growStep) % TWO32, c.maxWindow) }

  predicate Grows(c: Cc) { !c.lossSeen && !c.slowStart && (c.cleanStreak + 1) % TWO32 >= c.cleanToGrow }

  /** The AIMD decision at the end of one round trip. */
  function Epoch(c: Cc): Cc {
    var d := c.(start := c.start + c.srtt, lossSeen := false);
    if c.lossSeen then d.(window := Halved(c), cleanStreak := 0, slowStart := false)
    else if c.slowStart then
      var w := Min(c.window * 2 % TWO32, c.maxWindow);
      d.(window := w, slowStart := w != c.maxWindow)
    else if Grows(c) then d.(window := Grown(c), cleanStreak := 0)
    else d.(cleanStreak := (c.cleanStreak + 1) % TWO32)
  }

  function Epochs(c: Cc, n: nat): Cc { if n == 0 then c else Epoch(Epochs(c, n - 1)) }

  /** The one way out of bounds: a growth step so large that the sum wraps to below the floor. */
  predicate WrapsBelow(c: Cc) { Grows(c) && TWO32 <= c.window + c.growStep < TWO32 + c.floor }

  /** An epoch keeps the window between floor and maximum, except exactly when the growth wraps below it. */
  lemma EpochInBounds(c: Cc)
    requires c.Shaped() && c.InBounds()
    ensures Epoch(c).Shaped() && (Epoch(c).InBounds() <==> !WrapsBelow(c))
  {}

  /** It can happen, in the very first epoch: a step of 2^32 - 1 takes a window of 2 to 1. */
  lemma GrowthCanWrap()
    ensures var c := Initial(16, true, 0, TWO32 - 1);
            c.Shaped() && c.InBounds() && WrapsBelow(c) && !Epoch(c).InBounds()
  {}

  ghost predicate Roomy(c: Cc) { c.Shaped() && c.InBounds() && c.growStep + c.maxWindow < TWO32 }

  lemma EpochStep(c: Cc)
    requires Roomy(c)
    ensures Roomy(Epoch(c)) && Epoch(c).floor == c.floor && Epoch(c).maxWindow == c.maxWindow
    ensures !Epoch(c).lossSeen && Epoch(c).window >= (if c.lossSeen then Halved(c) else c.window)
  {}

  /** The steps in use are 2 (the default), 8 and 16: they leave room under any 16-bit maximum. */
  lemma StepsInUseLeaveRoom(maxWindow: nat, enabled: bool, cleanToGrow: uint32, growStep: uint32)
    requires maxWindow < 65536 && growStep <= 16
    ensures Roomy(Initial(maxWindow, enabled, cleanToGrow, growStep))
  {}

  /** With a step that leaves room the window never gets out of bounds. */
  lemma {:induction false} WindowStaysInBounds(c: Cc, n: nat)
    requires Roomy(c)
    ensures Roomy(Epochs(c, n)) && Epochs(c, n).floor == c.floor && Epochs(c, n).maxWindow == c.maxWindow
  {
    hide Epoch, Roomy;
    if n > 0 {
      WindowStaysInBounds(c, n - 1);
      EpochStep(Epochs(c, n - 1));
    }
  }

  /** Only the first epoch after a loss halves: over any number of them the window is at least half. */
  lemma {:induction false} AtMostOneHalving(c: Cc, n: nat)
    requires Roomy(c)
    ensures Epochs(c, n).window >= (if c.lossSeen then Halved(c) else c.window)
    ensures n >= 1 ==> !Epochs(c, n).lossSeen
  {
    if n == 0 {
      assert Halved(c) <= c.window;
    } else {
      AtMostOneHalving(c, n - 1);
      WindowStaysInBounds(c, n - 1);
      hide Epoch, Roomy;
      EpochStep(Epochs(c, n - 1));
    }
  }

  /** A loss costs half the window, down to the floor, and ends slow start. */
  lemma LossHalves(c: Cc)
    requires Roomy(c) && c.lossSeen
    ensures var d := Epoch(c);
            && (2 * d.window <= c.window || d.window == c.floor) && 2 * d.window + 1 >= c.window
            && !d.slowStart && d.cleanStreak == 0
  {}

  function Period(c: Cc): (k: nat)
    ensures k >= 1
  {
    Max(1, c.cleanToGrow)
  }

  /** How many growth steps `n` clean epochs make, and how many epochs are left over. */
  function Steps(n: nat, k: nat): nat
    requires k >= 1
  {
    n / k
  }

  function Left(n: nat, k: nat): nat
    requires k >= 1
  {
    n % k
  }

  lemma StepsNext(n: nat, k: nat)
    requires k >= 1
    ensures Left(n, k) < k
    ensures if Left(n, k) + 1 == k then Steps(n + 1, k) == Steps(n, k) + 1 && Left(n + 1, k) == 0
            else Steps(n + 1, k) == Steps(n, k) && Left(n + 1, k) == Left(n, k) + 1
  {
    assert n == n / k * k + n % k;
    if n % k + 1 == k {
      assert (n / k + 1) * k == n / k * k + k;
      Modular.DivModUnique(n + 1, k, n / k + 1, 0);
    } else {
      Modular.DivModUnique(n + 1, k, n / k, n % k + 1);
    }
  }

  function Climbed(w: nat, steps: nat, step: nat): nat { if steps == 0 then w else Climbed(w, steps - 1, step) + step }

  lemma CleanEpoch(c: Cc)
    requires Roomy(c) && !c.lossSeen && !c.slowStart && c.cleanStreak < Period(c)
    ensures var d := Epoch(c);
            && Roomy(d) && !d.lossSeen && !d.slowStart
            && d.growStep == c.growStep && d.cleanToGrow == c.cleanToGrow && d.maxWindow == c.maxWindow
            && (if c.cleanStreak + 1 == Period(c) then d.window == Min(c.maxWindow, c.window + c.growStep) && d.cleanStreak == 0
                else d.window == c.window && d.cleanStreak == c.cleanStreak + 1)
  {}

  /** Without losses the window climbs by one step every `cleanToGrow` epochs, up to the maximum. */
  lemma {:induction false} CleanGrowth(c: Cc, n: nat)
    requires Roomy(c) && !c.lossSeen && !c.slowStart && c.cleanStreak == 0
    ensures var d := Epochs(c, n);
            && d.window == Min(c.maxWindow, Climbed(c.window, Steps(n, Period(c)), c.growStep))
            && d.cleanStreak == Left(n, Period(c)) && Roomy(d) && !d.lossSeen && !d.slowStart
            && d.growStep == c.growStep && d.cleanToGrow == c.cleanToGrow && d.maxWindow == c.maxWindow
  {
    assert n == 0 ==> Steps(n, Period(c)) == 0 && Left(n, Period(c)) == 0;
    hide Epoch, Steps, Left, Roomy;
    if n > 0 {
      CleanGrowth(c, n - 1);
      StepsNext(n - 1, Period(c));
      CleanEpoch(Epochs(c, n - 1));
    }
  }

  /** In slow start it doubles every epoch until it reaches the maximum. */
  lemma {:induction false} SlowStartDoubles(c: Cc, n: nat)
    requires Roomy(c) && !c.lossSeen && c.slowStart && Doubled(c.window, n) < c.maxWindow
    ensures var d := Epochs(c, n);
            d.window == Doubled(c.window, n) && d.slowStart && !d.lossSeen && d.maxWindow == c.maxWindow
  {
    if n > 0 { SlowStartDoubles(c, n - 1); }
  }

  /** It ends with the epoch that reaches the maximum, and not before. */
  lemma SlowStartEnds(c: Cc)
    requires Roomy(c) && !c.lossSeen && c.slowStart
    ensures var d := Epoch(c);
            (d.slowStart <==> 2 * c.window < c.maxWindow) && (!d.slowStart ==> d.window == c.maxWindow)
  {}

  // ----- Polling -----

  /** Whole round trips since the epoch began. */
  function Elapsed(c: Cc, now: nat): nat
    requires c.srtt > 0 && c.start <= now
  {
    (now - c.start) / c.srtt
  }

  /** `poll`, for a clock that does not run backwards. */
  function Poll(c: Cc, now: nat): Cc
    requires c.start <= now
  {
    if !c.enabled || c.srtt == 0 then c
    else if c.start == 0 then c.(start := now)
    else Epochs(c, Min(Elapsed(c, now), POLL_GUARD))
  }

  lemma {:induction false} EpochsKeep(c: Cc, n: nat)
    ensures var d := Epochs(c, n);
            d.start == c.start + n * c.srtt && d.srtt == c.srtt && d.enabled == c.enabled
            && d.rttvar == c.rttvar && d.backoff == c.backoff
  {
    if n > 0 {
      EpochsKeep(c, n - 1);
      assert n * c.srtt == (n - 1) * c.srtt + c.srtt;
    }
  }

  lemma {:induction false} EpochsAdd(c: Cc, a: nat, b: nat)
    ensures Epochs(Epochs(c, a), b) == Epochs(c, a + b)
  {
    if b > 0 { EpochsAdd(c, a, b - 1); }
  }

  lemma ElapsedSplits(c: Cc, t1: nat, t2: nat, d: Cc)
    requires c.srtt > 0 && c.start <= t1 <= t2
    requires d.srtt == c.srtt && d.start == c.start + Elapsed(c, t1) * c.srtt
    ensures d.start <= t1 && Elapsed(c, t1) <= Elapsed(c, t2)
    ensures Elapsed(c, t2) == Elapsed(c, t1) + Elapsed(d, t2)
  {
    var k := Elapsed(c, t1);
    assert t1 - c.start == k * c.srtt + (t1 - c.start) % c.srtt;
    Modular.DivMono(t1 - c.start, t2 - c.start, c.srtt);
    Modular.ModAdd(t2 - d.start, k, c.srtt);
  }

  /**
   Polling often or rarely is the same: for a started controller, with nothing happening in
   between and within the guard of 4096 epochs, polling at t1 and then at t2 is polling at t2.
   */
  lemma PollComposes(c: Cc, t1: nat, t2: nat)
    requires 0 < c.start <= t1 <= t2 && c.enabled && c.srtt > 0 && Elapsed(c, t2) <= POLL_GUARD
    ensures Poll(c, t1).start <= t2 && Poll(Poll(c, t1), t2) == Poll(c, t2)
  {
    var k := Elapsed(c, t1);
    EpochsKeep(c, k);
    var d := Epochs(c, k);
    ElapsedSplits(c, t1, t2, d);
    hide Elapsed, Epochs;
    EpochsAdd(c, k, Elapsed(d, t2));
    assert Poll(c, t1) == d;
  }

  /** A poll catches up: after it less than a round trip is left over, or it has gone through 4096 epochs. */
  lemma PollCatchesUp(c: Cc, now: nat) returns (n: nat)
    requires c.enabled && c.srtt > 0 && c.start <= now
    ensures if c.start == 0 then Poll(c, now) == c.(start := now)
            else
              && Poll(c, now) == Epochs(c, n) && n <= POLL_GUARD && c.start + n * c.srtt <= now
              && (n < POLL_GUARD ==> now - (c.start + n * c.srtt) < c.srtt)
  {
    n := Min(Elapsed(c, now), POLL_GUARD);
    EpochDue(c, now, n);
    hide Elapsed, Epochs;
  }

  // ----- The round-trip estimate -----

  /** `rtt_sample_from_echo`: wrap-safe, and 0 for an echo that is not plausibly ours. */
  function SampleFromEcho(wireNow: uint64, echoed: uint64): (r: nat)
    ensures r < MINUTE_NS
  {
    var d := Sub64(wireNow, echoed);
    if d < MINUTE_NS then d else 0
  }

  /** Whatever random offset the clock on the wire has, the sample is the true round trip. */
  lemma EchoIsRoundTrip(sent: nat, now: nat, offset: uint64)
    requires sent <= now && now - sent < MINUTE_NS
    ensures SampleFromEcho((now + offset) % TWO64, (sent + offset) % TWO64) == now - sent
  {
    var a, b := (now + offset) % TWO64, (sent + offset) % TWO64;
    var q, p := (now + offset) / TWO64, (sent + offset) / TWO64;
    assert now + offset == q * TWO64 + a && sent + offset == p * TWO64 + b;
    Modular.DivMono(sent + offset, now + offset, TWO64);
    assert q <= p + 1;
  }

  function Sampled(c: Cc, sample: nat): Cc {
    if !c.enabled || sample == 0 then c
    else if c.srtt == 0 then c.(srtt := sample, rttvar := sample / 2)
    else
      var dev := if c.srtt > sample then c.srtt - sample else sample - c.srtt;
      c.(rttvar := (c.rttvar * 3 + dev) / 4, srtt := (c.srtt * 7 + sample) / 8)
  }

  function SampledAll(c: Cc, samples: seq<nat>): Cc {
    if samples == [] then c else Sampled(SampledAll(c, samples[..|samples| - 1]), samples[|samples| - 1])
  }

  /** The estimate lies between the smallest and the largest sample, its variation below the largest. */
  lemma {:induction false} EstimateIsBetween(c: Cc, samples: seq<nat>, lo: nat, hi: nat)
    requires c.srtt == 0 && c.rttvar == 0 && c.enabled
    requires forall i | 0 <= i < |samples| :: samples[i] != 0 ==> lo <= samples[i] <= hi
    ensures var d := SampledAll(c, samples);
            d.enabled && (d.srtt == 0 || lo <= d.srtt <= hi) && d.rttvar <= hi
  {
    if samples != [] {
      var n := |samples| - 1;
      EstimateIsBetween(c, samples[..n], lo, hi);
    }
  }

  /** The gains: an eighth of the way to the sample for SRTT, a quarter of the way to the deviation for RTTVAR. */
  lemma Gains(c: Cc, sample: nat)
    requires c.enabled && c.srtt > 0 && sample > 0
    ensures var d := Sampled(c, sample);
            && (c.srtt >= sample ==> d.srtt - sample == 7 * (c.srtt - sample) / 8)
            && (c.srtt <= sample ==> sample - d.srtt == (7 * (sample - c.srtt) + 7) / 8)
            && (c.srtt == sample ==> d.rttvar == 3 * c.rttvar / 4)
            && (c.rttvar == c.srtt - sample || c.rttvar == sample - c.srtt ==> d.rttvar == c.rttvar)
  {}

  /** So under equal samples the estimate settles: its distance from them never grows, and shrinks while it is 8 ns or more. */
  lemma {:induction false} EstimateSettles(c: Cc, samples: seq<nat>, x: nat)
    requires c.enabled && c.srtt > 0 && x > 0 && forall i | 0 <= i < |samples| :: samples[i] == x
    ensures var d := SampledAll(c, samples);
            && d.enabled && d.srtt > 0 && Apart(d.srtt, x) <= Apart(c.srtt, x)
            && (Apart(d.srtt, x) < 8 || Apart(d.srtt, x) + |samples| <= Apart(c.srtt, x))
  {
    if samples != [] {
      var n := |samples| - 1;
      EstimateSettles(c, samples[..n], x);
      var d := SampledAll(c, samples[..n]);
      Gains(d, x);
      hide Sampled;
    }
  }

  function Apart(a: nat, b: nat): nat { if a >= b then a - b else b - a }

  // ----- The timeout -----

  function Clamp(x: nat, lo: nat, hi: nat): nat { if x < lo then lo else if x > hi then hi else x }

  /** Before backoff: SRTT + 4 RTTVAR, with a floor on the variance term and never under 2 SRTT. */
  function BaseRto(c: Cc, lo: nat, hi: nat, initial: nat): nat {
    Clamp(if c.srtt == 0 then initial else Max(c.srtt + Max(c.rttvar * 4, VARIANCE_FLOOR), 2 * c.srtt), lo, hi)
  }

  function Doubled(x: nat, n: nat): (r: nat)
    ensures r >= x
  {
    if n == 0 then x else 2 * Doubled(x, n - 1)
  }

  /** With backoff: doubled once per consecutive timeout, up to the maximum. */
  function Rto(c: Cc, lo: nat, hi: nat, initial: nat): nat { Min(Doubled(BaseRto(c, lo, hi, initial), c.backoff), hi) }

  lemma RtoInBounds(c: Cc, lo: nat, hi: nat, initial: nat)
    requires lo <= hi
    ensures lo <= Rto(c, lo, hi, initial) <= hi
  {}

  /** One more timeout never shortens it and at most doubles it. */
  lemma RtoAtMostDoubles(c: Cc, lo: nat, hi: nat, initial: nat)
    requires lo <= hi
    ensures var d := TimedOut(c);
            Rto(c, lo, hi, initial) <= Rto(d, lo, hi, initial) <= 2 * Rto(c, lo, hi, initial)
  {
    assert BaseRto(TimedOut(c), lo, hi, initial) == BaseRto(c, lo, hi, initial);
  }

  /** Without backoff it is the least value within its limits that is no less than each of its three bounds. */
  lemma RtoIsLeast(c: Cc, lo: nat, hi: nat, initial: nat, x: nat)
    requires c.backoff == 0 && lo <= x < hi
    ensures Rto(c, lo, hi, initial) <= x <==>
            if c.srtt == 0 then initial <= x
            else c.srtt + 4 * c.rttvar <= x && c.srtt + VARIANCE_FLOOR <= x && 2 * c.srtt <= x
  {}

  /** Each timeout, up to the sixth in a row, doubles it exactly, but for the maximum. */
  lemma RtoDoubles(c: Cc, lo: nat, hi: nat, initial: nat)
    requires lo <= hi && c.backoff < MAX_BACKOFF
    ensures Rto(TimedOut(c), lo, hi, initial) == Min(2 * Rto(c, lo, hi, initial), hi)
  {
    assert BaseRto(TimedOut(c), lo, hi, initial) == BaseRto(c, lo, hi, initial);
  }

  /** `on_timeout`: a loss only for the first of a run of timeouts. */
  function TimedOut(c: Cc): Cc {
    var d := if c.backoff == 0 && c.enabled then c.(lossSeen := true) else c;
    if c.backoff < MAX_BACKOFF then d.(backoff := c.backoff + 1) else d
  }

  function TimedOutTimes(c: Cc, n: nat): Cc { if n == 0 then c else TimedOut(TimedOutTimes(c, n - 1)) }

  /** However long a run of timeouts lasts, it is one loss. */
  lemma {:induction false} TimeoutRunIsOneLoss(c: Cc, n: nat)
    requires c.backoff <= MAX_BACKOFF
    ensures TimedOutTimes(c, n) == c.(lossSeen := c.lossSeen || (n > 0 && c.backoff == 0 && c.enabled),
                                      backoff := Min(c.backoff + n, MAX_BACKOFF))
  {
    if n > 0 { TimeoutRunIsOneLoss(c, n - 1); }
  }

  // ----- Whole runs -----

  datatype Event = Polled(now: nat) | Echoed(wireNow: uint64, echoed: uint64) | Lost | TimerFired | Progressed

  /** What one event does; a poll by a clock that ran backwards is left out. */
  function On(c: Cc, e: Event): Cc {
    match e
    case Polled(now) => if c.start <= now then Poll(c, now) else c
    case Echoed(wireNow, echoed) => Sampled(c, SampleFromEcho(wireNow, echoed))
    case Lost => c.(lossSeen := c.lossSeen || c.enabled)
    case TimerFired => TimedOut(c)
    case Progressed => c.(backoff := 0)
  }

  function After(c: Cc, events: seq<Event>): Cc {
    if events == [] then c else On(After(c, events[..|events| - 1]), events[|events| - 1])
  }

  ghost predicate Sane(c: Cc) {
    Roomy(c) && c.srtt < MINUTE_NS && c.rttvar < MINUTE_NS && c.backoff <= MAX_BACKOFF
  }

  lemma PollIsSane(c: Cc, now: nat)
    requires Sane(c) && c.start <= now
    ensures Sane(Poll(c, now))
  {
    if c.srtt > 0 {
      var n := Min(Elapsed(c, now), POLL_GUARD);
      WindowStaysInBounds(c, n);
      EpochsKeep(c, n);
    }
  }

  /**
   In every run of polls, echoes, losses, timeouts and progress, in any order: the window lies
   between its floor and its maximum, and the estimates stay so small that no timeout overflows.
   */
  lemma {:induction false} EveryRunIsSane(c: Cc, events: seq<Event>)
    requires Sane(c)
    ensures Sane(After(c, events))
  {
    if events != [] {
      var n := |events| - 1;
      EveryRunIsSane(c, events[..n]);
      var d := After(c, events[..n]);
      if events[n].Polled? && d.start <= events[n].now { PollIsSane(d, events[n].now); }
    }
  }

  /** The window of a stream without congestion control never moves, whatever happens. */
  lemma {:induction false} DisabledNeverMoves(c: Cc, events: seq<Event>)
    requires !c.enabled
    ensures !After(c, events).enabled && After(c, events).window == c.window && !(After(c, events).lossSeen && !c.lossSeen)
  {
    if events != [] { DisabledNeverMoves(c, events[..|events| - 1]); }
  }

  // ----- The controller as it runs -----

  lemma EpochDue(c: Cc, now: nat, g: nat)
    requires c.srtt > 0 && c.start <= now && g <= Elapsed(c, now)
    ensures c.start + g * c.srtt <= now
    ensures now - (c.start + g * c.srtt) < c.srtt <==> g == Elapsed(c, now)
  {
    var k := Elapsed(c, now);
    assert now - c.start == k * c.srtt + (now - c.start) % c.srtt;
    if g < k { Modular.MulStep(g, k, c.srtt); }
  }

  class CongestionController {
    var enabled: bool
    var cleanToGrow: uint32
    var growStep: uint32
    var maxWindow: nat
    var floor: nat
    var window: nat
    var slowStart: bool
    var lossSeen: bool
    var cleanStreak: nat
    var start: nat
    var srtt: nat
    var rttvar: nat
    var backoff: nat

    ghost function View(): Cc
      reads this
    {
      Cc(enabled, cleanToGrow, growStep, maxWindow, floor, window, slowStart, lossSeen, cleanStreak, start, srtt, rttvar, backoff)
    }

    constructor (maxWindow: nat, enabled: bool, cleanToGrow: uint32, growStep: uint32)
      requires maxWindow < 65536
      ensures View() == Initial(maxWindow, enabled, cleanToGrow, growStep)
      ensures View().Shaped() && View().InBounds()
    {
      this.enabled, this.cleanToGrow, this.growStep := enabled, cleanToGrow, growStep;
      var max := if maxWindow < 1 then 1 else maxWindow;
      var least := if max < 2 then max else 2;
      var first := max / 8;
      this.maxWindow, floor := max, least;
      window := if !enabled then max else if first < least then least else first;
      slowStart, lossSeen, cleanStreak, start, srtt, rttvar, backoff := false, false, 0, 0, 0, 0, 0;
    }

    /** Opt-in slow start: the initial window is brought into bounds. */
    method EnableSlowStart(initial: nat)
      requires View().Shaped() && View().InBounds()
      modifies this
      ensures View() == if old(enabled) then old(View()).(slowStart := true, window := window) else old(View())
      ensures View().Shaped() && View().InBounds() && (enabled ==> window == Clamp(initial, floor, maxWindow))
    {
      if !enabled { return; }
      slowStart := true;
      window := if initial < floor then floor else if initial > maxWindow then maxWindow else initial;
    }

    method EndEpoch()
      modifies this
      ensures View() == Epoch(old(View()))
    {
      start := start + srtt;
      if lossSeen {
        var halved := window / 2;
        window := if halved < floor then floor else halved;
        cleanStreak, slowStart := 0, false;
      } else if slowStart {
        var doubled := window * 2 % TWO32;
        window := if doubled > maxWindow then maxWindow else doubled;
        if window == maxWindow { slowStart := false; }
      } else {
        cleanStreak := (cleanStreak + 1) % TWO32;
        if cleanStreak >= cleanToGrow {
          var grown := (window + growStep) % TWO32;
          window := if grown > maxWindow then maxWindow else grown;
          cleanStreak := 0;
        }
      }
      lossSeen := false;
    }

    /** `poll`: at most 4096 epochs a call, however far the clock jumped. */
    method PollAt(now: nat)
      requires start <= now
      modifies this
      ensures View() == Poll(old(View()), now)
    {
      if !enabled || srtt == 0 { return; }
      if start == 0 {
        start := now;
        return;
      }
      ghost var c := View();
      hide Epoch, Elapsed;
      var guard := 0;
      EpochDue(c, now, 0);
      while guard < POLL_GUARD
        invariant 0 <= guard <= POLL_GUARD && guard <= Elapsed(c, now) && View() == Epochs(c, guard)
        invariant start == c.start + guard * c.srtt <= now && srtt == c.srtt
      {
        EpochDue(c, now, guard);
        if now - start < srtt { break; }
        EpochsKeep(c, guard + 1);
        EndEpoch();
        guard := guard + 1;
        EpochDue(c, now, guard);
      }
    }

    method OnRttSample(sample: nat)
      modifies this
      ensures View() == Sampled(old(View()), sample)
    {
      if !enabled || sample == 0 { return; }
      if srtt == 0 {
        srtt, rttvar := sample, sample / 2;
      } else {
        var dev := if srtt > sample then srtt - sample else sample - srtt;
        rttvar := (rttvar * 3 + dev) / 4;
        srtt := (srtt * 7 + sample) / 8;
      }
    }

    /** `rto_ns` in 64-bit arithmetic: for estimates under a minute nothing overflows. */
    method RtoNs(lo: nat, hi: nat, initial: nat) returns (rto: nat)
      requires lo <= hi <= TWO64 / 2 && initial < TWO64
      ensures srtt < MINUTE_NS && rttvar < MINUTE_NS ==> rto == Rto(View(), lo, hi, initial)
    {
      rto := Estimate(initial);
      rto := if rto < lo then lo else if rto > hi then hi else rto;
      rto := Backoff(rto, hi);
    }

    method Estimate(initial: nat) returns (rto: nat)
      requires initial < TWO64
      ensures srtt < MINUTE_NS && rttvar < MINUTE_NS ==>
                rto == if srtt == 0 then initial else Max(srtt + Max(rttvar * 4, VARIANCE_FLOOR), 2 * srtt)
    {
      rto := initial;
      if srtt != 0 {
        var term := rttvar * 4 % TWO64;
        if term <= VARIANCE_FLOOR { term := VARIANCE_FLOOR; }
        rto := (srtt + term) % TWO64;
        if rto < 2 * srtt % TWO64 { rto := 2 * srtt % TWO64; }
      }
    }

    /** The doubling loop and its final cap. */
    method Backoff(rto0: nat, hi: nat) returns (rto: nat)
      requires rto0 <= hi <= TWO64 / 2
      ensures rto == Min(Doubled(rto0, backoff), hi)
    {
      rto := rto0;
      var i := 0;
      while i < backoff && rto < hi
        invariant 0 <= i <= backoff && rto == Doubled(rto0, i)
      {
        rto := rto * 2 % TWO64;
        i := i + 1;
      }
      StillLarge(rto0, i, backoff);
      if rto > hi { rto := hi; }
    }

    method OnTimeout()
      modifies this
      ensures View() == TimedOut(old(View()))
    {
      if backoff == 0 && enabled { lossSeen := true; }
      if backoff < MAX_BACKOFF { backoff := backoff + 1; }
    }

    /** The path works again: backoff ends, nothing else changes. */
    method OnProgress()
      modifies this
      ensures View() == old(View()).(backoff := 0)
    {
      backoff := 0;
    }

    method OnLoss()
      modifies this
      ensures View() == old(View()).(lossSeen := old(lossSeen) || enabled)
    {
      if enabled { lossSeen := true; }
    }
  }

  lemma {:induction false} StillLarge(x: nat, i: nat, j: nat)
    requires i <= j
    ensures Doubled(x, i) <= Doubled(x, j)
    decreases j
  {
    if i < j { StillLarge(x, i, j - 1); }
  }
}
