/**
 What the gap timers promise over whole runs of one receive window: which gaps
 are reported, when, and how often.
 */
module NackRuns {
  import opened Word64
  import opened ReceiverWindow

  datatype Event = Block(s: nat, sendTime: nat, at: uint64) | Scan(timing: Timing)
  {
    function Now(): uint64 { match this case Block(_, _, at) => at case Scan(t) => t.now }
  }

  /** Window size and LOSSLESS flag of the stream. */
  datatype Stream = Stream(window: nat, lossless: bool)

  function Step(st: Stream, rx: Rx, e: Event): Rx {
    match e
    case Block(s, sendTime, at) => rx.Arrive(st.window, s, sendTime, at)
    case Scan(t) => rx.Reported(rx.Nacks(st.lossless, t), t.now)
  }

  function After(st: Stream, run: seq<Event>): Rx {
    if run == [] then EMPTY else Step(st, After(st, run[..|run| - 1]), run[|run| - 1])
  }

  /** The clock is never zero and never runs backwards. */
  ghost predicate Clocked(run: seq<Event>) {
    && (forall i | 0 <= i < |run| :: run[i].Now() > 0)
    && (forall i, j | 0 <= i <= j < |run| :: run[i].Now() <= run[j].Now())
  }

  /** Event `i` of the run is a scan that reports `s`. */
  predicate Reports(st: Stream, run: seq<Event>, i: nat, s: nat)
    requires i < |run|
  {
    run[i].Scan? && s in After(st, run[..i]).Nacks(st.lossless, run[i].timing)
  }

  /** Event `k` is the arrival of a block above `s`, accepted while `s` was missing. */
  predicate Exposes(st: Stream, run: seq<Event>, k: nat, s: nat)
    requires k < |run|
  {
    && run[k].Block? && s < run[k].s
    && var before := After(st, run[..k]);
       before.Judge(st.window, run[k].s) == Accepted && s !in before.got
  }

  lemma AfterNext(st: Stream, run: seq<Event>, n: nat)
    requires n < |run|
    ensures After(st, run[..n + 1]) == Step(st, After(st, run[..n]), run[n])
  {
    assert run[..n + 1][..n] == run[..n];
  }

  lemma {:induction false} RunWellFormed(st: Stream, run: seq<Event>, n: nat)
    requires st.window >= 1 && n <= |run|
    ensures After(st, run[..n]).WellFormed(st.window)
  {
    if n == 0 {
      MexUnique({}, 0);
    } else {
      RunWellFormed(st, run, n - 1);
      AfterNext(st, run, n - 1);
      var before := After(st, run[..n - 1]);
      match run[n - 1]
      case Block(s, sendTime, at) => ArriveKeepsWellFormed(before, st.window, s, sendTime, at);
      case Scan(t) =>
        DueInLists(before, before.Base(), before.top, t);
        ReportedKeepsWellFormed(before, st.window, before.Nacks(st.lossless, t), t.now);
    }
  }

  /** Event `k` is the first that exposes `s`. */
  ghost predicate FirstExposes(st: Stream, run: seq<Event>, k: nat, s: nat)
    requires k < |run|
  {
    Exposes(st, run, k, s) && forall i | 0 <= i < k :: !Exposes(st, run, i, s)
  }

  /** The stamp of `s` is the time of the first arrival, among the first `n` events, that exposed it. */
  ghost predicate StampedBy(st: Stream, run: seq<Event>, n: nat, s: nat, stamp: nat)
    requires n <= |run|
  {
    exists k: nat :: k < n && FirstExposes(st, run, k, s) && stamp == run[k].Now()
  }

  /** Every gap below the highest block carries such a stamp, and nothing above it was ever exposed. */
  ghost predicate AllStamped(st: Stream, run: seq<Event>, n: nat, rx: Rx)
    requires n <= |run|
  {
    && (forall s: nat | s < rx.top && s !in rx.got :: s in rx.gapSince)
    && (forall s <- rx.gapSince.Keys :: StampedBy(st, run, n, s, rx.gapSince[s]))
    && (forall k: nat, s: nat | k < n && Exposes(st, run, k, s) :: s < rx.top)
  }

  lemma StampedNext(st: Stream, run: seq<Event>, n: nat, rx: Rx)
    requires n < |run| && rx == After(st, run[..n]) && rx.WellFormed(st.window)
    requires AllStamped(st, run, n, rx)
    ensures AllStamped(st, run, n + 1, Step(st, rx, run[n]))
  {
    hide After, Mex, Rx.DueIn;
    var after := Step(st, rx, run[n]);
    forall s <- after.gapSince.Keys ensures StampedBy(st, run, n + 1, s, after.gapSince[s]) {
      if s in rx.gapSince {
        assert after.gapSince[s] == rx.gapSince[s];
        var k: nat :| k < n && FirstExposes(st, run, k, s) && rx.gapSince[s] == run[k].Now();
      } else {
        assert Exposes(st, run, n, s);
        assert FirstExposes(st, run, n, s);
      }
    }
  }

  lemma {:induction false} RunStamped(st: Stream, run: seq<Event>, n: nat)
    requires st.window >= 1 && n <= |run|
    ensures AllStamped(st, run, n, After(st, run[..n]))
  {
    if n > 0 {
      RunStamped(st, run, n - 1);
      RunWellFormed(st, run, n - 1);
      AfterNext(st, run, n - 1);
      StampedNext(st, run, n - 1, After(st, run[..n - 1]));
    }
  }

  /** The last report of `s` is no earlier than any report of `s` so far, and not in the future. */
  lemma {:induction false} LastReport(st: Stream, run: seq<Event>, n: nat, i: nat, s: nat)
    requires Clocked(run) && i < n <= |run| && Reports(st, run, i, s)
    ensures s in After(st, run[..n]).nackedAt
    ensures run[i].Now() <= After(st, run[..n]).nackedAt[s] <= run[n - 1].Now()
    decreases n
  {
    AfterNext(st, run, n - 1);
    if i < n - 1 {
      LastReport(st, run, n - 1, i, s);
      assert run[n - 2].Now() <= run[n - 1].Now();
      assert run[i].Now() <= run[n - 1].Now();
    }
  }

  /** Number `s` was reported at time `at`, by one of the first `n` events. */
  ghost predicate ReportedAt(st: Stream, run: seq<Event>, n: nat, s: nat, at: nat)
    requires n <= |run|
  {
    exists i: nat :: i < n && Reports(st, run, i, s) && at == run[i].Now()
  }

  /** And a number has a time of its last report only if it was reported then. */
  lemma {:induction false} NackedWasReported(st: Stream, run: seq<Event>, n: nat, s: nat)
    requires n <= |run| && s in After(st, run[..n]).nackedAt
    ensures ReportedAt(st, run, n, s, After(st, run[..n]).nackedAt[s])
    decreases n
  {
    AtFirst(st, run);
    hide After, Step, Reports;
    if n > 0 {
      AfterNext(st, run, n - 1);
      ReportStamps(st, run, n - 1, After(st, run[..n - 1]), s);
      if !Reports(st, run, n - 1, s) {
        NackedWasReported(st, run, n - 1, s);
      }
    }
  }

  lemma AtFirst(st: Stream, run: seq<Event>)
    ensures After(st, run[..0]).nackedAt == map[]
  {}

  /** A step stamps exactly the numbers it reports. */
  lemma ReportStamps(st: Stream, run: seq<Event>, n: nat, rx: Rx, s: nat)
    requires n < |run| && rx == After(st, run[..n]) && s in Step(st, rx, run[n]).nackedAt
    ensures if Reports(st, run, n, s) then Step(st, rx, run[n]).nackedAt[s] == run[n].Now()
            else s in rx.nackedAt && Step(st, rx, run[n]).nackedAt[s] == rx.nackedAt[s]
  {
    hide After, Mex, Rx.DueIn;
  }

  /** The first event to expose `s` is at least the reorder delay old at scan `j`. */
  ghost predicate LongExposed(st: Stream, run: seq<Event>, j: nat, s: nat)
    requires j < |run| && run[j].Scan?
  {
    exists k: nat :: k < j && FirstExposes(st, run, k, s) && run[j].Now() - run[k].Now() >= run[j].timing.reorder
  }

  /** Every earlier report of `s` is at least the re-NACK interval old at scan `j`. */
  ghost predicate NotJustReported(st: Stream, run: seq<Event>, j: nat, s: nat)
    requires j < |run| && run[j].Scan?
  {
    forall i: nat | i < j && Reports(st, run, i, s) :: run[j].Now() - run[i].Now() >= run[j].timing.renack
  }

  /**
   NACK timing, in every run: a reported number is missing; the first block that exposed it
   arrived at least the reorder delay ago; and an earlier report of the same number is
   at least the re-NACK interval old.
   */
  lemma ReportedGapsAreDue(st: Stream, run: seq<Event>, j: nat, s: nat)
    requires st.window >= 1 && Clocked(run) && j < |run| && Reports(st, run, j, s)
    ensures After(st, run[..j]).Base() <= s < After(st, run[..j]).top && s !in After(st, run[..j]).got
    ensures LongExposed(st, run, j, s) && NotJustReported(st, run, j, s)
  {
    var rx, t := After(st, run[..j]), run[j].timing;
    RunStamped(st, run, j);
    RunWellFormed(st, run, j);
    DueInLists(rx, rx.Base(), rx.top, t);
    assert rx.Due(s, t);
    var k: nat :| k < j && FirstExposes(st, run, k, s) && rx.gapSince[s] == run[k].Now();
    assert run[k].Now() <= run[j].Now();
    forall i: nat | i < j && Reports(st, run, i, s)
      ensures run[j].Now() - run[i].Now() >= t.renack
    {
      LastReport(st, run, j, i, s);
      assert run[j - 1].Now() <= run[j].Now();
      assert run[i].Now() > 0;
    }
  }

  lemma LongExposedIsOld(st: Stream, run: seq<Event>, j: nat, s: nat)
    requires st.window >= 1 && Clocked(run) && j < |run| && run[j].Scan?
    requires s < After(st, run[..j]).top && s !in After(st, run[..j]).got && LongExposed(st, run, j, s)
    ensures var rx := After(st, run[..j]);
            s in rx.gapSince && 0 < rx.gapSince[s] <= run[j].Now() && run[j].Now() - rx.gapSince[s] >= run[j].timing.reorder
  {
    RunStamped(st, run, j);
    var rx := After(st, run[..j]);
    assert s in rx.gapSince.Keys;
    var k: nat :| k < j && FirstExposes(st, run, k, s) && rx.gapSince[s] == run[k].Now();
    var k': nat :| k' < j && FirstExposes(st, run, k', s) && run[j].Now() - run[k'].Now() >= run[j].timing.reorder;
    assert k == k';
  }

  /** And the other way round: a gap that old, not reported within the interval, is reported (again). */
  lemma DueGapsAreReported(st: Stream, run: seq<Event>, j: nat, s: nat)
    requires st.window >= 1 && st.lossless && Clocked(run) && j < |run| && run[j].Scan?
    requires After(st, run[..j]).Base() <= s < After(st, run[..j]).top && s !in After(st, run[..j]).got
    requires LongExposed(st, run, j, s) && NotJustReported(st, run, j, s)
    ensures Reports(st, run, j, s)
  {
    var rx, t := After(st, run[..j]), run[j].timing;
    LongExposedIsOld(st, run, j, s);
    DueInLists(rx, rx.Base(), rx.top, t);
    hide After, LongExposed, Mex, Rx.DueIn;
    if s in rx.nackedAt {
      NackedWasReported(st, run, j, s);
      var i: nat :| i < j && Reports(st, run, i, s) && rx.nackedAt[s] == run[i].Now();
      assert run[i].Now() <= run[j].Now();
      assert run[j].Now() - rx.nackedAt[s] >= t.renack;
    }
    assert rx.Due(s, t);
  }

  /**
   Together: a scan of a lossless stream reports a number exactly if it is missing below the highest
   block, was first exposed at least the reorder delay ago, and was not reported within the
   re-NACK interval - however often it has been reported before.
   */
  lemma ReportedExactly(st: Stream, run: seq<Event>, j: nat, s: nat)
    requires st.window >= 1 && st.lossless && Clocked(run) && j < |run| && run[j].Scan?
    ensures var rx := After(st, run[..j]);
            Reports(st, run, j, s) <==>
              rx.Base() <= s < rx.top && s !in rx.got && LongExposed(st, run, j, s) && NotJustReported(st, run, j, s)
  {
    hide After, Reports, LongExposed, NotJustReported, Mex;
    var rx := After(st, run[..j]);
    if Reports(st, run, j, s) { ReportedGapsAreDue(st, run, j, s); }
    if rx.Base() <= s < rx.top && s !in rx.got && LongExposed(st, run, j, s) && NotJustReported(st, run, j, s) {
      DueGapsAreReported(st, run, j, s);
    }
  }

  /** A lossy stream never asks for anything. */
  lemma LossyNeverReports(st: Stream, run: seq<Event>, j: nat, s: nat)
    requires !st.lossless && j < |run|
    ensures !Reports(st, run, j, s)
  {}

  // ----- The echoed send time and the overflow count -----

  /** How many blocks of the run were turned away above the window. */
  function Rejected(st: Stream, run: seq<Event>): nat {
    if run == [] then 0
    else
      var n := |run| - 1;
      Rejected(st, run[..n]) + if run[n].Block? && After(st, run[..n]).Judge(st.window, run[n].s) == OutOfWindow then 1 else 0
  }

  ghost predicate EchoOk(st: Stream, run: seq<Event>, n: nat, rx: Rx)
    requires n <= |run|
  {
    if rx.top == 0 then rx.echo == 0
    else exists k: nat :: k < n && RaisedBy(st, run, k, rx.top - 1) && rx.echo == run[k].sendTime
  }

  lemma EchoNext(st: Stream, run: seq<Event>, n: nat, rx: Rx)
    requires n < |run| && rx == After(st, run[..n]) && EchoOk(st, run, n, rx)
    ensures EchoOk(st, run, n + 1, Step(st, rx, run[n]))
    ensures Step(st, rx, run[n]).overflows == rx.overflows + if run[n].Block? && rx.Judge(st.window, run[n].s) == OutOfWindow then 1 else 0
  {
    hide After, Mex, Rx.DueIn;
    var after := Step(st, rx, run[n]);
    if after.top != rx.top {
      assert RaisedBy(st, run, n, after.top - 1);
    } else if rx.top > 0 {
      var k: nat :| k < n && RaisedBy(st, run, k, rx.top - 1) && rx.echo == run[k].sendTime;
    }
  }

  /** The time an ACK echoes is the send time of the highest block accepted; and overflows are counted. */
  lemma {:induction false} EchoIsOfHighest(st: Stream, run: seq<Event>, n: nat)
    requires n <= |run|
    ensures EchoOk(st, run, n, After(st, run[..n])) && After(st, run[..n]).overflows == Rejected(st, run[..n])
  {
    if n > 0 {
      EchoIsOfHighest(st, run, n - 1);
      AfterNext(st, run, n - 1);
      RejectedNext(st, run, n - 1);
      hide After, EchoOk, Rejected, Step;
      EchoNext(st, run, n - 1, After(st, run[..n - 1]));
    }
  }

  /** Event `k` is the accepted arrival of block `s`. */
  predicate RaisedBy(st: Stream, run: seq<Event>, k: nat, s: nat)
    requires k < |run|
  {
    run[k].Block? && run[k].s == s && After(st, run[..k]).Judge(st.window, s) == Accepted
  }

  lemma RejectedNext(st: Stream, run: seq<Event>, n: nat)
    requires n < |run|
    ensures Rejected(st, run[..n + 1])
            == Rejected(st, run[..n]) + if run[n].Block? && After(st, run[..n]).Judge(st.window, run[n].s) == OutOfWindow then 1 else 0
  {
    assert run[..n + 1][..n] == run[..n];
  }

  /**
   NACK exactness: with both delays zero a scan of a lossless stream lists, in ascending
   order and never truncated, exactly the numbers from the base to the highest block that
   have not arrived.
   */
  lemma ZeroDelaysListEveryGap(st: Stream, run: seq<Event>, t: Timing)
    requires st.window >= 1 && st.lossless && Clocked(run)
    requires t.now > 0 && t.reorder == 0 && t.renack == 0
    ensures var rx := After(st, run);
            var missing := rx.Nacks(true, t);
            && (forall s: nat :: s in missing <==> rx.Base() <= s < rx.top && s !in rx.got)
            && (forall i, j | 0 <= i < j < |missing| :: missing[i] < missing[j])
            && |missing| <= st.window
  {
    var rx := After(st, run);
    assert run[..|run|] == run;
    RunStamped(st, run, |run|);
    RunWellFormed(st, run, |run|);
    DueInLists(rx, rx.Base(), rx.top, t);
    forall s: nat | rx.Base() <= s < rx.top && s !in rx.got ensures rx.Due(s, t) {
      assert s in rx.gapSince.Keys;
    }
  }
}
