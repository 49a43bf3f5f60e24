/**
 A send can always be finished: from every state of an SDK connection, whatever was lost, repeated
 or reordered so far and however many threads are waiting, some continuation delivers everything
 sent, lets the thread whose turn it is return, and gives any waiting thread its turn.
 */
module SdkProgress {
  import opened Word64
  import opened ReceiverWindow
  import opened Basics
  import opened Sdk
  import SdkWire

  /** The sending half but for the acknowledged base is as it was. */
  ghost predicate SameSends(c: Conn, d: Conn) {
    d.threads == c.threads && d.busy == c.busy && d.blocks == c.blocks && d.log == c.log && d.first == c.first && d.ok == c.ok
  }

  lemma One(c: Conn, window: nat, step: Step) returns (d: Conn)
    requires Inv(c, window) && Enabled(c, window, step)
    ensures d == Next(c, window, step) && Inv(d, window) && Leads(c, window, [step], d)
  {
    d := Next(c, window, step);
    StepKeepsInv(c, window, step);
    assert [step][1..] == [];
    hide Inv, Next, Enabled;
  }

  /** The application takes everything that is queued. */
  lemma {:induction false} DrainInbox(c: Conn, window: nat) returns (steps: seq<Step>, d: Conn)
    requires Inv(c, window)
    ensures Leads(c, window, steps, d) && Inv(d, window) && SameSends(c, d)
    ensures d.rx.inboxBytes == 0 && d.rx.got == c.rx.got && d.txBase == c.txBase
    decreases |c.rx.inbox|
  {
    if c.rx.inbox == [] {
      steps, d := [], c;
    } else {
      var mid := One(c, window, Receive);
      assert SameSends(c, mid) && mid.rx.inbox == c.rx.inbox[1..] && mid.rx.got == c.rx.got && mid.txBase == c.txBase;
      hide Inv, Leads, Next, Enabled;
      var rest;
      rest, d := DrainInbox(mid, window);
      SdkWire.LeadsJoin(c, window, [Receive], mid, rest, d);
      steps := [Receive] + rest;
    }
  }

  /** The block the receiver waits for, when there is room for it, moves its base. */
  lemma ArriveLowest(c: Conn, window: nat)
    requires Inv(c, window) && window >= 1 && c.rx.inboxBytes == 0 && c.rx.Base() < c.Next()
    ensures Enabled(c, window, Arrive(c.rx.Base()))
    ensures var d := Next(c, window, Arrive(c.rx.Base()));
            SameSends(c, d) && d.txBase == c.txBase && c.rx.Base() < d.rx.Base()
  {
    hide Inv, Sdk.BlockCount, Grown, Mex, Handled;
    var s := c.rx.Base();
    AdmittedExactly(c.rx, s, c.blocks[s], window, s);
    MexMissing(c.rx.got);
    var d := Next(c, window, Arrive(s));
    MexMonotone(c.rx.got, d.rx.got);
    MexMissing(d.rx.got);
  }

  lemma MexMissing(got: set<nat>)
    ensures Mex(got) !in got
  {}

  lemma BaseAtMostNext(c: Conn, window: nat)
    requires Inv(c, window)
    ensures c.txBase <= c.rx.Base() <= c.Next()
  {
    assert c.rx.Base() > c.Next() ==> c.Next() in c.rx.got;
  }

  lemma {:induction false} DeliverAll(c: Conn, window: nat) returns (steps: seq<Step>, d: Conn)
    requires Inv(c, window) && window >= 1
    ensures Leads(c, window, steps, d) && Inv(d, window) && SameSends(c, d) && d.rx.Base() == d.Next() && d.txBase == c.txBase
    decreases c.Next() - c.rx.Base()
  {
    BaseAtMostNext(c, window);
    if c.rx.Base() == c.Next() {
      steps, d := [], c;
    } else {
      hide Inv, Leads, Next, Enabled, Mex;
      var drain, mid := DrainInbox(c, window);
      ArriveLowest(mid, window);
      var after := One(mid, window, Arrive(mid.rx.Base()));
      BaseAtMostNext(after, window);
      var rest;
      rest, d := DeliverAll(after, window);
      SdkWire.LeadsJoin(c, window, drain, mid, [Arrive(mid.rx.Base())], after);
      SdkWire.LeadsJoin(c, window, drain + [Arrive(mid.rx.Base())], after, rest, d);
      steps := drain + [Arrive(mid.rx.Base())] + rest;
    }
  }

  /** Everything sent is delivered and acknowledged. */
  lemma Settle(c: Conn, window: nat) returns (steps: seq<Step>, d: Conn)
    requires Inv(c, window) && window >= 1
    ensures Leads(c, window, steps, d) && Inv(d, window) && SameSends(c, d) && d.txBase == d.Next()
  {
    hide Inv, Leads, Mex, Delivered;
    var deliver, mid := DeliverAll(c, window);
    var acked := One(mid, window, EmitAck);
    d := One(acked, window, AckArrives(mid.rx.Base()));
    BaseAtMostNext(mid, window);
    hide Next, Enabled;
    SdkWire.LeadsJoin(c, window, deliver, mid, [EmitAck], acked);
    SdkWire.LeadsJoin(c, window, deliver + [EmitAck], acked, [AckArrives(mid.rx.Base())], d);
    steps := deliver + [EmitAck] + [AckArrives(mid.rx.Base())];
  }

  /** One more block leaves, or the thread was already waiting for its last ACK. */
  lemma SendOneMore(c: Conn, window: nat, t: nat)
    requires Inv(c, window) && window >= 1 && t in c.threads && c.threads[t].Sending? && c.txBase == c.Next()
    ensures Enabled(c, window, SendBlock(t))
    ensures var d := Next(c, window, SendBlock(t));
            && d.threads.Keys == c.threads.Keys && Active(d.threads[t]) && d.threads[t].msg == c.threads[t].msg
            && (d.threads[t].Sending? ==> d.threads[t].i == c.threads[t].i + 1 < BlockCount(c.threads[t].msg))
            && (forall u <- c.threads.Keys :: u != t ==> d.threads[u] == c.threads[u]) && d.log == c.log && d.ok == c.ok
  {
    assert ThreadOk(c.threads[t], c.busy, c.Next(), c.log, c.first);
    hide RxOk, LayoutOk, InboxOk, OkOk, BlockOf, BlockCount;
  }

  /** The other threads, and what was begun and returned so far, are as they were. */
  ghost predicate OthersSame(c: Conn, d: Conn, t: nat) {
    && d.threads.Keys == c.threads.Keys && d.log == c.log && d.ok == c.ok
    && forall u <- c.threads.Keys :: u != t && u in d.threads ==> d.threads[u] == c.threads[u]
  }

  lemma {:induction false} FinishSending(c: Conn, window: nat, t: nat) returns (steps: seq<Step>, d: Conn)
    requires Inv(c, window) && window >= 1 && t in c.threads && Active(c.threads[t])
    ensures Leads(c, window, steps, d) && Inv(d, window) && OthersSame(c, d, t)
    ensures t in d.threads && d.threads[t] == Acking(c.threads[t].msg) && d.txBase == d.Next()
    decreases if c.threads[t].Sending? && c.threads[t].i < BlockCount(c.threads[t].msg) then BlockCount(c.threads[t].msg) - c.threads[t].i else 0
  {
    SendingInRange(c, window, t);
    hide Inv, Leads, Next, Enabled, BlockCount;
    var settle, mid := Settle(c, window);
    if mid.threads[t].Acking? {
      steps, d := settle, mid;
    } else {
      SendOneMore(mid, window, t);
      var after := One(mid, window, SendBlock(t));
      var rest;
      rest, d := FinishSending(after, window, t);
      SdkWire.LeadsJoin(c, window, settle, mid, [SendBlock(t)], after);
      SdkWire.LeadsJoin(c, window, settle + [SendBlock(t)], after, rest, d);
      steps := settle + [SendBlock(t)] + rest;
    }
  }

  lemma SendingInRange(c: Conn, window: nat, t: nat)
    requires Inv(c, window) && t in c.threads
    ensures c.threads[t].Sending? ==> c.threads[t].i < BlockCount(c.threads[t].msg)
  {
    assert ThreadOk(c.threads[t], c.busy, c.Next(), c.log, c.first);
  }

  /** From any state the thread that has its turn can return, its message delivered. */
  lemma CanAlwaysReturn(c: Conn, window: nat, t: nat) returns (steps: seq<Step>, d: Conn)
    requires Inv(c, window) && window >= 1 && t in c.threads && Active(c.threads[t])
    ensures Leads(c, window, steps, d) && Inv(d, window)
    ensures d.threads.Keys == c.threads.Keys - {t} && (forall u <- d.threads.Keys :: d.threads[u] == c.threads[u])
    ensures !d.busy && d.log == c.log && d.ok == c.ok + [c.threads[t].msg] == d.log == d.delivered
  {
    hide Leads;
    var finish, mid := FinishSending(c, window, t);
    d := One(mid, window, Return(t));
    assert d.threads.Keys == c.threads.Keys - {t};
    ReturnedIsDelivered(d, window);
    hide Inv, Next, Enabled;
    SdkWire.LeadsJoin(c, window, finish, mid, [Return(t)], d);
    steps := finish + [Return(t)];
  }

  lemma ReturnedIsDelivered(d: Conn, window: nat)
    requires Inv(d, window) && !d.busy
    ensures d.delivered == d.log && d.ok == d.log
  {
    GateOpenMeansDelivered(d, window);
    hide LayoutOk, RxOk, InboxOk;
  }

  // ----- Somebody has the turn whenever the gate is closed -----

  ghost predicate HasTurn(threads: map<nat, Phase>) { exists t <- threads.Keys :: Active(threads[t]) }

  lemma StepKeepsTurn(c: Conn, window: nat, step: Step)
    requires Inv(c, window) && Enabled(c, window, step) && (c.busy ==> HasTurn(c.threads))
    ensures var d := Next(c, window, step); d.busy ==> HasTurn(d.threads)
  {
    var d := Next(c, window, step);
    if d.busy && c.busy {
      var t :| t in c.threads.Keys && Active(c.threads[t]);
      if !step.Return? { assert t in d.threads.Keys && Active(d.threads[t]); }
    } else if step.Acquire? {
      assert step.t in d.threads.Keys && Active(d.threads[step.t]);
    }
    hide Inv, Delivered;
  }

  lemma {:induction false} RunKeepsTurn(c: Conn, window: nat, steps: seq<Step>, d: Conn)
    requires Inv(c, window) && Leads(c, window, steps, d) && (c.busy ==> HasTurn(c.threads))
    ensures Inv(d, window) && (d.busy ==> HasTurn(d.threads))
    decreases |steps|
  {
    hide Inv, Next, Enabled, HasTurn;
    if steps != [] {
      StepKeepsInv(c, window, steps[0]);
      StepKeepsTurn(c, window, steps[0]);
      RunKeepsTurn(Next(c, window, steps[0]), window, steps[1..], d);
    }
  }

  /**
   No run is a dead end: after any run, some continuation delivers every message begun so far and
   lets its sender return, leaving the threads that wait as they were.
   */
  lemma NoSendIsADeadEnd(window: nat, run: seq<Step>, c: Conn) returns (steps: seq<Step>, d: Conn)
    requires window >= 1 && Leads(FRESH, window, run, c)
    ensures Leads(c, window, steps, d) && Inv(d, window) && !d.busy && d.log == c.log == d.delivered == d.ok
    ensures forall u <- c.threads.Keys :: c.threads[u].Waiting? ==> u in d.threads && d.threads[u] == c.threads[u]
  {
    FreshInv(window);
    RunKeepsTurn(FRESH, window, run, c);
    if c.busy {
      var t :| t in c.threads.Keys && Active(c.threads[t]);
      hide Inv, Leads;
      steps, d := CanAlwaysReturn(c, window, t);
    } else {
      ReturnedIsDelivered(c, window);
      steps, d := [], c;
    }
  }

  /** And any thread that waits can get its turn and have its message delivered. */
  lemma TurnComes(window: nat, run: seq<Step>, c: Conn, t: nat) returns (steps: seq<Step>, d: Conn)
    requires window >= 1 && Leads(FRESH, window, run, c) && t in c.threads && c.threads[t].Waiting?
    ensures Leads(c, window, steps, d) && t !in d.threads && d.delivered == d.log == c.log + [c.threads[t].msg]
  {
    hide Inv, Leads;
    var first, mid := NoSendIsADeadEnd(window, run, c);
    var turn := One(mid, window, Acquire(t));
    assert turn.log == mid.log + [c.threads[t].msg] && Active(turn.threads[t]);
    hide Next, Enabled;
    var rest;
    rest, d := CanAlwaysReturn(turn, window, t);
    SdkWire.LeadsJoin(c, window, first, mid, [Acquire(t)], turn);
    SdkWire.LeadsJoin(c, window, first + [Acquire(t)], turn, rest, d);
    steps := first + [Acquire(t)] + rest;
  }
}
