/**
 The single-producer / single-consumer ring (spsc_ring.hpp). `Ring` is the shared
 state with unbounded counters; each step makes one access to the other thread's
 counter at most, so a run of steps is any interleaving of the two threads. The
 class holds the same state with 64-bit counters that wrap around.
 */
module SpscRing {
  import opened Word64
  import Basics
  import Modular

  /**
   `produced` lists every item ever committed, so `tail == |produced|`. The producer
   owns `tail` and its stale copy `headCache`, the consumer owns `head` and `tailCache`.
   */
  datatype Ring<T> = Ring(
    slots: seq<T>, produced: seq<T>, head: nat, tailCache: nat, headCache: nat)
  {
    function Cap(): nat { |slots| }
    function Tail(): nat { |produced| }

    /** Slots the producer believes free: never more than really are. */
    function Free(): int { Cap() - (Tail() - headCache) }

    /** Slots the consumer believes filled: never more than really are. */
    function Filled(): int { tailCache - head }

    /** The slot of the k-th item ever. */
    function Index(k: nat): (i: nat)
      requires Cap() > 0
      ensures i < Cap()
    {
      k % Cap()
    }

    function At(k: nat): T
      requires Cap() > 0
    {
      slots[Index(k)]
    }

    ghost predicate Inv() {
      && Cap() >= 1
      && headCache <= head <= tailCache <= Tail() <= headCache + Cap()
      && forall k | head <= k < Tail() :: At(k) == produced[k]
    }

    /** What the producer has put into the next `n` free slots. */
    ghost function Staged(n: nat): seq<T>
      requires Cap() > 0
    {
      seq(n, i requires 0 <= i < n => At(Tail() + i))
    }

    /** What the consumer finds in its next `n` slots. */
    ghost function Read(n: nat): seq<T>
      requires Cap() > 0
    {
      seq(n, i requires 0 <= i < n => At(head + i))
    }
  }

  datatype Step<T> =
    | Writable                 // producer: re-reads the consumer's counter when the ring looks full
    | Fill(i: nat, x: T)       // producer: writes its i-th free slot
    | Commit(n: nat)           // producer: publishes n slots
    | Readable                 // consumer: re-reads the producer's counter when the ring looks empty
    | Consume(n: nat)          // consumer: gives n slots back

  /** What a thread may do, judged from the counters it owns and its own stale copy. */
  predicate Enabled<T>(r: Ring<T>, step: Step<T>) {
    match step
    case Writable => true
    case Fill(i, _) => i < r.Free()
    case Commit(n) => n <= r.Free()
    case Readable => true
    case Consume(n) => n <= r.Filled()
  }

  ghost function Apply<T>(r: Ring<T>, step: Step<T>): Ring<T>
    requires r.Inv() && Enabled(r, step)
  {
    match step
    case Writable => if r.Tail() - r.headCache == r.Cap() then r.(headCache := r.head) else r
    case Fill(i, x) => r.(slots := r.slots[r.Index(r.Tail() + i) := x])
    case Commit(n) => r.(produced := r.produced + r.Staged(n))
    case Readable => if r.head == r.tailCache then r.(tailCache := r.Tail()) else r
    case Consume(n) => r.(head := r.head + n)
  }

  /** A free slot is never one of the published ones, nor another free one. */
  lemma FreeSlotIsAlone<T>(r: Ring<T>, i: nat, k: nat)
    requires r.Inv() && i < r.Free()
    requires r.head <= k < r.Tail() + r.Free() && k != r.Tail() + i
    ensures r.Index(r.Tail() + i) != r.Index(k)
  {
    if r.Index(r.Tail() + i) == r.Index(k) { Modular.SameSlot(r.Tail() + i, k, r.Cap()); }
  }

  /** Filling the i-th free slot changes only what the i-th free slot holds. */
  lemma FillTouchesOne<T>(r: Ring<T>, i: nat, x: T, k: nat)
    requires r.Inv() && i < r.Free() && r.head <= k < r.Tail() + r.Free()
    ensures Apply(r, Fill(i, x)).At(k) == if k == r.Tail() + i then x else r.At(k)
  {
    if k != r.Tail() + i { FreeSlotIsAlone(r, i, k); }
  }

  lemma StepKeepsInv<T>(r: Ring<T>, step: Step<T>)
    requires r.Inv() && Enabled(r, step)
    ensures Apply(r, step).Inv() && Apply(r, step).Cap() == r.Cap()
    ensures r.produced <= Apply(r, step).produced && r.head <= Apply(r, step).head
  {
    var after := Apply(r, step);
    match step
    case Fill(i, x) =>
      forall k | r.head <= k < r.Tail() ensures after.At(k) == r.produced[k] { FillTouchesOne(r, i, x, k); }
    case Commit(n) =>
      forall k | r.head <= k < after.Tail() ensures after.At(k) == after.produced[k] {
        assert after.At(k) == r.At(k);
        if k >= r.Tail() { assert k == r.Tail() + (k - r.Tail()); }
      }
    case _ =>
      assert forall k: nat :: after.At(k) == r.At(k);
  }

  ghost predicate Reaches<T>(r: Ring<T>, run: seq<Step<T>>, end: Ring<T>)
    requires r.Inv()
    decreases |run|
  {
    if run == [] then r == end
    else Enabled(r, run[0]) && (StepKeepsInv(r, run[0]); Reaches(Apply(r, run[0]), run[1..], end))
  }

  function Fresh<T>(slots: seq<T>): Ring<T> { Ring(slots, [], 0, 0, 0) }

  /** Every item the consumer has read and given the slot back of, in order. */
  ghost function Consumed<T>(r: Ring<T>, run: seq<Step<T>>): seq<T>
    requires r.Inv()
    decreases |run|
  {
    if run == [] || !Enabled(r, run[0]) then []
    else
      StepKeepsInv(r, run[0]);
      (if run[0].Consume? then r.Read(run[0].n) else []) + Consumed(Apply(r, run[0]), run[1..])
  }

  /** A step appends to what has been taken exactly what the consumer read from its slots. */
  lemma StepConsumes<T>(r: Ring<T>, step: Step<T>)
    requires r.Inv() && Enabled(r, step) && Apply(r, step).Inv()
    ensures var after := Apply(r, step);
            after.produced[..after.head] == r.produced[..r.head] + if step.Consume? then r.Read(step.n) else []
  {
    var after := Apply(r, step);
    if step.Consume? {
      assert forall i | 0 <= i < step.n :: r.Read(step.n)[i] == r.produced[r.head + i];
    } else {
      assert after.head == r.head && r.produced <= after.produced;
    }
  }

  /**
   Every interleaving of the two threads, whatever stale counters they act on: the
   counters stay ordered, what was committed is never changed, what the consumer reads as
   its i-th slot is exactly the (head + i)-th item ever committed, and the items it has
   consumed are, in order and without gap or repetition, the first ones ever committed.
   */
  lemma {:induction false} EveryInterleaving<T>(r: Ring<T>, run: seq<Step<T>>, end: Ring<T>)
    requires r.Inv() && Reaches(r, run, end)
    ensures end.Inv() && r.produced <= end.produced && r.head <= end.head && end.Cap() == r.Cap() > 0
    ensures forall k: nat | end.head <= k < end.head + end.Filled() :: end.At(k) == end.produced[k]
    ensures end.produced[..end.head] == r.produced[..r.head] + Consumed(r, run)
    decreases |run|
  {
    if run != [] {
      var mid := Apply(r, run[0]);
      var read := if run[0].Consume? then r.Read(run[0].n) else [];
      StepKeepsInv(r, run[0]);
      StepConsumes(r, run[0]);
      ConsumedUnfold(r, run);
      hide Apply, Enabled, Ring.Read, Ring.Inv, Consumed;
      EveryInterleaving(mid, run[1..], end);
      Basics.SeqAssoc(r.produced[..r.head], read, Consumed(mid, run[1..]));
    }
  }

  lemma ConsumedUnfold<T>(r: Ring<T>, run: seq<Step<T>>)
    requires r.Inv() && run != [] && Enabled(r, run[0]) && Apply(r, run[0]).Inv()
    ensures Consumed(r, run) == (if run[0].Consume? then r.Read(run[0].n) else []) + Consumed(Apply(r, run[0]), run[1..])
  {}

  /** From an empty ring: what has been consumed is a prefix of what has been produced. */
  lemma ConsumedIsPrefix<T>(slots: seq<T>, run: seq<Step<T>>, end: Ring<T>)
    requires |slots| >= 1 && Reaches(Fresh(slots), run, end)
    ensures Consumed(Fresh(slots), run) <= end.produced && |Consumed(Fresh(slots), run)| == end.head
  {
    EveryInterleaving(Fresh(slots), run, end);
  }

  /** No step of one thread takes a permission, or an item, away from the other. */
  lemma PermissionsAreStable<T>(r: Ring<T>, step: Step<T>)
    requires r.Inv() && Enabled(r, step)
    ensures var after := Apply(r, step);
            after.Cap() == r.Cap() &&
            (if step.Readable? || step.Consume? then after.Free() == r.Free() && after.slots == r.slots && after.produced == r.produced
             else after.Filled() == r.Filled() && after.head == r.head
                  && forall k: nat | r.head <= k < r.tailCache :: after.At(k) == r.At(k))
  {
    var after := Apply(r, step);
    if step.Fill? {
      forall k: nat | r.head <= k < r.tailCache ensures after.At(k) == r.At(k) {
        FillTouchesOne(r, step.i, step.x, k);
      }
    } else {
      assert forall k: nat :: after.At(k) == r.At(k);
    }
  }

  /** The ring as it is: a power-of-two array and four counters modulo 2^64. */
  class SpscQueue<T(0)> {
    const cap: nat
    const mask: nat
    ghost const bits: nat
    const slots: array<T>
    var head: uint64
    var tailCache: uint64
    var tail: uint64
    var headCache: uint64
    ghost var model: Ring<T>

    ghost predicate Valid()
      reads this, slots
    {
      && bits <= 63 && cap == Pow2(bits) && mask == cap - 1
      && slots.Length == cap && slots[..] == model.slots && model.Inv()
      && head == model.head % TWO64 && tail == model.Tail() % TWO64
      && headCache == model.headCache % TWO64 && tailCache == model.tailCache % TWO64
    }

    /** `round_up_pow2`; a request above 2^63 has no power of two to round up to. */
    static method RoundUpPow2(v: nat) returns (p: nat, ghost n: nat)
      requires v <= TWO64 / 2
      ensures n <= 63 && p == Pow2(n) && v <= p && (p > 1 ==> p < 2 * v)
    {
      p, n := 1, 0;
      while p < v
        invariant n <= 63 && p == Pow2(n) && (p > 1 ==> p < 2 * v)
        decreases v - p
      {
        PowFits(n);
        p, n := 2 * p, n + 1;
      }
    }

    constructor (minCapacity: nat)
      requires minCapacity <= TWO64 / 2
      ensures Valid() && fresh(slots) && model == Fresh(slots[..])
      ensures 2 <= cap && minCapacity <= cap && (minCapacity >= 2 ==> cap < 2 * minCapacity)
    {
      var p, n := RoundUpPow2(if minCapacity < 2 then 2 else minCapacity);
      cap, mask, bits := p, p - 1, n;
      slots := new T[p];
      head, tailCache, tail, headCache := 0, 0, 0, 0;
      new;
      model := Fresh(slots[..]);
    }

    /** The masked index of a wrapped counter is the slot of the unbounded one. */
    lemma MaskedIndex(count: nat, i: nat)
      requires Valid() && i < TWO64
      ensures And(Add64(count % TWO64, i), mask) == model.Index(count + i)
    {
      AddWraps(count, i);
      MaskIsMod((count + i) % TWO64, bits);
      WrapKeepsIndex(count + i, bits);
    }

    lemma CapIsSmall()
      requires Valid()
      ensures cap < TWO64
    {
      PowFits(bits);
    }

    /** 0 only if the ring is really full at the moment the consumer's counter is read. */
    method Writable() returns (n: nat)
      requires Valid()
      modifies this`headCache, this`model
      ensures Valid() && model == Apply(old(model), Step.Writable)
      ensures n == model.Free() && (n == 0 <==> model.Tail() - model.head == cap)
    {
      CapIsSmall();
      StepKeepsInv(model, Step.Writable);
      SubWraps(model.Tail(), model.headCache);
      SubWraps(model.Tail(), model.head);
      ghost var after := Apply(model, Step.Writable);
      if Sub64(tail, headCache) == cap { headCache := head; }
      model := after;
      n := cap - Sub64(tail, headCache);
    }

    method SlotForWrite(i: nat, x: T)
      requires Valid() && Enabled(model, Fill(i, x))
      modifies slots, this`model
      ensures Valid() && model == Apply(old(model), Fill(i, x))
    {
      CapIsSmall();
      StepKeepsInv(model, Fill(i, x));
      MaskedIndex(model.Tail(), i);
      slots[And(Add64(tail, i), mask)] := x;
      model := Apply(model, Fill(i, x));
    }

    method CommitN(n: nat)
      requires Valid() && Enabled(model, Commit(n))
      modifies this`tail, this`model
      ensures Valid() && model == Apply(old(model), Commit(n))
    {
      CapIsSmall();
      StepKeepsInv(model, Commit(n));
      AddWraps(model.Tail(), n);
      tail := Add64(tail, n);
      model := Apply(model, Commit(n));
    }

    /** 0 only if the ring is really empty at the moment the producer's counter is read. */
    method ReadableNow() returns (n: nat)
      requires Valid()
      modifies this`tailCache, this`model
      ensures Valid() && model == Apply(old(model), Readable)
      ensures n == model.Filled() && (n == 0 <==> model.head == model.Tail())
    {
      CapIsSmall();
      StepKeepsInv(model, Readable);
      SubWraps(model.tailCache, model.head);
      SubWraps(model.Tail(), model.head);
      ghost var after := Apply(model, Readable);
      if head == tailCache { tailCache := tail; }
      model := after;
      n := Sub64(tailCache, head);
    }

    /** The consumer's i-th slot holds the (head + i)-th item ever committed. */
    method SlotForRead(i: nat) returns (x: T)
      requires Valid() && i < model.Filled()
      ensures x == model.produced[model.head + i]
    {
      CapIsSmall();
      MaskedIndex(model.head, i);
      assert model.At(model.head + i) == model.produced[model.head + i];
      x := slots[And(Add64(head, i), mask)];
    }

    method ConsumeN(n: nat)
      requires Valid() && Enabled(model, Consume(n))
      modifies this`head, this`model
      ensures Valid() && model == Apply(old(model), Consume(n))
    {
      CapIsSmall();
      StepKeepsInv(model, Consume(n));
      AddWraps(model.head, n);
      head := Add64(head, n);
      model := Apply(model, Consume(n));
    }
  }
}
