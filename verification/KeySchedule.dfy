/**
 Keys, nonces and resends (session_crypto.cpp; `build_aad` and the resend path of
 transfer.cpp). Key derivation and sealing are arbitrary functions here: what matters is
 which inputs they get.
 */
module KeySchedule {
  import opened Word64
  import opened Basics
  import opened ReceiverWindow
  import opened Wire
  import opened LaneSender
  import opened LaneSystem
  import Modular
  import Pipeline

  const EPOCH_SHIFT: nat := 22
  const EPOCH_BLOCKS: nat := 4194304

  type Key = seq<byte>

  /** The key of an epoch of one lane, or none if it cannot be derived. */
  type Derive = nat -> Option<Key>

  type Seal = (Key, seq<byte>, seq<byte>, seq<byte>) -> seq<byte>

  function EpochOf(s: nat): nat { s / EPOCH_BLOCKS }

  lemma EpochIsShift(s: nat)
    ensures EpochOf(s) == Shr(s, EPOCH_SHIFT)
  {
    ShrDivides(s, EPOCH_SHIFT);
    PowPieces();
  }

  lemma PowPieces()
    ensures Pow2(22) == EPOCH_BLOCKS
  {
    PowDouble(1, 2);
    PowDouble(2, 4);
    PowDouble(4, 16);
    PowDouble(8, 256);
    PowAdd(16, 6);
    PowAdd(4, 2);
  }

  lemma {:induction false} ShrDivides(w: nat, r: nat)
    ensures Shr(w, r) == w / Pow2(r)
    decreases r
  {
    if r > 0 {
      ShrDivides(w / 2, r - 1);
      HalfDiv(w, Pow2(r - 1));
    }
  }

  lemma HalfDiv(v: nat, p: nat)
    requires p >= 1
    ensures v / 2 / p == v / (2 * p)
  {
    var q := v / 2 / p;
    assert v == v / 2 * 2 + v % 2;
    assert v / 2 == q * p + v / 2 % p;
    assert v == q * (2 * p) + (v / 2 % p * 2 + v % 2);
    Modular.DivModUnique(v, 2 * p, q, v / 2 % p * 2 + v % 2);
  }

  /** However many blocks a lane sends, no more than 2^22 of them share a key. */
  lemma KeyCoversAtMost(numbers: set<nat>, epoch: nat)
    requires forall s <- numbers :: EpochOf(s) == epoch
    ensures |numbers| <= EPOCH_BLOCKS
  {
    AtMostSpan(numbers, epoch * EPOCH_BLOCKS, EPOCH_BLOCKS);
  }

  lemma AtMostSpan(numbers: set<nat>, lo: nat, n: nat)
    requires forall s <- numbers :: lo <= s < lo + n
    ensures |numbers| <= n
  {
    SpanSize(lo, lo + n);
    SubsetSize(numbers, Span(lo, lo + n));
  }

  // ----- The two-slot cache -----

  datatype Slot = Slot(epoch: nat, cipher: Option<Key>)

  class LaneKeySchedule {
    const slots: array<Slot>
    var next: nat
    var ready: bool

    ghost predicate Valid(derive: Derive)
      reads this, slots
    {
      slots.Length == 2 && next < 2 && forall i | 0 <= i < 2 :: slots[i].cipher.Some? ==> slots[i].cipher == derive(slots[i].epoch)
    }

    constructor (ghost derive: Derive)
      ensures Valid(derive) && !ready && fresh(slots)
    {
      slots := new Slot[2](_ => Slot(TWO64 - 1, None));
      next, ready := 0, false;
    }

    method Init() returns (ok: bool)
      modifies this`ready
      ensures ready && ok == !old(ready)
    {
      ok := !ready;
      ready := true;
    }

    /** Whatever was cached or evicted before, the answer is the key of the block's own epoch. */
    method CipherFor(derive: Derive, s: nat) returns (r: Option<Key>)
      requires Valid(derive)
      modifies this`next, slots
      ensures Valid(derive)
      ensures r == if ready then derive(EpochOf(s)) else None
    {
      if !ready { return None; }
      var epoch := EpochOf(s);
      for i := 0 to 2
        invariant Valid(derive)
      {
        if slots[i].cipher.Some? && slots[i].epoch == epoch { return slots[i].cipher; }
      }
      var k := derive(epoch);
      if k.None? { return None; }
      slots[next] := Slot(epoch, k);
      next := (next + 1) % 2;
      r := k;
    }
  }

  // ----- Nonces and associated data -----

  function DataNonce(lane: nat, s: nat): (r: seq<byte>)
    ensures |r| == 12
  {
    Be(2, lane) + Be(8, s) + [0, 0]
  }

  function ControlNonce(lane: nat, ctr: nat, dir: byte): (r: seq<byte>)
    ensures |r| == 12
  {
    Be(2, lane) + Be(8, ctr) + [dir, 1]
  }

  lemma BeInjective(w: nat, a: nat, b: nat)
    requires Fits(w, a) && Fits(w, b) && Be(w, a) == Be(w, b)
    ensures a == b
  {
    ValOfBe(w, a);
    ValOfBe(w, b);
  }

  lemma DataNoncesDiffer(lane: nat, s: nat, lane2: nat, s2: nat)
    requires Fits(2, lane) && Fits(2, lane2) && Fits(8, s) && Fits(8, s2) && DataNonce(lane, s) == DataNonce(lane2, s2)
    ensures lane == lane2 && s == s2
  {
    var a, b := DataNonce(lane, s), DataNonce(lane2, s2);
    assert a[..2] == Be(2, lane) && b[..2] == Be(2, lane2) && a[2..10] == Be(8, s) && b[2..10] == Be(8, s2);
    BeInjective(2, lane, lane2);
    BeInjective(8, s, s2);
  }

  lemma ControlNoncesDiffer(lane: nat, ctr: nat, dir: byte, lane2: nat, ctr2: nat, dir2: byte)
    requires Fits(2, lane) && Fits(2, lane2) && Fits(8, ctr) && Fits(8, ctr2)
    requires ControlNonce(lane, ctr, dir) == ControlNonce(lane2, ctr2, dir2)
    ensures lane == lane2 && ctr == ctr2 && dir == dir2
  {
    var a, b := ControlNonce(lane, ctr, dir), ControlNonce(lane2, ctr2, dir2);
    assert a[..2] == Be(2, lane) && b[..2] == Be(2, lane2) && a[2..10] == Be(8, ctr) && b[2..10] == Be(8, ctr2);
    assert a[10] == dir && b[10] == dir2;
    BeInjective(2, lane, lane2);
    BeInjective(8, ctr, ctr2);
  }

  /** No control nonce is a data nonce. */
  lemma NoncesAreDisjoint(lane: nat, s: nat, lane2: nat, ctr: nat, dir: byte)
    ensures DataNonce(lane, s) != ControlNonce(lane2, ctr, dir)
  {
    assert DataNonce(lane, s)[11] == 0 && ControlNonce(lane2, ctr, dir)[11] == 1;
  }

  function Flags(dg: Datagram): byte {
    (if dg.retransmission then FLAG_RETRANSMISSION else 0) + (if dg.last then FLAG_LAST_BLOCK else 0)
  }

  /** `build_aad`: the retransmission bit is masked out. */
  function Aad(lane: nat, dg: Datagram): seq<byte> {
    Be(2, lane) + Be(8, dg.s) + Be(8, dg.offset) + Be(1, And(Flags(dg), 255 - FLAG_RETRANSMISSION))
  }

  lemma MaskedFlags(a: Datagram, b: Datagram)
    requires a.last == b.last
    ensures And(Flags(a), 255 - FLAG_RETRANSMISSION) == And(Flags(b), 255 - FLAG_RETRANSMISSION)
  {
    assert And(0, 63) == 0 && And(0, 127) == 0 && And(1, 127) == 1;
    assert And(1, 254) == 0 && And(2, 254) == 2 && And(3, 254) == 2;
  }

  /** The associated data binds a block to its lane, number, offset and last-block mark, and to nothing else. */
  lemma AadBinds(lane: nat, a: Datagram, lane2: nat, b: Datagram)
    requires Fits(2, lane) && Fits(2, lane2) && Fits(8, a.s) && Fits(8, b.s) && Fits(8, a.offset) && Fits(8, b.offset)
    ensures Aad(lane, a) == Aad(lane2, b) <==> lane == lane2 && a.s == b.s && a.offset == b.offset && a.last == b.last
  {
    var fa, fb := And(Flags(a), 255 - FLAG_RETRANSMISSION), And(Flags(b), 255 - FLAG_RETRANSMISSION);
    LastBit(a);
    LastBit(b);
    var x, y := Aad(lane, a), Aad(lane2, b);
    assert Be(1, fa) == [fa] && Be(1, fb) == [fb];
    hide Be, And, Fits, Flags;
    assert x[..2] == Be(2, lane) && x[2..10] == Be(8, a.s) && x[10..18] == Be(8, a.offset) && x[18] == fa;
    assert y[..2] == Be(2, lane2) && y[2..10] == Be(8, b.s) && y[10..18] == Be(8, b.offset) && y[18] == fb;
    if x == y {
      BeInjective(2, lane, lane2);
      BeInjective(8, a.s, b.s);
      BeInjective(8, a.offset, b.offset);
    }
  }

  lemma LastBit(a: Datagram)
    ensures And(Flags(a), 255 - FLAG_RETRANSMISSION) == if a.last then FLAG_LAST_BLOCK else 0
  {
    assert And(0, 63) == 0 && And(0, 127) == 0 && And(1, 127) == 1;
    assert And(1, 254) == 0 && And(2, 254) == 2 && And(3, 254) == 2;
  }

  /** Where the parts of a nonce lie. */
  lemma NonceLayout(lane: nat, n: nat, dir: byte)
    requires Fits(2, lane) && Fits(8, n)
    ensures var d := DataNonce(lane, n); Val(d[..2]) == lane && Val(d[2..10]) == n && d[10] == 0 && d[11] == 0
    ensures var c := ControlNonce(lane, n, dir); Val(c[..2]) == lane && Val(c[2..10]) == n && c[10] == dir && c[11] == 1
  {
    ValOfBe(2, lane);
    ValOfBe(8, n);
    var d, c := DataNonce(lane, n), ControlNonce(lane, n, dir);
    assert d[..2] == Be(2, lane) && d[2..10] == Be(8, n) && c[..2] == Be(2, lane) && c[2..10] == Be(8, n);
    hide Be, Val;
  }

  /** The bytes on the wire for a block, if its key can be derived. */
  function Sealed(derive: Derive, seal: Seal, lane: nat, dg: Datagram): Option<seq<byte>> {
    match derive(EpochOf(dg.s))
    case None => None
    case Some(key) => Some(seal(key, DataNonce(lane, dg.s), Aad(lane, dg), dg.payload))
  }

  // ----- In every run -----

  lemma SameNumberSameBlock(l: Lane, cfg: Pipeline.Config, sys: System, a: Datagram, b: Datagram)
    requires Inv(l, cfg, sys) && a in sys.sent && b in sys.sent && a.s == b.s
    ensures a.offset == b.offset && a.payload == b.payload && a.last == b.last
  {
    assert Pipeline.Genuine(l, sys.tx.history, a) && Pipeline.Genuine(l, sys.tx.history, b);
  }

  /**
   Resend identity: in every run, any two transmissions of the same number on a lane get the same
   key, nonce, associated data and plaintext, and so the same sealed bytes, for any derivation and
   any sealing function. And a nonce is never used for two different blocks of a lane.
   */
  lemma ResendsAreIdentical(
    l: Lane, cfg: Pipeline.Config, before: seq<byte>, acts: seq<Action>, sys: System,
    derive: Derive, seal: Seal, lane: nat, a: Datagram, b: Datagram)
    requires Reaches(l, cfg, before, acts, sys) && a in sys.sent && b in sys.sent
    requires Fits(2, lane) && Fits(8, a.s) && Fits(8, b.s)
    requires DataNonce(lane, a.s) == DataNonce(lane, b.s)
    ensures a.s == b.s && Aad(lane, a) == Aad(lane, b) && a.payload == b.payload
    ensures Sealed(derive, seal, lane, a) == Sealed(derive, seal, lane, b)
  {
    RunKeepsInv(l, cfg, before, acts, sys);
    DataNoncesDiffer(lane, a.s, lane, b.s);
    SameNumberSameBlock(l, cfg, sys, a, b);
    MaskedFlags(a, b);
    hide Inv, Reaches, And, Be;
  }
}
