/**
 What every module needs.
 */
module Basics {

  datatype Option<+T> = None | Some(value: T)

  function Max(a: nat, b: nat): nat { if a >= b then a else b }

  function Min(a: nat, b: nat): nat { if a <= b then a else b }

  lemma SeqAssoc<T>(a: seq<T>, b: seq<T>, c: seq<T>)
    ensures a + b + c == a + (b + c)
  {}
}

/**
 Integer facts the ring indices rest on.
 */
module Modular {

  lemma MulStep(a: int, b: int, m: int)
    requires a < b && 0 <= m
    ensures a * m + m <= b * m
  {
    assert (b - a - 1) * m >= 0;
  }

  lemma DivModUnique(x: int, m: int, q: int, r: int)
    requires 0 <= r < m && x == q * m + r
    ensures x / m == q && x % m == r
  {
    var p, s := x / m, x % m;
    assert x == p * m + s;
    if p < q {
      MulStep(p, q, m);
    } else if q < p {
      MulStep(q, p, m);
    }
  }

  lemma DivAtLeast(x: int, m: int, q: int)
    requires m > 0 && q * m <= x
    ensures q <= x / m
  {
    assert x == x / m * m + x % m;
    if x / m < q { MulStep(x / m, q, m); }
  }

  lemma DivAtMost(x: int, m: int, q: int)
    requires m > 0 && x < q * m + m
    ensures x / m <= q
  {
    assert x == x / m * m + x % m;
    if q < x / m { MulStep(q, x / m, m); }
  }

  lemma DivMono(a: nat, b: nat, m: nat)
    requires m > 0 && a <= b
    ensures a / m <= b / m
  {
    assert a == a / m * m + a % m;
    DivAtLeast(b, m, a / m);
  }

  lemma MulAtLeast(a: nat, b: nat)
    requires b >= 1
    ensures a * b >= a
  {
    assert a * (b - 1) >= 0;
  }

  /** Two numbers less than `m` apart share a ring slot only if they are equal. */
  lemma SameSlot(a: int, b: int, m: int)
    requires m > 0 && a % m == b % m
    requires -m < a - b < m
    ensures a == b
  {
    var p, q := a / m, b / m;
    assert a == p * m + a % m && b == q * m + b % m;
    if p > q {
      MulStep(q, p, m);
    } else if p < q {
      MulStep(p, q, m);
    }
  }

  lemma ModAdd(x: int, k: int, m: int)
    requires m > 0
    ensures (x + k * m) % m == x % m && (x + k * m) / m == x / m + k
  {
    assert (x / m + k) * m == x / m * m + k * m;
    DivModUnique(x + k * m, m, x / m + k, x % m);
  }
}

/**
 The 64-bit unsigned words the receive ring and the ACK bitmask are made of:
 the C++ operators the source applies to them, as arithmetic on `uint64`, and
 one lemma per operator saying what it does to every single bit.
 */
module Word64 {
  import Modular

  const WORD_BITS: nat := 64
  const TWO64: nat := 0x1_0000_0000_0000_0000

  type uint64 = w: nat | w < TWO64
  type byte = b: nat | b < 256

  /** Unsigned addition and subtraction, modulo 2^64. */
  function Add64(a: uint64, b: uint64): uint64 { (a + b) % TWO64 }
  function Sub64(a: uint64, b: uint64): uint64 { if a >= b then a - b else a + TWO64 - b }

  function Pow2(n: nat): (r: nat)
    ensures r > 0
  {
    if n == 0 then 1 else 2 * Pow2(n - 1)
  }

  /** Bit `k` of `w`. */
  predicate Bit(w: nat, k: nat)
    decreases k
  {
    if k == 0 then w % 2 == 1 else Bit(w / 2, k - 1)
  }

  function And(a: nat, b: nat): (r: nat)
    ensures r <= a && r <= b
  {
    if a == 0 || b == 0 then 0
    else 2 * And(a / 2, b / 2) + (if a % 2 == 1 && b % 2 == 1 then 1 else 0)
  }

  function Or(a: nat, b: nat): nat
    decreases a + b
  {
    if a == 0 && b == 0 then 0
    else 2 * Or(a / 2, b / 2) + (if a % 2 == 1 || b % 2 == 1 then 1 else 0)
  }

  function Not(a: uint64): uint64 { TWO64 - 1 - a }

  function Shr(w: nat, r: nat): (v: nat)
    ensures v <= w
    decreases r
  {
    if r == 0 then w else Shr(w / 2, r - 1)
  }

  /** `w << r` on 64 bits: what is shifted out at the top is lost. */
  function Shl(w: uint64, r: nat): uint64
    decreases r
  {
    if r == 0 then w else Shl(w, r - 1) * 2 % TWO64
  }

  /** The index of the lowest set bit, `__builtin_ctzll`. */
  function Ctz(w: nat): (k: nat)
    requires w != 0
    ensures Bit(w, k)
    ensures forall j: nat | j < k :: !Bit(w, j)
  {
    if w % 2 == 1 then 0 else
    var k := Ctz(w / 2) + 1;
    assert forall j: nat | j < k :: !Bit(w, j) by {
      forall j: nat | j < k ensures !Bit(w, j) { if j > 0 { assert !Bit(w / 2, j - 1); } }
    }
    k
  }

  lemma {:induction false} BitZero(k: nat)
    ensures !Bit(0, k)
    decreases k
  {
    if k > 0 { BitZero(k - 1); }
  }

  lemma {:induction false} BitAnd(a: nat, b: nat, k: nat)
    ensures Bit(And(a, b), k) == (Bit(a, k) && Bit(b, k))
    decreases k
  {
    if a == 0 || b == 0 {
      BitZero(k);
    } else if k > 0 {
      BitAnd(a / 2, b / 2, k - 1);
    }
  }

  lemma {:induction false} BitOr(a: nat, b: nat, k: nat)
    ensures Bit(Or(a, b), k) == (Bit(a, k) || Bit(b, k))
    decreases k
  {
    if a == 0 && b == 0 {
      BitZero(k);
    } else if k > 0 {
      BitOr(a / 2, b / 2, k - 1);
    }
  }

  /** Words stay words under `|`. */
  lemma {:induction false} OrBound(n: nat, a: nat, b: nat)
    requires a < Pow2(n) && b < Pow2(n)
    ensures Or(a, b) < Pow2(n)
  {
    if n > 0 { OrBound(n - 1, a / 2, b / 2); }
  }

  lemma {:induction false} BitShr(w: nat, r: nat, k: nat)
    ensures Bit(Shr(w, r), k) == Bit(w, k + r)
    decreases r
  {
    if r != 0 { BitShr(w / 2, r - 1, k); }
  }

  lemma {:induction false} BitComplement(n: nat, w: nat, k: nat)
    requires w < Pow2(n) && k < n
    ensures Bit(Pow2(n) - 1 - w, k) == !Bit(w, k)
    decreases k
  {
    assert (Pow2(n) - 1 - w) / 2 == Pow2(n - 1) - 1 - w / 2;
    if k > 0 { BitComplement(n - 1, w / 2, k - 1); }
  }

  lemma {:induction false} PowAdd(a: nat, b: nat)
    ensures Pow2(a + b) == Pow2(a) * Pow2(b)
  {
    if a > 0 {
      PowAdd(a - 1, b);
      assert 2 * Pow2(a - 1) * Pow2(b) == 2 * (Pow2(a - 1) * Pow2(b));
    }
  }

  lemma PowDouble(n: nat, p: nat)
    requires Pow2(n) == p
    ensures Pow2(2 * n) == p * p
  {
    PowAdd(n, n);
  }

  lemma PowWord()
    ensures Pow2(64) == TWO64
  {
    PowDouble(2, 4);
    PowDouble(4, 16);
    PowDouble(8, 0x100);
    PowDouble(16, 0x1_0000);
    PowDouble(32, 0x1_0000_0000);
  }

  lemma BitNot(w: uint64, k: nat)
    requires k < 64
    ensures Bit(Not(w), k) == !Bit(w, k)
  {
    PowWord();
    BitComplement(64, w, k);
  }

  lemma ModHalf(w: nat, m: nat)
    requires m > 0
    ensures w % (2 * m) / 2 == w / 2 % m
    ensures w % (2 * m) % 2 == w % 2
  {
    var q, r := w / (2 * m), w % (2 * m);
    assert w == 2 * (q * m) + r;
    Modular.DivModUnique(w / 2, m, q, r / 2);
  }

  lemma {:induction false} BitMod(n: nat, w: nat, k: nat)
    ensures Bit(w % Pow2(n), k) == (k < n && Bit(w, k))
    decreases n
  {
    if n == 0 {
      BitZero(k);
    } else {
      ModHalf(w, Pow2(n - 1));
      if k > 0 { BitMod(n - 1, w / 2, k - 1); }
    }
  }

  lemma {:induction false} BitShl(w: uint64, r: nat, k: nat)
    requires k < 64
    ensures Bit(Shl(w, r), k) == (k >= r && Bit(w, k - r))
    decreases r
  {
    if r > 0 {
      var v: nat := Shl(w, r - 1);
      var d: nat := v * 2;
      assert Bit(d % TWO64, k) == Bit(d, k) by { PowWord(); BitMod(64, d, k); }
      if k > 0 {
        assert d / 2 == v;
        BitShl(w, r - 1, k - 1);
      }
    }
  }

  /** `w & (w - 1)` drops exactly the lowest set bit. */
  lemma {:induction false} BitDropLowest(w: nat, k: nat)
    requires w != 0
    ensures Bit(And(w, w - 1), k) == (Bit(w, k) && k != Ctz(w))
    decreases w
  {
    if w % 2 == 1 {
      BitAnd(w, w - 1, k);
      if k > 0 { assert (w - 1) / 2 == w / 2; }
    } else {
      assert (w - 1) / 2 == w / 2 - 1;
      if k > 0 { BitDropLowest(w / 2, k - 1); }
    }
  }

  lemma {:induction false} PowMono(a: nat, b: nat)
    requires a <= b
    ensures Pow2(a) <= Pow2(b)
    decreases b
  {
    if a < b { PowMono(a, b - 1); }
  }

  /** A power of two that fits a word leaves room for one more doubling below 2^64. */
  lemma PowFits(n: nat)
    requires n < 64
    ensures 2 * Pow2(n) <= TWO64
    ensures n == 63 ==> 2 * Pow2(n) == TWO64
  {
    assert Pow2(n + 1) == 2 * Pow2(n);
    hide Pow2;
    PowWord();
    PowMono(n + 1, 64);
  }

  lemma {:induction false} ShlOne(n: nat)
    requires n < 64
    ensures Shl(1, n) == Pow2(n) < TWO64
  {
    PowFits(n);
    if n > 0 { ShlOne(n - 1); }
  }

  /** `1 << i` has exactly bit `i`. */
  lemma {:induction false} BitOfPow2(n: nat, k: nat)
    ensures Bit(Pow2(n), k) == (k == n)
    decreases k
  {
    if n == 0 {
      if k > 0 { BitZero(k - 1); }
    } else if k > 0 {
      BitOfPow2(n - 1, k - 1);
    }
  }

  /** `(1 << n) - 1` is the mask of the bits below `n`. */
  lemma {:induction false} BitLowMask(n: nat, k: nat)
    ensures Bit(Pow2(n) - 1, k) == (k < n)
    decreases k
  {
    if n == 0 {
      BitZero(k);
    } else if k > 0 {
      assert (Pow2(n) - 1) / 2 == Pow2(n - 1) - 1;
      BitLowMask(n - 1, k - 1);
    }
  }

  /** A word has no bits from 64 on. */
  lemma {:induction false} BitAbove(n: nat, w: nat, k: nat)
    requires w < Pow2(n) && n <= k
    ensures !Bit(w, k)
    decreases n
  {
    if n == 0 { BitZero(k); } else { BitAbove(n - 1, w / 2, k - 1); }
  }

  /** A word with no bit set is zero. */
  lemma {:induction false} NoBitsZero(n: nat, w: nat)
    requires w < Pow2(n)
    requires forall k: nat | k < n :: !Bit(w, k)
    ensures w == 0
    decreases n
  {
    if n > 0 {
      assert !Bit(w, 0);
      forall k: nat | k < n - 1 ensures !Bit(w / 2, k) { assert !Bit(w, k + 1); }
      NoBitsZero(n - 1, w / 2);
    }
  }

  // ----- Counters that wrap around -----

  lemma SubWraps(a: nat, b: nat)
    requires b <= a < b + TWO64
    ensures Sub64(a % TWO64, b % TWO64) == a - b
  {
    Modular.DivModUnique(a, TWO64, a / TWO64, a % TWO64);
  }

  lemma AddWraps(a: nat, b: nat)
    requires b < TWO64
    ensures Add64(a % TWO64, b) == (a + b) % TWO64
  {
    Modular.ModAdd(a % TWO64 + b, a / TWO64, TWO64);
  }

  lemma MaskStep(x: nat, m: nat)
    requires m > 0 && And(x / 2, m - 1) == x / 2 % m
    ensures And(x, 2 * m - 1) == x % (2 * m)
  {
    ModHalf(x, m);
    var r := x % (2 * m);
    assert r == 2 * (r / 2) + r % 2;
    assert (2 * m - 1) / 2 == m - 1;
  }

  /** `x & (2^n - 1)` is the remainder modulo 2^n. */
  lemma {:induction false} MaskIsMod(x: nat, n: nat)
    ensures And(x, Pow2(n) - 1) == x % Pow2(n)
    decreases n
  {
    if n > 0 {
      MaskIsMod(x / 2, n - 1);
      MaskStep(x, Pow2(n - 1));
    }
  }

  lemma ModOfMultiple(x: nat, a: nat, b: nat)
    requires a > 0 && b > 0
    ensures a * b > 0 && x % (a * b) % b == x % b
  {
    assert a * b > 0;
    var q, r := x / (a * b), x % (a * b);
    assert x == (q * a) * b + r;
    Modular.ModAdd(r, q * a, b);
  }

  /** The wrap-around of a 64-bit counter is invisible modulo a power of two. */
  lemma WrapKeepsIndex(x: nat, n: nat)
    requires n <= 64
    ensures x % TWO64 % Pow2(n) == x % Pow2(n)
  {
    hide Pow2;
    PowWord();
    PowAdd(64 - n, n);
    ModOfMultiple(x, Pow2(64 - n), Pow2(n));
  }

  // ----- Walking the set bits of a word, lowest first -----

  /** `bits` still holds exactly the set bits of `word` from `done` on. */
  ghost predicate BitsLeft(bits: uint64, word: uint64, done: nat) {
    forall k: nat | k < 64 :: Bit(bits, k) <==> done <= k && Bit(word, k)
  }

  lemma LowestLeft(bits: uint64, word: uint64, done: nat)
    requires BitsLeft(bits, word, done) && bits != 0
    ensures done <= Ctz(bits) < 64 && Bit(word, Ctz(bits))
    ensures forall k: nat | done <= k < Ctz(bits) :: !Bit(word, k)
  {
    hide Bit, Pow2;
    var b := Ctz(bits);
    if b >= 64 {
      PowWord();
      BitAbove(64, bits, b);
    }
    forall k: nat | done <= k < b ensures !Bit(word, k) { assert !Bit(bits, k); }
  }

  lemma DropLeft(bits: uint64, word: uint64, done: nat)
    requires BitsLeft(bits, word, done) && bits != 0
    ensures BitsLeft(And(bits, bits - 1), word, Ctz(bits) + 1)
  {
    hide Bit, And;
    LowestLeft(bits, word, done);
    var rest := And(bits, bits - 1);
    forall k: nat | k < 64 ensures Bit(rest, k) <==> Ctz(bits) + 1 <= k && Bit(word, k) {
      BitDropLowest(bits, k);
      assert Bit(bits, k) ==> k >= Ctz(bits);
    }
  }

  lemma NoneLeft(word: uint64, done: nat, k: nat)
    requires BitsLeft(0, word, done) && done <= k < 64
    ensures !Bit(word, k)
  {
    BitZero(k);
    assert !Bit(0, k);
  }
}
