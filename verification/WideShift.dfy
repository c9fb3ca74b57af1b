/** Sticky ("jamming") right shifts of the soft-float kernels
    (thirdparty/softfloat/inc/fpu/softfloat-macros.h, lines 154-360). */
module WideShift {
  import opened BitOps

  type u64 = x: nat | x < 0x1_0000_0000_0000_0000

  const HALF: u64 := 0x8000_0000_0000_0000

  lemma Pow2Words()
    ensures Pow2(32) == 0x1_0000_0000
    ensures Pow2(63) == 0x8000_0000_0000_0000
    ensures Pow2(64) == 0x1_0000_0000_0000_0000
  {
    assert Pow2(8) == 256;
    Pow2Add(8, 8);
    Pow2Add(16, 16);
    Pow2Add(32, 32);
  }

  /** a << n in 64 bits. */
  function Shl64(a: u64, n: nat): u64
    requires n < 64
  {
    Pow2Words();
    Shl(a, n) % Pow2(64)
  }

  function Shr64(a: u64, n: nat): u64 {
    ShrSmaller(a, n);
    Shr(a, n)
  }

  function Or64(a: u64, b: u64): u64 {
    Pow2Words();
    OrBound(a, b, 64);
    Or(a, b)
  }

  /** A C truth value. */
  function Flag(b: bool): u64 {
    if b then 1 else 0
  }

  lemma {:induction false} ShrSmaller(a: nat, n: nat)
    ensures Shr(a, n) <= a
  {
    if n > 0 { ShrSmaller(a / 2, n - 1); }
  }

  lemma OrBound(a: nat, b: nat, p: nat)
    requires a < Pow2(p) && b < Pow2(p)
    ensures Or(a, b) < Pow2(p)
  {
    forall i: nat | i >= p ensures !Bit(Or(a, b), i) {
      BitOr(a, b, i);
      HighBitsClear(a, p, i);
      HighBitsClear(b, p, i);
    }
    BelowFromBits(Or(a, b), p);
  }

  // ---- the specification ----

  /** Some bit below position `n` is set: the shift by `n` is inexact. */
  predicate LowNonzero(x: nat, n: nat) {
    n > 0 && (x % 2 == 1 || LowNonzero(x / 2, n - 1))
  }

  /** Shift right by `n`, or-ing a 1 into the lowest bit when a set bit is shifted off. */
  function Jam(x: nat, n: nat): nat {
    Or(Shr(x, n), if LowNonzero(x, n) then 1 else 0)
  }

  lemma {:induction false} LowNonzeroIsRemainder(x: nat, n: nat)
    ensures LowNonzero(x, n) <==> x % Pow2(n) != 0
  {
    if n > 0 {
      LowNonzeroIsRemainder(x / 2, n - 1);
      HalfRemainder(x, n);
    }
  }

  lemma HalfRemainder(x: nat, n: nat)
    requires n > 0
    ensures x % Pow2(n) == 2 * ((x / 2) % Pow2(n - 1)) + x % 2
  {
    var p := Pow2(n - 1);
    var q, r := DivMod(x / 2, p);
    assert x == (2 * p) * q + (2 * r + x % 2) by {
      assert x == 2 * (x / 2) + x % 2;
      assert (2 * p) * q == 2 * (q * p);
    }
    QuotientUnique(x, 2 * p, q, 2 * r + x % 2);
  }

  lemma OrOne(x: nat)
    ensures Or(x, 1) == x + (1 - x % 2)
    ensures Or(x, 0) == x
  {}

  /** What jamming means: the quotient, made odd when inexact. */
  lemma JamValue(x: nat, n: nat)
    ensures Jam(x, n) == x / Pow2(n) + (if x % Pow2(n) != 0 && (x / Pow2(n)) % 2 == 0 then 1 else 0)
  {
    LowNonzeroIsRemainder(x, n);
    ShrValue(x, n);
    OrOne(Shr(x, n));
  }

  lemma {:induction false} OneBitJam(x: nat, n: nat)
    requires n > 0
    ensures Jam(x, n) == Jam(Or(x / 2, x % 2), n - 1)
  {
    var y := Or(x / 2, x % 2);
    OrOne(x / 2);
    OrOne(y);
    assert Shr(x, n) == Shr(x / 2, n - 1);
    if n == 1 {
      assert LowNonzero(x, 1) <==> x % 2 == 1;
      assert Jam(x, 1) == Or(x / 2, x % 2);
    } else {
      assert y / 2 == x / 2 / 2;
      assert y % 2 == 1 <==> (x % 2 == 1 || (x / 2) % 2 == 1);
      assert LowNonzero(x, n) <==> LowNonzero(y, n - 1);
      assert Shr(x, n) == Shr(x / 2, n - 1) == Shr(x / 2 / 2, n - 2);
      assert Shr(y, n - 1) == Shr(y / 2, n - 2);
    }
  }

  /** Jamming composes: two sticky shifts are one sticky shift by the sum. */
  lemma {:induction false} JamCompose(x: nat, m: nat, n: nat)
    ensures Jam(Jam(x, m), n) == Jam(x, m + n)
  {
    if m == 0 {
      OrOne(x);
    } else {
      OneBitJam(x, m);
      OneBitJam(x, m + n);
      JamCompose(Or(x / 2, x % 2), m - 1, n);
    }
  }

  /** A word shifted out completely leaves only its truth value. */
  lemma {:induction false} ShiftedOut(x: nat, n: nat)
    requires x < Pow2(n)
    ensures Shr(x, n) == 0 && (LowNonzero(x, n) <==> x != 0)
  {
    if n > 0 { ShiftedOut(x / 2, n - 1); }
  }

  // ---- 64 bits ----

  lemma LostValue(a: u64, count: nat)
    requires 0 < count < 64
    ensures Shl64(a, 64 - count) == (a % Pow2(count)) * Pow2(64 - count)
  {
    ShlValue(a, 64 - count);
    Pow2Add(64 - count, count);
    ScaledDivMod(0, a, Pow2(64 - count), Pow2(count));
  }

  /** The bits a << (64 - count) keeps are those the right shift by count loses. */
  lemma LostBits(a: u64, count: nat)
    requires 0 < count < 64
    ensures Shl64(a, 64 - count) != 0 <==> LowNonzero(a, count)
  {
    LostValue(a, count);
    LowNonzeroIsRemainder(a, count);
    ProductZero(a % Pow2(count), Pow2(64 - count));
  }

  lemma ProductZero(a: nat, b: nat)
    requires b > 0
    ensures a * b == 0 <==> a == 0
  {
    if a > 0 { MulMono(b, 1, a); assert b * a == a * b; }
  }

  /** Dividing low + high*p by p*q, when low < p. */
  lemma ScaledDivMod(low: nat, high: nat, p: nat, q: nat)
    requires low < p && q > 0
    ensures p * q > 0
    ensures (low + high * p) / (p * q) == high / q
    ensures (low + high * p) % (p * q) == low + (high % q) * p
  {
    var d, r := DivMod(high, q);
    Regroup(low, p, q, d, r);
    ScaledBound(low, p, q, r);
    QuotientUnique(low + high * p, p * q, d, low + r * p);
  }

  lemma Regroup(low: nat, p: nat, q: nat, d: nat, r: nat)
    ensures low + (r + d * q) * p == (p * q) * d + (low + r * p)
  {
    assert (r + d * q) * p == r * p + (d * q) * p;
    assert (d * q) * p == d * (q * p);
    assert d * (q * p) == (p * q) * d;
  }

  lemma ScaledBound(low: nat, p: nat, q: nat, r: nat)
    requires low < p && r < q
    ensures 0 <= low + r * p < p * q
  {
    MulMono(p, r + 1, q);
    assert p * (r + 1) == p * r + p;
    assert r * p == p * r;
    MulMono(p, 0, r);
  }

  method Shift64RightJamming(a: u64, count: nat) returns (z: u64)
    ensures z == Jam(a, count)
  {
    if count == 0 {
      OrOne(a);
      z := a;
    } else if count < 64 {
      LostBits(a, count);
      z := Or64(Shr64(a, count), Flag(Shl64(a, 64 - count) != 0));
    } else {
      Pow2Words();
      Pow2Mono(64, count);
      ShiftedOut(a, count);
      OrOne(0);
      z := Flag(a != 0);
    }
  }

  // ---- 128 bits: the value of a pair of words ----

  function Value128(a0: u64, a1: u64): nat {
    a1 + a0 * Pow2(64)
  }

  lemma Value128Bit(a0: u64, a1: u64, i: nat)
    ensures Bit(Value128(a0, a1), i) == (if i < 64 then Bit(a1, i) else Bit(a0, i - 64))
  {
    Pow2Words();
    BitJoin(a1, a0, 64, i);
  }

  lemma Shl64Bit(a: u64, n: nat, i: nat)
    requires n < 64
    ensures Bit(Shl64(a, n), i) == (n <= i < 64 && Bit(a, i - n))
  {
    BitMod(Shl(a, n), 64, i);
    BitShl(a, n, i);
  }

  lemma {:induction false} LowNonzeroSplit(a0: u64, a1: u64, n: nat)
    ensures n <= 64 ==> (LowNonzero(Value128(a0, a1), n) <==> LowNonzero(a1, n))
    ensures n >= 64 ==> (LowNonzero(Value128(a0, a1), n) <==> a1 != 0 || LowNonzero(a0, n - 64))
  {
    Pow2Words();
    LowOfJoin(a1, a0, 64, n);
  }

  lemma {:induction false} LowOfJoin(low: nat, high: nat, p: nat, n: nat)
    requires low < Pow2(p)
    ensures n <= p ==> (LowNonzero(low + high * Pow2(p), n) <==> LowNonzero(low, n))
    ensures n >= p ==> (LowNonzero(low + high * Pow2(p), n) <==> low != 0 || LowNonzero(high, n - p))
  {
    if p > 0 && n > 0 {
      var q := Pow2(p - 1);
      assert high * Pow2(p) == 2 * (high * q);
      assert (low + high * Pow2(p)) / 2 == low / 2 + high * q;
      assert (low + high * Pow2(p)) % 2 == low % 2;
      LowOfJoin(low / 2, high, p - 1, n - 1);
    }
  }

  /** The bits of a jammed value. */
  lemma JamBit(x: nat, n: nat, i: nat)
    ensures Bit(Jam(x, n), i) == (Bit(x, n + i) || (i == 0 && LowNonzero(x, n)))
  {
    var s := if LowNonzero(x, n) then 1 else 0;
    BitOr(Shr(x, n), s, i);
    BitShr(x, n, i);
    FlagBit(LowNonzero(x, n), i);
  }

  lemma FlagBit(b: bool, i: nat)
    ensures Bit(Flag(b), i) == (b && i == 0)
  {
    if i > 0 { BitZero(i - 1); }
  }

  method Shift128RightJamming(a0: u64, a1: u64, count: nat) returns (z0: u64, z1: u64)
    ensures Value128(z0, z1) == Jam(Value128(a0, a1), count)
  {
    if count == 0 {
      OrOne(Value128(a0, a1));
      z1, z0 := a1, a0;
    } else if count < 64 {
      var neg := 64 - count;
      z1 := Or64(Or64(Shl64(a0, neg), Shr64(a1, count)), Flag(Shl64(a1, neg) != 0));
      z0 := Shr64(a0, count);
      Jam128Short(a0, a1, count);
    } else {
      if count == 64 {
        z1 := Or64(a0, Flag(a1 != 0));
      } else if count < 128 {
        var neg := 128 - count;
        z1 := Or64(Shr64(a0, count - 64), Flag(Or64(Shl64(a0, neg), a1) != 0));
      } else {
        z1 := Flag(Or64(a0, a1) != 0);
      }
      z0 := 0;
      Jam128Long(a0, a1, count);
    }
  }

  lemma Jam128Short(a0: u64, a1: u64, count: nat)
    requires 0 < count < 64
    ensures var neg := 64 - count;
      Value128(Shr64(a0, count), Or64(Or64(Shl64(a0, neg), Shr64(a1, count)), Flag(Shl64(a1, neg) != 0)))
        == Jam(Value128(a0, a1), count)
  {
    Pow2Words();
    var neg := 64 - count;
    var mid := Or64(Shl64(a0, neg), Shr64(a1, count));
    var sticky := Flag(Shl64(a1, neg) != 0);
    var z0, z1 := Shr64(a0, count), Or64(mid, sticky);
    LostBits(a1, count);
    LowNonzeroSplit(a0, a1, count);
    forall i: nat ensures Bit(Value128(z0, z1), i) == Bit(Jam(Value128(a0, a1), count), i) {
      JamBit(Value128(a0, a1), count, i);
      Value128Bit(z0, z1, i);
      Value128Bit(a0, a1, count + i);
      if i < 64 {
        BitOr(mid, sticky, i);
        BitOr(Shl64(a0, neg), Shr64(a1, count), i);
        FlagBit(Shl64(a1, neg) != 0, i);
        Shl64Bit(a0, neg, i);
        BitShr(a1, count, i);
        if count + i >= 64 { HighBitsClear(a1, 64, count + i); }
      } else {
        BitShr(a0, count, i - 64);
      }
    }
    BitExtensional(Value128(z0, z1), Jam(Value128(a0, a1), count));
  }

  lemma OrIsZero(a: nat, b: nat)
    ensures Or(a, b) == 0 <==> a == 0 && b == 0
  {
    if Or(a, b) == 0 {
      forall i: nat ensures Bit(a, i) == Bit(0, i) && Bit(b, i) == Bit(0, i) {
        BitOr(a, b, i);
        BitZero(i);
      }
      BitExtensional(a, 0);
      BitExtensional(b, 0);
    }
  }

  lemma Jam128Long(a0: u64, a1: u64, count: nat)
    requires count >= 64
    ensures var z1 := if count == 64 then Or64(a0, Flag(a1 != 0))
        else if count < 128 then Or64(Shr64(a0, count - 64), Flag(Or64(Shl64(a0, 128 - count), a1) != 0))
        else Flag(Or64(a0, a1) != 0);
      Value128(0, z1) == Jam(Value128(a0, a1), count)
  {
    Pow2Words();
    var c := count - 64;
    LowNonzeroSplit(a0, a1, count);
    forall i: nat ensures Bit(Shr(Value128(a0, a1), count), i) == Bit(Shr(a0, c), i) {
      BitShr(Value128(a0, a1), count, i);
      BitShr(a0, c, i);
      Value128Bit(a0, a1, count + i);
    }
    BitExtensional(Shr(Value128(a0, a1), count), Shr(a0, c));
    if 64 < count < 128 {
      LostBits(a0, c);
      OrIsZero(Shl64(a0, 128 - count), a1);
    } else if count >= 128 {
      Pow2Mono(64, c);
      ShiftedOut(a0, c);
      OrIsZero(a0, a1);
      OrOne(0);
    }
  }

  // ---- the extra word of the guard bits ----

  /** How x compares with y: -1, 0 or 1. */
  function Compare(x: nat, y: nat): int {
    if x < y then -1 else if x == y then 0 else 1
  }

  /** The extra word tells exactly how the discarded fraction compares with one half, and
      whether it is zero.  `x` is the fixed-point value with `frac` fraction bits. */
  ghost predicate RoundsLike(x: nat, frac: nat, extra: u64)
    requires frac > 0
  {
    && Compare(extra, HALF) == Compare(x % Pow2(frac), Pow2(frac - 1))
    && (extra == 0 <==> x % Pow2(frac) == 0)
  }

  method Shift64ExtraRightJamming(a0: u64, a1: u64, count: nat) returns (z0: u64, z1: u64)
    ensures z0 == Value128(a0, a1) / Pow2(64 + count)
    ensures RoundsLike(Value128(a0, a1), 64 + count, z1)
  {
    Pow2Words();
    JoinQuotient(a1, a0, 64, count);
    if count == 0 {
      z1, z0 := a1, a0;
    } else if count < 64 {
      z1 := Or64(Shl64(a0, 64 - count), Flag(a1 != 0));
      z0 := Shr64(a0, count);
      ShrValue(a0, count);
      ExtraShort(a0, a1, count);
    } else {
      if count == 64 {
        z1 := Or64(a0, Flag(a1 != 0));
      } else {
        z1 := Flag(Or64(a0, a1) != 0);
      }
      z0 := 0;
      ExtraLong(a0, a1, count);
    }
  }

  /** Dividing a joined word by 2^(p+q): only the upper part is divided further. */
  lemma JoinQuotient(low: nat, high: nat, p: nat, q: nat)
    requires low < Pow2(p)
    ensures (low + high * Pow2(p)) / Pow2(p + q) == high / Pow2(q)
    ensures (low + high * Pow2(p)) % Pow2(p + q) == low + (high % Pow2(q)) * Pow2(p)
  {
    Pow2Add(p, q);
    ScaledDivMod(low, high, Pow2(p), Pow2(q));
  }

  lemma ExtraShort(a0: u64, a1: u64, count: nat)
    requires 0 < count < 64
    ensures RoundsLike(Value128(a0, a1), 64 + count, Or64(Shl64(a0, 64 - count), Flag(a1 != 0)))
  {
    Pow2Words();
    RoundTop(Value128(a0, a1), a1, a0, 64, count, a1 != 0);
  }

  /** A word above p others, shifted by less than a word more: what it loses decides, and a flag
      tells whether the others are zero. */
  lemma RoundTop(x: nat, low: nat, top: u64, p: nat, c: nat, some: bool)
    requires 0 < c < 64 && low < Pow2(p) && x == low + top * Pow2(p) && (low == 0 <==> !some)
    ensures RoundsLike(x, p + c, Or64(Shl64(top, 64 - c), Flag(some)))
  {
    var r := top % Pow2(c);
    LostOf(x, low, top, p, c);
    LostValue(top, c);
    HalfSplit(p, c);
    EvenFlag(r, 64 - c, some);
    RoundsFromParts(x, p + c, Or64(Shl64(top, 64 - c), Flag(some)), r, Pow2(c - 1), Pow2(64 - c), Flag(some), Pow2(p), low);
  }

  lemma LostOf(x: nat, low: nat, top: nat, p: nat, c: nat)
    requires low < Pow2(p) && x == low + top * Pow2(p)
    ensures x % Pow2(p + c) == low + (top % Pow2(c)) * Pow2(p)
  {
    JoinQuotient(low, top, p, c);
  }

  lemma HalfSplit(p: nat, c: nat)
    requires 0 < c < 64
    ensures HALF == Pow2(c - 1) * Pow2(64 - c) && Pow2(p + c - 1) == Pow2(c - 1) * Pow2(p)
  {
    Pow2Words();
    Pow2Add(c - 1, 64 - c);
    Pow2Add(c - 1, p);
  }

  lemma RoundsFromParts(x: nat, frac: nat, extra: u64, r: nat, h: nat, p: nat, e: nat, k: nat, low: nat)
    requires frac > 0 && e < p && low < k && (e == 0 <==> low == 0)
    requires x % Pow2(frac) == low + r * k && Pow2(frac - 1) == h * k
    requires extra == r * p + e && HALF == h * p
    ensures RoundsLike(x, frac, extra)
  {
    CompareScaled(r, h, p, e);
    CompareScaled(r, h, k, low);
  }

  /** Or-ing a flag into an even word adds it. */
  lemma EvenFlag(r: nat, n: nat, b: bool)
    requires n > 0
    ensures Or(r * Pow2(n), Flag(b)) == r * Pow2(n) + Flag(b)
    ensures Flag(b) < Pow2(n)
  {
    assert r * Pow2(n) == 2 * (r * Pow2(n - 1));
    OrOne(r * Pow2(n));
  }

  /** Comparing r with h decides the comparison of r*k + e with h*k when e < k, with e
      breaking the tie. */
  lemma CompareScaled(r: nat, h: nat, k: nat, e: nat)
    requires e < k
    ensures Compare(r * k + e, h * k) == if r == h then (if e == 0 then 0 else 1) else Compare(r, h)
    ensures r * k + e == 0 <==> r == 0 && e == 0
  {
    if r < h {
      MulMono(k, r + 1, h);
      assert k * (r + 1) == r * k + k;
      assert k * h == h * k;
    } else if r > h {
      MulMono(k, h + 1, r);
      assert k * (h + 1) == h * k + k;
      assert k * r == r * k;
    }
    if r > 0 {
      MulMono(k, 1, r);
      assert k * r == r * k;
    }
  }

  /** Two words are below 2^128 and vanish in a shift by as much. */
  lemma Vanishes(a0: u64, a1: u64, f: nat)
    requires f >= 128
    ensures Value128(a0, a1) < Pow2(128) <= Pow2(f)
    ensures Value128(a0, a1) / Pow2(f) == 0 && Value128(a0, a1) % Pow2(f) == Value128(a0, a1)
  {
    Pow2Mono(128, f);
    Below128(a0, a1);
    QuotientUnique(Value128(a0, a1), Pow2(f), 0, Value128(a0, a1));
  }

  lemma Below128(a0: u64, a1: u64)
    ensures Value128(a0, a1) < Pow2(128)
  {
    var k := Pow2(64);
    Pow2Words();
    Pow2Add(64, 64);
    MulMono(k, a0, k - 1);
    assert k * (k - 1) == k * k - k;
    assert a0 * k == k * a0;
  }

  lemma BothZero(a0: u64, a1: u64)
    ensures Value128(a0, a1) == 0 <==> Or64(a0, a1) == 0
  {
    Pow2Words();
    OrIsZero(a0, a1);
    CompareScaled(a0, 0, Pow2(64), a1);
  }

  lemma HalfOf128()
    ensures Pow2(127) == HALF * Pow2(64)
  {
    Pow2Words();
    Pow2Add(63, 64);
  }

  /** By exactly two words: the upper one is the fraction. */
  lemma ExtraWord(a0: u64, a1: u64)
    ensures RoundsLike(Value128(a0, a1), 128, Or64(a0, Flag(a1 != 0)))
  {
    Vanishes(a0, a1, 128);
    HalfOf128();
    Pow2Words();
    CompareScaled(a0, HALF, Pow2(64), a1);
    OrOne(a0);
  }

  lemma ExtraFar(a0: u64, a1: u64, f: nat)
    requires f > 128
    ensures RoundsLike(Value128(a0, a1), f, Flag(Or64(a0, a1) != 0))
  {
    Vanishes(a0, a1, f);
    Vanishes(a0, a1, f - 1);
    BothZero(a0, a1);
  }

  lemma ExtraLong(a0: u64, a1: u64, count: nat)
    requires count >= 64
    ensures Value128(a0, a1) / Pow2(64 + count) == 0
    ensures var z1 := if count == 64 then Or64(a0, Flag(a1 != 0)) else Flag(Or64(a0, a1) != 0);
      RoundsLike(Value128(a0, a1), 64 + count, z1)
  {
    Vanishes(a0, a1, 64 + count);
    if count == 64 { ExtraWord(a0, a1); } else { ExtraFar(a0, a1, 64 + count); }
  }
}
