/** Bitwise operations on the unbounded non-negative integers, as Python's `int` and
    C's unsigned words have them.  A word of a fixed width is a number below a power
    of two; every fact below is proved bit by bit. */
module BitOps {

  function Pow2(n: nat): (p: nat)
    ensures p > 0
  {
    if n == 0 then 1 else 2 * Pow2(n - 1)
  }

  /** Bit `i` of `x`, bit 0 being the least significant one. */
  predicate Bit(x: nat, i: nat) {
    if i == 0 then x % 2 == 1 else Bit(x / 2, i - 1)
  }

  function And(x: nat, y: nat): nat {
    if x == 0 || y == 0 then 0
    else 2 * And(x / 2, y / 2) + (if x % 2 == 1 && y % 2 == 1 then 1 else 0)
  }

  function Or(x: nat, y: nat): nat {
    if x == 0 then y
    else if y == 0 then x
    else 2 * Or(x / 2, y / 2) + (if x % 2 == 1 || y % 2 == 1 then 1 else 0)
  }

  function Xor(x: nat, y: nat): nat {
    if x == 0 then y
    else if y == 0 then x
    else 2 * Xor(x / 2, y / 2) + (if (x % 2 == 1) != (y % 2 == 1) then 1 else 0)
  }

  /** `x & ~y`. */
  function AndNot(x: nat, y: nat): nat {
    if x == 0 then 0
    else if y == 0 then x
    else 2 * AndNot(x / 2, y / 2) + (if x % 2 == 1 && y % 2 == 0 then 1 else 0)
  }

  function Shr(x: nat, s: nat): nat {
    if s == 0 then x else Shr(x / 2, s - 1)
  }

  function Shl(x: nat, s: nat): nat {
    if s == 0 then x else 2 * Shl(x, s - 1)
  }

  /** A word of `k` ones. */
  function Ones(k: nat): nat {
    if k == 0 then 0 else 2 * Ones(k - 1) + 1
  }

  /** Every set bit of `small` is set in `big`. */
  predicate Covers(big: nat, small: nat) {
    AndNot(small, big) == 0
  }

  lemma {:induction false} BitZero(i: nat)
    ensures !Bit(0, i)
  {
    if i > 0 { BitZero(i - 1); }
  }

  lemma {:induction false} BitAnd(x: nat, y: nat, i: nat)
    ensures Bit(And(x, y), i) == (Bit(x, i) && Bit(y, i))
  {
    if x == 0 || y == 0 {
      BitZero(i);
    } else if i > 0 {
      assert And(x, y) / 2 == And(x / 2, y / 2);
      BitAnd(x / 2, y / 2, i - 1);
    }
  }

  lemma {:induction false} BitOr(x: nat, y: nat, i: nat)
    ensures Bit(Or(x, y), i) == (Bit(x, i) || Bit(y, i))
  {
    if x == 0 || y == 0 {
      BitZero(i);
    } else if i > 0 {
      assert Or(x, y) / 2 == Or(x / 2, y / 2);
      BitOr(x / 2, y / 2, i - 1);
    }
  }

  lemma {:induction false} BitXor(x: nat, y: nat, i: nat)
    ensures Bit(Xor(x, y), i) == (Bit(x, i) != Bit(y, i))
  {
    if x == 0 || y == 0 {
      BitZero(i);
    } else if i > 0 {
      assert Xor(x, y) / 2 == Xor(x / 2, y / 2);
      BitXor(x / 2, y / 2, i - 1);
    }
  }

  lemma {:induction false} BitAndNot(x: nat, y: nat, i: nat)
    ensures Bit(AndNot(x, y), i) == (Bit(x, i) && !Bit(y, i))
  {
    if x == 0 || y == 0 {
      BitZero(i);
    } else if i > 0 {
      assert AndNot(x, y) / 2 == AndNot(x / 2, y / 2);
      BitAndNot(x / 2, y / 2, i - 1);
    }
  }

  /** The four bit laws, quantified, for proofs that compare words bit by bit. */
  lemma BitLaws()
    ensures forall i: nat {:trigger Bit(0, i)} :: !Bit(0, i)
    ensures forall x: nat, y: nat, i: nat {:trigger Bit(And(x, y), i)} :: Bit(And(x, y), i) == (Bit(x, i) && Bit(y, i))
    ensures forall x: nat, y: nat, i: nat {:trigger Bit(Or(x, y), i)} :: Bit(Or(x, y), i) == (Bit(x, i) || Bit(y, i))
    ensures forall x: nat, y: nat, i: nat {:trigger Bit(Xor(x, y), i)} :: Bit(Xor(x, y), i) == (Bit(x, i) != Bit(y, i))
    ensures forall x: nat, y: nat, i: nat {:trigger Bit(AndNot(x, y), i)} :: Bit(AndNot(x, y), i) == (Bit(x, i) && !Bit(y, i))
  {
    forall i: nat ensures !Bit(0, i) { BitZero(i); }
    forall x: nat, y: nat, i: nat ensures Bit(And(x, y), i) == (Bit(x, i) && Bit(y, i)) { BitAnd(x, y, i); }
    forall x: nat, y: nat, i: nat ensures Bit(Or(x, y), i) == (Bit(x, i) || Bit(y, i)) { BitOr(x, y, i); }
    forall x: nat, y: nat, i: nat ensures Bit(Xor(x, y), i) == (Bit(x, i) != Bit(y, i)) { BitXor(x, y, i); }
    forall x: nat, y: nat, i: nat ensures Bit(AndNot(x, y), i) == (Bit(x, i) && !Bit(y, i)) { BitAndNot(x, y, i); }
  }

  /** Words with the same bits are equal. */
  lemma {:induction false} BitExtensional(x: nat, y: nat)
    requires forall i: nat :: Bit(x, i) == Bit(y, i)
    ensures x == y
  {
    if x != 0 || y != 0 {
      assert Bit(x, 0) == Bit(y, 0);
      forall i: nat ensures Bit(x / 2, i) == Bit(y / 2, i) {
        assert Bit(x, i + 1) == Bit(y, i + 1);
      }
      BitExtensional(x / 2, y / 2);
    }
  }

  lemma CoversBit(big: nat, small: nat, i: nat)
    requires Covers(big, small) && Bit(small, i)
    ensures Bit(big, i)
  {
    BitAndNot(small, big, i);
    BitZero(i);
  }

  lemma CoversFromBits(big: nat, small: nat)
    requires forall i: nat :: Bit(small, i) ==> Bit(big, i)
    ensures Covers(big, small)
  {
    forall i: nat ensures Bit(AndNot(small, big), i) == Bit(0, i) {
      BitAndNot(small, big, i);
      BitZero(i);
    }
    BitExtensional(AndNot(small, big), 0);
  }

  /** A word covered by a different one is smaller: masks that lose bits shrink. */
  lemma {:induction false} CoveredIsSmaller(big: nat, small: nat)
    requires Covers(big, small)
    ensures small <= big
    ensures small != big ==> small < big
  {
    if small != 0 && big != 0 {
      CoveredIsSmaller(big / 2, small / 2);
    }
  }

  lemma {:induction false} BitShr(x: nat, s: nat, i: nat)
    ensures Bit(Shr(x, s), i) == Bit(x, s + i)
  {
    if s > 0 { BitShr(x / 2, s - 1, i); }
  }

  lemma {:induction false} BitShl(x: nat, s: nat, i: nat)
    ensures Bit(Shl(x, s), i) == (i >= s && Bit(x, i - s))
  {
    if s > 0 && i > 0 {
      assert Shl(x, s) / 2 == Shl(x, s - 1);
      BitShl(x, s - 1, i - 1);
    }
  }

  lemma {:induction false} OnesBits(k: nat, i: nat)
    ensures Bit(Ones(k), i) <==> i < k
  {
    if k == 0 {
      BitZero(i);
    } else if i > 0 {
      OnesBits(k - 1, i - 1);
    }
  }

  // ---- the shifts as arithmetic ----

  lemma {:induction false} OnesValue(k: nat)
    ensures Ones(k) == Pow2(k) - 1
  {
    if k > 0 { OnesValue(k - 1); }
  }

  lemma {:induction false} ShlValue(x: nat, s: nat)
    ensures Shl(x, s) == x * Pow2(s)
  {
    if s > 0 {
      ShlValue(x, s - 1);
      assert x * (2 * Pow2(s - 1)) == 2 * (x * Pow2(s - 1));
    }
  }

  lemma {:induction false} ShrValue(x: nat, s: nat)
    ensures Shr(x, s) == x / Pow2(s)
  {
    if s > 0 {
      ShrValue(x / 2, s - 1);
      DivDiv(x, 2, Pow2(s - 1));
    }
  }

  lemma MulMono(d: nat, a: int, b: int)
    requires a <= b
    ensures d * a <= d * b
  {}

  lemma DivDiv(x: nat, a: nat, b: nat)
    requires a > 0 && b > 0
    ensures a * b > 0 && x / (a * b) == x / a / b
  {
    var q, r := x / a, x % a;
    var q', r' := q / b, q % b;
    assert q == b * q' + r';
    calc {
      x;
      a * q + r;
      a * (b * q' + r') + r;
      a * (b * q') + a * r' + r;
      (a * b) * q' + (a * r' + r);
    }
    MulMono(a, r', b - 1);
    assert a * (b - 1) == a * b - a;
    QuotientUnique(x, a * b, q', a * r' + r);
  }

  lemma QuotientUnique(x: nat, d: nat, q: nat, r: nat)
    requires d > 0 && r < d && x == d * q + r
    ensures x / d == q && x % d == r
  {
    var q', r' := x / d, x % d;
    assert x == d * q' + r';
    assert d * (q' + 1) == d * q' + d;
    assert d * (q + 1) == d * q + d;
    if q > q' {
      MulMono(d, q' + 1, q);
    } else if q < q' {
      MulMono(d, q + 1, q');
    }
  }

  // ---- powers of two and words put together from pieces ----

  lemma {:induction false} Pow2Add(m: nat, n: nat)
    ensures Pow2(m + n) == Pow2(m) * Pow2(n)
  {
    if m > 0 {
      Pow2Add(m - 1, n);
      assert Pow2(m) * Pow2(n) == 2 * (Pow2(m - 1) * Pow2(n));
    }
  }

  lemma {:induction false} Pow2Mono(m: nat, n: nat)
    requires m <= n
    ensures Pow2(m) <= Pow2(n)
    ensures m < n ==> 2 * Pow2(m) <= Pow2(n)
  {
    if m < n { Pow2Mono(m, n - 1); }
  }

  /** `low` below position `p`, `high` from there on. */
  lemma {:induction false} BitJoin(low: nat, high: nat, p: nat, i: nat)
    requires low < Pow2(p)
    ensures Bit(low + high * Pow2(p), i) == (if i < p then Bit(low, i) else Bit(high, i - p))
  {
    if p > 0 {
      var q := Pow2(p - 1);
      assert high * Pow2(p) == 2 * (high * q);
      assert (low + high * Pow2(p)) / 2 == low / 2 + high * q;
      if i > 0 {
        BitJoin(low / 2, high, p - 1, i - 1);
      }
    }
  }

  /** A word below 2^p has no bit from position `p` on. */
  lemma {:induction false} HighBitsClear(x: nat, p: nat, i: nat)
    requires x < Pow2(p) && i >= p
    ensures !Bit(x, i)
  {
    if p == 0 { BitZero(i); } else { HighBitsClear(x / 2, p - 1, i - 1); }
  }

  lemma {:induction false} BelowFromBits(x: nat, p: nat)
    requires forall i: nat :: i >= p ==> !Bit(x, i)
    ensures x < Pow2(p)
  {
    if p == 0 {
      forall i: nat ensures Bit(x, i) == Bit(0, i) { BitZero(i); }
      BitExtensional(x, 0);
    } else {
      forall i: nat | i >= p - 1 ensures !Bit(x / 2, i) {
        assert !Bit(x, i + 1);
      }
      BelowFromBits(x / 2, p - 1);
    }
  }

  lemma DivMod(x: nat, d: nat) returns (q: nat, r: nat)
    requires d > 0
    ensures q == x / d && r == x % d && r < d && x == r + q * d
  {
    q, r := x / d, x % d;
    assert x == d * q + r;
    assert d * q == q * d;
  }

  /** The remainder keeps the low bits. */
  lemma BitMod(x: nat, p: nat, i: nat)
    ensures Bit(x % Pow2(p), i) == (i < p && Bit(x, i))
  {
    var high, low := DivMod(x, Pow2(p));
    BitJoin(low, high, p, i);
    if i >= p { HighBitsClear(low, p, i); }
  }

  /** Disjoint words: `|` adds them. */
  lemma OrJoin(low: nat, high: nat, p: nat)
    requires low < Pow2(p)
    ensures Or(Shl(high, p), low) == low + high * Pow2(p)
  {
    ShlValue(high, p);
    forall i: nat ensures Bit(Or(Shl(high, p), low), i) == Bit(low + high * Pow2(p), i) {
      BitOr(Shl(high, p), low, i);
      BitShl(high, p, i);
      BitJoin(low, high, p, i);
      if i >= p { HighBitsClear(low, p, i); }
    }
    BitExtensional(Or(Shl(high, p), low), low + high * Pow2(p));
  }
}
