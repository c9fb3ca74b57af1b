/** The three-word shift of the guard bits (softfloat-macros.h, lines 311-362). */
module WideExtra {
  import opened BitOps
  import opened WideShift

  function Value192(a0: u64, a1: u64, a2: u64): nat {
    Value128(a1, a2) + a0 * Pow2(128)
  }

  /** The three words as the upper two over the lowest. */
  lemma Regrouped(a0: u64, a1: u64, a2: u64)
    ensures Value192(a0, a1, a2) == a2 + Value128(a0, a1) * Pow2(64)
    ensures Value128(a1, a2) < Pow2(128)
  {
    Pow2Words();
    Pow2Add(64, 64);
    var k := Pow2(64);
    assert (a1 + a0 * k) * k == a1 * k + a0 * (k * k);
    MulMono(k, a1, k - 1);
    assert k * (k - 1) == k * k - k;
    assert a1 * k == k * a1;
  }

  /** Words above the fraction do not matter to the rounding. */
  lemma HighWordsDoNotMatter(low: nat, high: nat, f: nat, extra: u64)
    requires 0 < f <= 128 && RoundsLike(low, f, extra)
    ensures RoundsLike(low + high * Pow2(128), f, extra)
  {
    SameRemainder(low, high, f);
  }

  lemma SameRemainder(low: nat, high: nat, f: nat)
    requires f <= 128
    ensures (low + high * Pow2(128)) % Pow2(f) == low % Pow2(f)
  {
    Pow2Add(f, 128 - f);
    MultipleAdded(low, high, Pow2(f), Pow2(128 - f));
  }

  lemma MultipleAdded(low: nat, high: nat, p: nat, s: nat)
    requires 0 < p
    ensures (low + high * (p * s)) % p == low % p
  {
    var q, r := DivMod(low, p);
    Regroup3(r, q, p, high, s);
    SwapFactors(q + high * s, p);
    QuotientUnique(low + high * (p * s), p, q + high * s, r);
  }

  lemma SwapFactors(a: nat, b: nat)
    ensures a * b == b * a
  {}

  lemma Regroup3(r: nat, q: nat, p: nat, h: nat, s: nat)
    ensures r + q * p + h * (p * s) == r + (q + h * s) * p
  {
    assert (q + h * s) * p == q * p + h * s * p;
    assert h * s * p == h * (p * s);
  }

  /** Shifts by more than a word but less than two: the lost part of the top word decides. */
  lemma ExtraMiddle(a0: u64, a1: u64, a2: u64, c: nat)
    requires 0 < c < 64
    ensures RoundsLike(Value192(a0, a1, a2), 128 + c, Or64(Shl64(a0, 64 - c), Flag(Or64(a2, a1) != 0)))
  {
    Below128(a1, a2);
    LowWordsZero(a1, a2);
    RoundTop(Value192(a0, a1, a2), Value128(a1, a2), a0, 128, c, Or64(a2, a1) != 0);
  }

  lemma LowWordsZero(a1: u64, a2: u64)
    ensures Value128(a1, a2) == 0 <==> Or64(a2, a1) == 0
  {
    BothZero(a1, a2);
    OrIsZero(a1, a2);
    OrIsZero(a2, a1);
  }

  lemma Below192(a0: u64, a1: u64, a2: u64)
    ensures Value192(a0, a1, a2) < Pow2(192)
  {
    Pow2Words();
    Regrouped(a0, a1, a2);
    Pow2Add(128, 64);
    ScaledBound(Value128(a1, a2), Pow2(128), Pow2(64), a0);
  }

  lemma WholeIsLost(a0: u64, a1: u64, a2: u64, f: nat)
    requires f >= 192
    ensures Value192(a0, a1, a2) / Pow2(f) == 0 && Value192(a0, a1, a2) % Pow2(f) == Value192(a0, a1, a2)
  {
    Below192(a0, a1, a2);
    Pow2Mono(192, f);
    QuotientUnique(Value192(a0, a1, a2), Pow2(f), 0, Value192(a0, a1, a2));
  }

  /** A flag or-ed into a word breaks only the tie with one half. */
  lemma FlagBreaksTie(a: u64, b: bool)
    ensures Compare(Or64(a, Flag(b)), HALF) == if a == HALF then (if b then 1 else 0) else Compare(a, HALF)
    ensures Or64(a, Flag(b)) == 0 <==> a == 0 && !b
  {
    OrOne(a);
    OrIsZero(a, Flag(b));
  }

  /** A shift by exactly two words: the top word is the fraction. */
  lemma ExtraTwoWords(a0: u64, a1: u64, a2: u64)
    ensures RoundsLike(Value192(a0, a1, a2), 192, Or64(a0, Flag(Or64(a2, a1) != 0)))
  {
    WholeIsLost(a0, a1, a2, 192);
    LowWordsZero(a1, a2);
    Below128(a1, a2);
    HalfOf192();
    TopIsLost(Value192(a0, a1, a2), Value128(a1, a2), a0, Pow2(128), Or64(a2, a1) != 0);
  }

  lemma TopIsLost(x: nat, low: nat, top: u64, k: nat, some: bool)
    requires low < k && x == low + top * k && (low == 0 <==> !some)
    ensures var extra := Or64(top, Flag(some));
      Compare(extra, HALF) == Compare(x, HALF * k) && (extra == 0 <==> x == 0)
  {
    FlagBreaksTie(top, some);
    CompareScaled(top, HALF, k, low);
  }

  lemma HalfOf192()
    ensures Pow2(191) == HALF * Pow2(128)
  {
    Pow2Words();
    Pow2Add(63, 128);
  }

  /** A longer one: the fraction is below one half. */
  lemma ExtraBeyond(a0: u64, a1: u64, a2: u64, f: nat)
    requires f > 192
    ensures RoundsLike(Value192(a0, a1, a2), f, Or64(Flag(a0 != 0), Flag(Or64(a2, a1) != 0)))
  {
    WholeIsLost(a0, a1, a2, f);
    Below192(a0, a1, a2);
    Pow2Mono(192, f - 1);
    BeyondIsZero(a0, a1, a2);
    OrOne(Flag(a0 != 0));
  }

  lemma BeyondIsZero(a0: u64, a1: u64, a2: u64)
    ensures Value192(a0, a1, a2) == 0 <==> a0 == 0 && Or64(a2, a1) == 0
  {
    Regrouped(a0, a1, a2);
    LowWordsZero(a1, a2);
    CompareScaled(a0, 0, Pow2(128), Value128(a1, a2));
  }

  /** Shifting right by two words or more. */
  lemma FarQuotient(a0: u64, a1: u64, a2: u64, c: nat)
    ensures Value192(a0, a1, a2) / Pow2(128 + c) == a0 / Pow2(c)
  {
    Regrouped(a0, a1, a2);
    JoinQuotient(Value128(a1, a2), a0, 128, c);
  }

  lemma NearQuotient(a0: u64, a1: u64, a2: u64, count: nat)
    ensures Value192(a0, a1, a2) / Pow2(64 + count) == Value128(a0, a1) / Pow2(count)
  {
    Regrouped(a0, a1, a2);
    WordFits(a2);
    QuotientOver(Value192(a0, a1, a2), a2, Value128(a0, a1), count);
  }

  lemma WordFits(a: u64)
    ensures a < Pow2(64)
  {
    Pow2Words();
  }

  lemma QuotientOver(x: nat, low: nat, high: nat, count: nat)
    requires low < Pow2(64) && x == low + high * Pow2(64)
    ensures x / Pow2(64 + count) == high / Pow2(count)
  {
    JoinQuotient(low, high, 64, count);
  }

  /** Without a shift the lowest word is the fraction. */
  lemma LowestIsLost(x: nat, low: u64, high: nat)
    requires x == low + high * Pow2(64)
    ensures x / Pow2(64) == high && RoundsLike(x, 64, low)
  {
    Pow2Words();
    JoinQuotient(low, high, 64, 0);
  }

  lemma NoShift(a0: u64, a1: u64, a2: u64)
    ensures Value192(a0, a1, a2) / Pow2(64) == Value128(a0, a1)
    ensures RoundsLike(Value192(a0, a1, a2), 64, a2)
  {
    Regrouped(a0, a1, a2);
    LowestIsLost(Value192(a0, a1, a2), a2, Value128(a0, a1));
  }

  lemma ShortShift(a0: u64, a1: u64, a2: u64, count: nat)
    requires 0 < count < 64
    ensures Value128(Shr64(a0, count), Or64(Shl64(a0, 64 - count), Shr64(a1, count))) == Value192(a0, a1, a2) / Pow2(64 + count)
    ensures RoundsLike(Value192(a0, a1, a2), 64 + count, Or64(Shl64(a1, 64 - count), Flag(a2 != 0)))
  {
    NearQuotient(a0, a1, a2, count);
    ShortQuotient(a0, a1, count);
    ExtraShort(a1, a2, count);
    HighWordsDoNotMatter(Value128(a1, a2), a0, 64 + count, Or64(Shl64(a1, 64 - count), Flag(a2 != 0)));
  }

  lemma WordShift(a0: u64, a1: u64, a2: u64)
    ensures Value192(a0, a1, a2) / Pow2(128) == a0
    ensures RoundsLike(Value192(a0, a1, a2), 128, Or64(a1, Flag(a2 != 0)))
  {
    FarQuotient(a0, a1, a2, 0);
    ExtraWord(a1, a2);
    HighWordsDoNotMatter(Value128(a1, a2), a0, 128, Or64(a1, Flag(a2 != 0)));
  }

  lemma MiddleShift(a0: u64, a1: u64, a2: u64, c: nat)
    requires 0 < c < 64
    ensures Value192(a0, a1, a2) / Pow2(128 + c) == Shr64(a0, c)
    ensures RoundsLike(Value192(a0, a1, a2), 128 + c, Or64(Shl64(a0, 64 - c), Flag(Or64(a2, a1) != 0)))
  {
    FarQuotient(a0, a1, a2, c);
    ShrValue(a0, c);
    ExtraMiddle(a0, a1, a2, c);
  }

  // ---- the words of the result ----

  function Top(a0: u64, count: nat): u64 {
    if count < 64 then Shr64(a0, count) else 0
  }

  function Middle(a0: u64, a1: u64, count: nat): u64 {
    if count == 0 then a1
    else if count < 64 then Or64(Shl64(a0, 64 - count), Shr64(a1, count))
    else if count == 64 then a0
    else if count < 128 then Shr64(a0, count - 64)
    else 0
  }

  function Guard(a0: u64, a1: u64, a2: u64, count: nat): u64 {
    if count == 0 then a2
    else if count < 64 then Or64(Shl64(a1, 64 - count), Flag(a2 != 0))
    else if count == 64 then Or64(a1, Flag(a2 != 0))
    else if count < 128 then Or64(Shl64(a0, 128 - count), Flag(Or64(a2, a1) != 0))
    else Or64(if count == 128 then a0 else Flag(a0 != 0), Flag(Or64(a2, a1) != 0))
  }

  /** The integer part is exact, and the extra word tells how the discarded fraction compares
      with one half. */
  lemma ExtraShiftCorrect(a0: u64, a1: u64, a2: u64, count: nat)
    ensures Value128(Top(a0, count), Middle(a0, a1, count)) == Value192(a0, a1, a2) / Pow2(64 + count)
    ensures RoundsLike(Value192(a0, a1, a2), 64 + count, Guard(a0, a1, a2, count))
  {
    if count == 0 {
      NoShift(a0, a1, a2);
    } else if count < 64 {
      ShortShift(a0, a1, a2, count);
    } else if count == 64 {
      WordShift(a0, a1, a2);
    } else if count < 128 {
      MiddleShift(a0, a1, a2, count - 64);
    } else {
      WholeIsLost(a0, a1, a2, 64 + count);
      FarShift(a0, a1, a2, count);
    }
  }

  method Shift128ExtraRightJamming(a0: u64, a1: u64, a2: u64, count: nat) returns (z0: u64, z1: u64, z2: u64)
    ensures Value128(z0, z1) == Value192(a0, a1, a2) / Pow2(64 + count)
    ensures RoundsLike(Value192(a0, a1, a2), 64 + count, z2)
  {
    z0, z1, z2 := ShiftWords(a0, a1, a2, count);
    ExtraShiftCorrect(a0, a1, a2, count);
  }

  method ShiftWords(a0: u64, a1: u64, a2: u64, count: nat) returns (z0: u64, z1: u64, z2: u64)
    ensures z0 == Top(a0, count) && z1 == Middle(a0, a1, count) && z2 == Guard(a0, a1, a2, count)
  {
    if count == 0 {
      z2, z1, z0 := a2, a1, a0;
    } else {
      var low := a2;
      if count < 64 {
        z2 := Shl64(a1, 64 - count);
        z1 := Or64(Shl64(a0, 64 - count), Shr64(a1, count));
        z0 := Shr64(a0, count);
      } else {
        if count == 64 {
          z2, z1 := a1, a0;
        } else {
          low := Or64(low, a1);
          if count < 128 {
            z2 := Shl64(a0, 128 - count);
            z1 := Shr64(a0, count - 64);
          } else {
            z2 := if count == 128 then a0 else Flag(a0 != 0);
            z1 := 0;
          }
        }
        z0 := 0;
      }
      z2 := Or64(z2, Flag(low != 0));
    }
  }

  lemma FarShift(a0: u64, a1: u64, a2: u64, count: nat)
    requires count >= 128
    ensures RoundsLike(Value192(a0, a1, a2), 64 + count,
                       Or64(if count == 128 then a0 else Flag(a0 != 0), Flag(Or64(a2, a1) != 0)))
  {
    if count == 128 { ExtraTwoWords(a0, a1, a2); } else { ExtraBeyond(a0, a1, a2, 64 + count); }
  }

  lemma ShortQuotient(a0: u64, a1: u64, count: nat)
    requires 0 < count < 64
    ensures Value128(Shr64(a0, count), Or64(Shl64(a0, 64 - count), Shr64(a1, count))) == Value128(a0, a1) / Pow2(count)
  {
    Pow2Words();
    var neg := 64 - count;
    var z0, z1 := Shr64(a0, count), Or64(Shl64(a0, neg), Shr64(a1, count));
    ShrValue(Value128(a0, a1), count);
    forall i: nat ensures Bit(Value128(z0, z1), i) == Bit(Shr(Value128(a0, a1), count), i) {
      BitShr(Value128(a0, a1), count, i);
      Value128Bit(z0, z1, i);
      Value128Bit(a0, a1, count + i);
      if i < 64 {
        BitOr(Shl64(a0, neg), Shr64(a1, count), i);
        Shl64Bit(a0, neg, i);
        BitShr(a1, count, i);
        if count + i >= 64 { HighBitsClear(a1, 64, count + i); }
      } else {
        BitShr(a0, count, i - 64);
      }
    }
    BitExtensional(Value128(z0, z1), Shr(Value128(a0, a1), count));
  }
}
