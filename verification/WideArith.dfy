/** Multi-word arithmetic and the quotient estimate of the soft-float kernels
    (thirdparty/softfloat/inc/fpu/softfloat-macros.h, lines 431-581). */
module WideArith {
  import opened BitOps
  import opened WideShift

  const W: nat := 0x1_0000_0000_0000_0000
  const H: nat := 0x1_0000_0000

  /** The value of two, three or four words, the first one on top. */
  function V2(a0: u64, a1: u64): nat { a0 * W + a1 }
  function V3(a0: u64, a1: u64, a2: u64): nat { V2(a0, a1) * W + a2 }
  function V4(a0: u64, a1: u64, a2: u64, a3: u64): nat { V3(a0, a1, a2) * W + a3 }

  /** uadd64_carry: the 64-bit sum and the carry out. */
  method AddCarry(a: u64, b: u64, cin: bool) returns (z: u64, cout: bool)
    ensures z + (if cout then W else 0) == a + b + (if cin then 1 else 0)
  {
    var s := a + b + (if cin then 1 else 0);
    cout := s >= W;
    z := if cout then s - W else s;
  }

  /** usub64_borrow: the 64-bit difference and the borrow out. */
  method SubBorrow(a: u64, b: u64, bin: bool) returns (z: u64, bout: bool)
    ensures z - (if bout then W else 0) == a - b - (if bin then 1 else 0)
  {
    var s := a - b - (if bin then 1 else 0);
    bout := s < 0;
    z := if bout then s + W else s;
  }

  method Add128(a0: u64, a1: u64, b0: u64, b1: u64) returns (z0: u64, z1: u64)
    ensures V2(z0, z1) == (V2(a0, a1) + V2(b0, b1)) % (W * W)
  {
    var c := false;
    z1, c := AddCarry(a1, b1, c);
    z0, c := AddCarry(a0, b0, c);
    WrapOnce(V2(a0, a1) + V2(b0, b1), V2(z0, z1), W * W, c);
  }

  method Sub128(a0: u64, a1: u64, b0: u64, b1: u64) returns (z0: u64, z1: u64)
    ensures V2(z0, z1) == (V2(a0, a1) - V2(b0, b1)) % (W * W)
  {
    var c := false;
    z1, c := SubBorrow(a1, b1, c);
    z0, c := SubBorrow(a0, b0, c);
    if c {
      WrapBelow(V2(a0, a1) - V2(b0, b1), V2(z0, z1), W * W);
    } else {
      WrapOnce(V2(a0, a1) - V2(b0, b1), V2(z0, z1), W * W, false);
    }
  }

  lemma WrapOnce(x: nat, z: nat, m: nat, carry: bool)
    requires z < m && x == z + (if carry then m else 0)
    ensures z == x % m
  {
    QuotientUnique(x, m, if carry then 1 else 0, z);
  }

  lemma WrapBelow(x: int, z: nat, m: nat)
    requires z < m && x == z - m
    ensures z == x % m
  {
    var q, r := x / m, x % m;
    assert x == m * q + r;
    assert z - r == m * (q + 1);
    if q + 1 > 0 { MulMono(m, 1, q + 1); }
    if q + 1 < 0 { MulMono(m, q + 1, -1); }
  }

  method Add192(a0: u64, a1: u64, a2: u64, b0: u64, b1: u64, b2: u64) returns (z0: u64, z1: u64, z2: u64)
    ensures V3(z0, z1, z2) == (V3(a0, a1, a2) + V3(b0, b1, b2)) % (W * W * W)
  {
    var c := false;
    z2, c := AddCarry(a2, b2, c);
    z1, c := AddCarry(a1, b1, c);
    z0, c := AddCarry(a0, b0, c);
    WrapOnce(V3(a0, a1, a2) + V3(b0, b1, b2), V3(z0, z1, z2), W * W * W, c);
  }

  /** mulu64: the two halves of the 128-bit product. */
  method Mul64To128(a: u64, b: u64) returns (z0: u64, z1: u64)
    ensures V2(z0, z1) == a * b
    ensures z0 < W - 1
  {
    MulMono(a, b, W - 1);
    MulMono(W - 1, a, W - 1);
    ProductBound(a, b);
    z0, z1 := (a * b) / W, (a * b) % W;
  }

  lemma ProductBound(a: u64, b: u64)
    ensures 0 <= a * b <= (W - 1) * (W - 1)
  {
    MulMono(a, b, W - 1);
    MulMono(W - 1, a, W - 1);
    MulMono(a, 0, b);
    assert a * (W - 1) == (W - 1) * a;
  }

  /** The 192-bit product is exact: the partial sum never overflows. */
  method Mul128By64To192(a0: u64, a1: u64, b: u64) returns (z0: u64, z1: u64, z2: u64)
    ensures V3(z0, z1, z2) == V2(a0, a1) * b
  {
    var m1, x0, x1;
    m1, z2 := Mul64To128(a1, b);
    x0, x1 := Mul64To128(a0, b);
    z0, z1 := Add128(x0, x1, 0, m1);
    SmallMod(V2(x0, x1) + V2(0, m1), W * W);
    assert V2(a0, a1) * b == (a0 * b) * W + a1 * b by {
      assert (a0 * W + a1) * b == (a0 * W) * b + a1 * b;
      assert (a0 * W) * b == (a0 * b) * W;
    }
  }

  lemma SmallMod(x: nat, m: nat)
    requires x < m
    ensures x % m == x
  {}

  /** The 256-bit product is exact. */
  method Mul128To256(a0: u64, a1: u64, b0: u64, b1: u64) returns (z0: u64, z1: u64, z2: u64, z3: u64)
    ensures V4(z0, z1, z2, z3) == V2(a0, a1) * V2(b0, b1)
  {
    var m0, m1, m2, n1, n2, y0, y1, y2;
    m1, m2 := Mul64To128(a1, b0);
    n1, n2 := Mul64To128(a0, b1);
    y2, z3 := Mul64To128(a1, b1);
    y0, y1 := Mul64To128(a0, b0);
    ghost var cross := a1 * b0 + a0 * b1;
    ProductBound(a1, b0);
    ProductBound(a0, b1);
    ProductBound(a0, b0);
    ProductBound(a1, b1);
    m0, m1, m2 := Add192(0, m1, m2, 0, n1, n2);
    SmallMod(cross, W * W * W);
    assert V3(m0, m1, m2) == cross;
    z0, z1, z2 := Add192(m0, m1, m2, y0, y1, y2);
    FullProduct(a0, a1, b0, b1, y2, z3);
    ghost var top := (a0 * b0) * W + y2 + cross;
    assert V3(y0, y1, y2) == (a0 * b0) * W + y2;
    assert top < W * W * W by { TopBound(a0, a1, b0, b1, y2); }
    SmallMod(top, W * W * W);
  }

  lemma FullProduct(a0: u64, a1: u64, b0: u64, b1: u64, high: u64, low: u64)
    requires V2(high, low) == a1 * b1
    ensures ((a0 * b0) * W + high + (a1 * b0 + a0 * b1)) * W + low == V2(a0, a1) * V2(b0, b1)
  {
    calc {
      V2(a0, a1) * V2(b0, b1);
      (a0 * W + a1) * (b0 * W + b1);
      (a0 * W) * (b0 * W) + (a0 * W) * b1 + a1 * (b0 * W) + a1 * b1;
      { assert (a0 * W) * (b0 * W) == (a0 * b0) * W * W; }
      (a0 * b0) * W * W + (a0 * b1) * W + (a1 * b0) * W + a1 * b1;
    }
  }

  lemma TopBound(a0: u64, a1: u64, b0: u64, b1: u64, high: u64)
    ensures (a0 * b0) * W + high + (a1 * b0 + a0 * b1) < W * W * W
  {
    ProductBound(a0, b0);
    ProductBound(a1, b0);
    ProductBound(a0, b1);
  }

  // ---- the quotient estimate ----

  function Quot(n: nat, d: nat): nat
    requires d > 0
  {
    n / d
  }

  lemma QuotSmaller(n: nat, d: nat)
    requires d > 0
    ensures Quot(n, d) <= n
  {
    var q, r := DivMod(n, d);
    MulMono(q, 1, d);
  }

  /** a / b of two words. */
  function Div64(a: u64, b: u64): u64
    requires b > 0
  {
    QuotSmaller(a, b);
    Quot(a, b)
  }

  /** Dividing by the top half of the divisor only, as the kernel does twice. */
  function Estimate(x: nat, b0: nat): nat
    requires b0 > 0
  {
    if b0 * H <= x then H - 1 else x / b0
  }

  /** For a normalised divisor b = b0*2^32 + bl and x < b, the estimate of
      (x*2^32 + y) / b is at least the quotient and at most two above it. */
  lemma EstimateBounds(x: nat, y: nat, b0: nat, bl: nat)
    requires H <= 2 * b0 && b0 < H && bl < H && y < H
    requires x < b0 * H + bl
    ensures var b, e := b0 * H + bl, Estimate(x, b0);
      && b > 0 && e < H
      && Quot(x * H + y, b) <= e <= Quot(x * H + y, b) + 2
  {
    var b, n := b0 * H + bl, x * H + y;
    var q, r := DivMod(n, b);
    QuotientFits(x, y, b, q, r);
    EstimateLow(x, b0);
    NotBelow(x, y, b0, bl, q, r);
    NotFarAbove(x, y, b0, bl, q, r);
  }

  lemma QuotientFits(x: nat, y: nat, b: nat, q: nat, r: nat)
    requires x < b && y < H && q * b + r == x * H + y
    ensures q < H
  {
    assert b * q == q * b;
    if q >= H { MulMono(b, H, q); }
  }

  /** A quotient above the estimate would need b0*(e+1) <= x. */
  lemma NotBelow(x: nat, y: nat, b0: nat, bl: nat, q: nat, r: nat)
    requires 0 < b0 && bl < H && y < H && q < H
    requires q * (b0 * H + bl) + r == x * H + y
    ensures q <= Estimate(x, b0)
  {
    var e := Estimate(x, b0);
    if q > e {
      assert q * (b0 * H + bl) == (q * b0) * H + q * bl;
      MulMono(q, 0, bl);
      assert (q * b0) * H <= x * H + y;
      assert q * b0 <= x;
      EstimateHigh(x, b0);
      assert b0 * q == q * b0;
      MulMono(b0, e + 1, q);
    }
  }

  /** A quotient more than two below the estimate would need e*bl to reach 2b. */
  lemma NotFarAbove(x: nat, y: nat, b0: nat, bl: nat, q: nat, r: nat)
    requires H <= 2 * b0 && bl < H && y < H
    requires r < b0 * H + bl && q * (b0 * H + bl) + r == x * H + y
    ensures Estimate(x, b0) <= q + 2
  {
    var b, e := b0 * H + bl, Estimate(x, b0);
    if e >= q + 3 {
      MulMono(b, q + 3, e);
      assert b * (q + 3) == q * b + 3 * b;
      assert b * e == (e * b0) * H + e * bl;
      EstimateLow(x, b0);
      assert (e * b0) * H <= x * H;
      EstimateError(e, bl, b0);
    }
  }

  lemma EstimateLow(x: nat, b0: nat)
    requires 0 < b0
    ensures Estimate(x, b0) * b0 <= x && Estimate(x, b0) < H
  {
    if b0 * H > x {
      var d, r := DivMod(x, b0);
      if d >= H { MulMono(b0, H, d); }
    } else {
      assert (H - 1) * b0 <= b0 * H;
    }
  }

  lemma EstimateHigh(x: nat, b0: nat)
    requires 0 < b0
    ensures Estimate(x, b0) < H - 1 || b0 * H > x ==> b0 * (Estimate(x, b0) + 1) > x
  {
    if b0 * H > x {
      var d, r := DivMod(x, b0);
      assert b0 * (d + 1) == d * b0 + b0;
    }
  }

  lemma EstimateError(e: nat, bl: nat, b0: nat)
    requires e < H && bl < H && H <= 2 * b0
    ensures e * bl < 2 * (b0 * H)
  {
    MulMono(e, bl, H - 1);
    assert e * (H - 1) <= (H - 1) * (H - 1);
  }

  /** One 64-bit word split into halves. */
  lemma Halves(a: u64)
    ensures a == (a / H) * H + a % H && a / H < H
    ensures Shr64(a, 32) == a / H
    ensures Shl64(a, 32) == (a % H) * H
  {
    Pow2Words();
    ShrValue(a, 32);
    ShlValue(a, 32);
    var q, r := DivMod(a, H);
    assert H * q == q * H;
    if q >= H { MulMono(H, H, q); }
    assert a * H == W * q + r * H;
    QuotientUnique(a * H, W, q, r * H);
  }

  /** What the remainder registers mean: the remainder of the current estimate e of the
      upper quotient half, possibly negative, modulo 2^128. */
  ghost predicate Remainder(a: nat, b: u64, e: nat, rem: nat) {
    && rem < W * W
    && -(2 * b * H) <= a - b * H * e < b * H
    && rem == (if a - b * H * e < 0 then a - b * H * e + W * W else a - b * H * e)
  }

  /** Its sign is the top bit of the upper register. */
  lemma SignOfRemainder(d: int, b: u64, rem0: u64, rem1: u64)
    requires -(2 * b * H) <= d < b * H
    requires V2(rem0, rem1) == if d < 0 then d + W * W else d
    ensures rem0 >= HALF <==> d < 0
    ensures rem0 < HALF ==> rem0 < H
  {}

  lemma RemainderAfterSub(a: nat, b: u64, e: nat, rem: nat)
    requires -(2 * b * H) <= a - b * H * e < b * H
    requires rem == (a - (b * (e * H))) % (W * W)
    ensures Remainder(a, b, e, rem)
  {
    assert b * (e * H) == b * H * e;
    var r := a - b * H * e;
    assert b * H <= W * H;
    if r < 0 { WrapBelow(r, r + W * W, W * W); } else { SmallMod(r, W * W); }
  }

  lemma RemainderAfterAdd(a: nat, b: u64, e: nat, rem: nat, rem': nat)
    requires Remainder(a, b, e, rem) && e > 0 && a - b * H * e < 0
    requires rem' == (rem + b * H) % (W * W)
    ensures Remainder(a, b, e - 1, rem')
  {
    var r := a - b * H * e;
    assert b * H * (e - 1) == b * H * e - b * H;
    assert b * H <= W * H;
    if r + b * H < 0 {
      SmallMod(rem + b * H, W * W);
    } else {
      WrapOnce(rem + b * H, r + b * H, W * W, true);
    }
  }

  /** b >> 32 of a normalised divisor. */
  function TopHalf(b: u64): (b0: u64)
    requires HALF <= b
    ensures 0 < b0 < H <= 2 * b0
    ensures b0 * H <= b < b0 * H + H
  {
    Halves(b);
    Shr64(b, 32)
  }

  /** The exact upper half of the quotient. */
  function UpperQuotient(a0: u64, a1: u64, b: u64): nat
    requires b > 0
  {
    Quot(a0 * H + Shr64(a1, 32), b)
  }

  lemma EstimateOfWord(x: nat, y: nat, b: u64)
    requires HALF <= b && x < b && y < H
    ensures var e, q := Estimate(x, TopHalf(b)), Quot(x * H + y, b);
      e < H && q <= e <= q + 2
  {
    var b0 := TopHalf(b);
    EstimateBounds(x, y, b0, b - b0 * H);
  }

  /** The upper half: the first estimate is at most two above the upper quotient, so the
      remainder is negative exactly while it is too high. */
  lemma UpperEstimate(a0: u64, a1: u64, b: u64)
    requires HALF <= b && a0 < b
    ensures var e, q := Estimate(a0, TopHalf(b)), UpperQuotient(a0, a1, b);
      && e < H && q <= e <= q + 2
      && b * H * q <= V2(a0, a1) < b * H * q + b * H
  {
    Halves(a1);
    EstimateOfWord(a0, Shr64(a1, 32), b);
    ScaledSpan(a0 * H + Shr64(a1, 32), b, a1 % H);
  }

  lemma ScaledSpan(n: nat, b: nat, y: nat)
    requires b > 0 && y < H
    ensures b * H * Quot(n, b) <= n * H + y < b * H * Quot(n, b) + b * H
  {
    var q, r := DivMod(n, b);
    assert b * H * q == (q * b) * H;
    assert (r + 1) * H <= b * H by { MulMono(H, r + 1, b); }
  }

  lemma UpperSpan(a: nat, b: u64, e: nat, q: nat)
    requires q <= e <= q + 2 && b * H * q <= a < b * H * q + b * H
    ensures -(2 * b * H) <= a - b * H * e < b * H
    ensures a - b * H * e < 0 <==> e > q
  {
    var k := e - q;
    assert b * H * e == b * H * q + b * H * k;
    assert k == 0 || k == 1 || k == 2;
  }

  /** The lower half completes the quotient. */
  lemma LowerEstimate(a: nat, b: u64, e: nat, x: nat, y: nat)
    requires HALF <= b && y < H && a - b * H * e == x * H + y && x < b
    ensures var l := Estimate(x, TopHalf(b));
      l < H && a / b <= e * H + l <= a / b + 2
  {
    EstimateOfWord(x, y, b);
    CombineQuotient(a, b, e, x * H + y);
  }

  lemma CombineQuotient(a: nat, b: nat, e: nat, r: nat)
    requires b > 0 && a - b * H * e == r
    ensures a / b == e * H + r / b
  {
    var q, s := DivMod(r, b);
    assert b * (e * H + q) == b * (e * H) + b * q;
    assert b * (e * H) == b * H * e;
    assert b * q == q * b;
    QuotientUnique(a, b, e * H + q, s);
  }

  /** The remainder shifted down by 32, and the two half estimates put together. */
  lemma LastStep(a: nat, b: u64, e: nat, rem0: u64, rem1: u64)
    requires HALF <= b && e < H
    requires Remainder(a, b, e, V2(rem0, rem1)) && rem0 < HALF
    ensures var x := Or64(Shl64(rem0, 32), Shr64(rem1, 32));
      var b0 := TopHalf(b);
      && Estimate(x, b0) < H
      && Or(e * H, Estimate(x, b0)) == e * H + Estimate(x, b0)
      && a / b <= e * H + Estimate(x, b0) <= a / b + 2
  {
    SignOfRemainder(a - b * H * e, b, rem0, rem1);
    Halves(rem0);
    Halves(rem1);
    SmallMod(rem0, H);
    OrHalves(rem0, rem1 / H);
    var x := rem0 * H + rem1 / H;
    assert V2(rem0, rem1) == x * H + rem1 % H;
    assert x < b by { if x >= b { MulMono(H, b, x); } }
    EstimateBranches(x, b);
    LowerEstimate(a, b, e, x, rem1 % H);
    OrHalves(e, Estimate(x, TopHalf(b)));
  }

  /** The kernel's two branches compute the estimate. */
  lemma EstimateBranches(x: u64, b: u64)
    requires HALF <= b
    ensures var b0 := TopHalf(b);
      && Shl64(b0, 32) == b0 * H
      && Estimate(x, b0) == (if Shl64(b0, 32) <= x then H - 1 else Div64(x, b0))
  {
    ShiftedEstimate(TopHalf(b));
  }

  lemma ShiftedEstimate(e: u64)
    requires e < H
    ensures Shl64(e, 32) == e * H
  {
    Halves(e);
    SmallMod(e, H);
  }

  lemma OrHalves(hi: nat, lo: nat)
    requires hi < H && lo < H
    ensures hi * H + lo < W && Or(hi * H, lo) == hi * H + lo
  {
    Pow2Words();
    OrJoin(lo, hi, 32);
    ShlValue(hi, 32);
    MulMono(H, hi, H - 1);
  }

  /** One round of the correcting loop: a step down, and the divisor added back. */
  method CorrectOnce(ghost a: nat, b: u64, ghost e: nat, ghost q: nat, z: u64, b0: u64, rem0: u64, rem1: u64)
    returns (z': u64, rem0': u64, rem1': u64)
    requires HALF <= b && b0 == TopHalf(b)
    requires z == e * H && q <= e <= q + 2 && b * H * q <= a < b * H * q + b * H
    requires Remainder(a, b, e, V2(rem0, rem1)) && rem0 >= HALF
    ensures e > q && z' == (e - 1) * H
    ensures Remainder(a, b, e - 1, V2(rem0', rem1'))
  {
    SignOfRemainder(a - b * H * e, b, rem0, rem1);
    UpperSpan(a, b, e, q);
    z' := z - H;
    var b1 := Shl64(b, 32);
    Halves(b);
    assert V2(b0, b1) == b * H;
    rem0', rem1' := Add128(rem0, rem1, b0, b1);
    RemainderAfterAdd(a, b, e, V2(rem0, rem1), V2(rem0', rem1'));
  }

  /** The first half of the kernel: an estimate of the upper quotient half, corrected until
      the remainder is no longer negative.  `rounds` counts the corrections. */
  method UpperHalf(a0: u64, a1: u64, b: u64) returns (z: u64, rem0: u64, rem1: u64, ghost e: nat, ghost rounds: nat)
    requires HALF <= b && a0 < b
    ensures z == e * H && e < H && rounds <= 2
    ensures Remainder(V2(a0, a1), b, e, V2(rem0, rem1)) && rem0 < HALF
  {
    ghost var a, q := V2(a0, a1), UpperQuotient(a0, a1, b);
    EstimateBranches(a0, b);
    UpperEstimate(a0, a1, b);
    var b0 := TopHalf(b);
    e, rounds := Estimate(a0, b0), 0;
    ShiftedEstimate(e);
    z := if Shl64(b0, 32) <= a0 then 0xFFFF_FFFF_0000_0000 else Shl64(Div64(a0, b0), 32);
    var term0, term1 := Mul64To128(b, z);
    rem0, rem1 := Sub128(a0, a1, term0, term1);
    UpperSpan(a, b, e, q);
    RemainderAfterSub(a, b, e, V2(rem0, rem1));
    while rem0 >= HALF
      invariant z == e * H && q <= e && e + rounds <= q + 2 && e < H
      invariant Remainder(a, b, e, V2(rem0, rem1))
      decreases e
    {
      z, rem0, rem1 := CorrectOnce(a, b, e, q, z, b0, rem0, rem1);
      e, rounds := e - 1, rounds + 1;
    }
  }

  /** The second half: the same estimate once more, for the lower quotient half. */
  method LowerHalf(ghost a: nat, b: u64, ghost e: nat, z: u64, rem0: u64, rem1: u64) returns (z': u64)
    requires HALF <= b && z == e * H && e < H
    requires Remainder(a, b, e, V2(rem0, rem1)) && rem0 < HALF
    ensures a / b <= z' <= a / b + 2
  {
    var b0 := TopHalf(b);
    var rem := Or64(Shl64(rem0, 32), Shr64(rem1, 32));
    z' := Or64(z, if Shl64(b0, 32) <= rem then 0xFFFF_FFFF else Div64(rem, b0));
    EstimateBranches(rem, b);
    LastStep(a, b, e, rem0, rem1);
  }

  /** estimateDiv128To64: at least the exact quotient and at most two above it, after at
      most two rounds of the correcting loop. */
  method EstimateDiv128To64(a0: u64, a1: u64, b: u64) returns (z: u64, ghost rounds: nat)
    requires HALF <= b
    ensures b <= a0 ==> z == 0xFFFF_FFFF_FFFF_FFFF
    ensures a0 < b ==> V2(a0, a1) / b <= z <= V2(a0, a1) / b + 2
    ensures rounds <= 2
  {
    if b <= a0 {
      return 0xFFFF_FFFF_FFFF_FFFF, 0;
    }
    var rem0, rem1;
    ghost var e;
    z, rem0, rem1, e, rounds := UpperHalf(a0, a1, b);
    z := LowerHalf(V2(a0, a1), b, e, z, rem0, rem1);
  }
}
