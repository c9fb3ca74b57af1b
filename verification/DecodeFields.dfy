/** Compound instruction fields: the deposit chain MultiField.str_extract builds
    (scripts/decodetree.py, lines 276-325) and what it computes. */
module DecodeFields {
  import opened BitOps

  datatype Field = Field(sign: bool, pos: nat, len: nat)

  /** The emitted C expression. */
  datatype Expr =
    | Extract(sign: bool, pos: nat, len: nat)
    | Deposit(base: Expr, start: nat, width: nat, val: Expr)

  // ---- QEMU's field helpers on words of `w` bits ----

  /** extract: (value >> start) & (~0 >> (w - length)). */
  function ExtractBits(x: nat, pos: nat, len: nat): nat {
    And(Shr(x, pos), Ones(len))
  }

  /** sextract: the same, with the field's top bit copied into all higher bits. */
  function SExtractBits(w: nat, x: nat, pos: nat, len: nat): nat
    requires 0 < len <= w
  {
    var v := ExtractBits(x, pos, len);
    if Bit(x, pos + len - 1) then Or(Shl(Ones(w - len), len), v) else v
  }

  /** deposit: (value & ~mask) | ((field << start) & mask). */
  function DepositBits(x: nat, start: nat, len: nat, f: nat): nat {
    var mask := Shl(Ones(len), start);
    Or(AndNot(x, mask), And(Shl(f, start), mask))
  }

  predicate ValidExpr(w: nat, e: Expr) {
    match e
    case Extract(_, pos, len) => 0 < len && pos + len <= w
    case Deposit(b, start, width, v) => start + width <= w && ValidExpr(w, b) && ValidExpr(w, v)
  }

  function Eval(w: nat, e: Expr, insn: nat): nat
    requires ValidExpr(w, e)
  {
    match e
    case Extract(sign, pos, len) => if sign then SExtractBits(w, insn, pos, len) else ExtractBits(insn, pos, len)
    case Deposit(b, start, width, v) => DepositBits(Eval(w, b, insn), start, width, Eval(w, v, insn))
  }

  lemma ExtractBit(x: nat, pos: nat, len: nat, i: nat)
    ensures Bit(ExtractBits(x, pos, len), i) == (i < len && Bit(x, pos + i))
  {
    BitAnd(Shr(x, pos), Ones(len), i);
    BitShr(x, pos, i);
    OnesBits(len, i);
  }

  lemma SExtractBit(w: nat, x: nat, pos: nat, len: nat, i: nat)
    requires 0 < len <= w
    ensures Bit(SExtractBits(w, x, pos, len), i) == (i < w && Bit(x, pos + (if i < len then i else len - 1)))
  {
    ExtractBit(x, pos, len, i);
    var ones := Ones(w - len);
    BitOr(Shl(ones, len), ExtractBits(x, pos, len), i);
    BitShl(ones, len, i);
    if i >= len { OnesBits(w - len, i - len); }
  }

  lemma DepositBit(x: nat, start: nat, len: nat, f: nat, i: nat)
    ensures Bit(DepositBits(x, start, len, f), i)
      == (if start <= i < start + len then Bit(f, i - start) else Bit(x, i))
  {
    var mask := Shl(Ones(len), start);
    BitOr(AndNot(x, mask), And(Shl(f, start), mask), i);
    BitAndNot(x, mask, i);
    BitAnd(Shl(f, start), mask, i);
    BitShl(Ones(len), start, i);
    BitShl(f, start, i);
    if i >= start { OnesBits(len, i - start); }
  }

  // ---- the generator ----

  function Width(subs: seq<Field>): nat {
    if |subs| == 0 then 0 else subs[0].len + Width(subs[1..])
  }

  /** What parse_field guarantees: fields of the word, of positive width, not too wide
      together. */
  predicate ValidFields(w: nat, subs: seq<Field>) {
    && |subs| > 0
    && Width(subs) <= w
    && forall k :: 0 <= k < |subs| ==> 0 < subs[k].len && subs[k].pos + subs[k].len <= w
  }

  lemma TailValid(w: nat, subs: seq<Field>)
    requires ValidFields(w, subs) && |subs| > 1
    ensures ValidFields(w, subs[1..]) && Width(subs) == subs[0].len + Width(subs[1..])
  {}

  /** The chain of deposits for a compound field, its last sub-field being the lowest. */
  function Chain(w: nat, subs: seq<Field>): (e: Expr)
    requires ValidFields(w, subs)
    ensures ValidExpr(w, e)
  {
    var ext := Extract(subs[0].sign, subs[0].pos, subs[0].len);
    if |subs| == 1 then ext
    else
      TailValid(w, subs);
      var low := Width(subs[1..]);
      Deposit(Chain(w, subs[1..]), low, w - low, ext)
  }

  lemma {:induction false} SuffixValid(w: nat, subs: seq<Field>, k: nat)
    requires ValidFields(w, subs) && k < |subs|
    ensures ValidFields(w, subs[k..])
  {
    if k > 0 {
      TailValid(w, subs);
      SuffixValid(w, subs[1..], k - 1);
      assert subs[1..][k - 1..] == subs[k..];
    }
  }

  /** MultiField.str_extract: the loop over the sub-fields from the last to the first. */
  method StrExtract(w: nat, subs: seq<Field>) returns (ret: Expr)
    requires ValidFields(w, subs)
    ensures ret == Chain(w, subs)
  {
    ret := Extract(false, 0, 0);
    var pos, k := 0, |subs|;
    assert subs[|subs|..] == [];
    while k > 0
      invariant 0 <= k <= |subs|
      invariant pos == Width(subs[k..])
      invariant k < |subs| ==> pos > 0 && ValidFields(w, subs[k..]) && ret == Chain(w, subs[k..])
    {
      k := k - 1;
      SuffixValid(w, subs, k);
      assert subs[k..][1..] == subs[k + 1..];
      var f := subs[k];
      var ext := Extract(f.sign, f.pos, f.len);
      if pos == 0 {
        ret := ext;
      } else {
        ret := Deposit(ret, pos, w - pos, ext);
      }
      pos := pos + f.len;
    }
    assert subs[0..] == subs;
  }

  // ---- what the chain computes ----

  /** The sub-fields' bits put side by side, the first one on top. */
  function Concat(subs: seq<Field>, insn: nat): nat {
    if |subs| == 0 then 0
    else Concat(subs[1..], insn) + ExtractBits(insn, subs[0].pos, subs[0].len) * Pow2(Width(subs[1..]))
  }

  /** Two's complement extension of a `width`-bit value to `w` bits. */
  function SignExtend(w: nat, width: nat, x: nat): nat
    requires 0 < width <= w && x < Pow2(width)
  {
    Pow2Mono(width, w);
    if x < Pow2(width - 1) then x else x + (Pow2(w) - Pow2(width))
  }

  lemma {:induction false} ConcatBound(subs: seq<Field>, insn: nat)
    ensures Concat(subs, insn) < Pow2(Width(subs))
  {
    if |subs| > 0 {
      var rest, s := subs[1..], subs[0];
      ConcatBound(rest, insn);
      forall i: nat | i >= s.len ensures !Bit(ExtractBits(insn, s.pos, s.len), i) {
        ExtractBit(insn, s.pos, s.len, i);
      }
      BelowFromBits(ExtractBits(insn, s.pos, s.len), s.len);
      JoinBound(Concat(rest, insn), ExtractBits(insn, s.pos, s.len), Width(rest), s.len);
    }
  }

  lemma JoinBound(low: nat, high: nat, p: nat, q: nat)
    requires low < Pow2(p) && high < Pow2(q)
    ensures low + high * Pow2(p) < Pow2(q + p)
  {
    Pow2Add(q, p);
    MulMono(Pow2(p), high, Pow2(q) - 1);
    assert Pow2(p) * (Pow2(q) - 1) == Pow2(p) * Pow2(q) - Pow2(p);
    assert high * Pow2(p) == Pow2(p) * high;
    assert Pow2(p) * Pow2(q) == Pow2(q) * Pow2(p);
  }

  lemma ConcatBit(subs: seq<Field>, insn: nat, i: nat)
    requires |subs| > 0
    ensures var low := Width(subs[1..]);
      Bit(Concat(subs, insn), i) ==
        (if i < low then Bit(Concat(subs[1..], insn), i)
         else i < low + subs[0].len && Bit(insn, subs[0].pos + (i - low)))
  {
    ConcatBound(subs[1..], insn);
    var low := Width(subs[1..]);
    BitJoin(Concat(subs[1..], insn), ExtractBits(insn, subs[0].pos, subs[0].len), low, i);
    if i >= low { ExtractBit(insn, subs[0].pos, subs[0].len, i - low); }
  }

  lemma SignExtendBit(w: nat, width: nat, x: nat, i: nat)
    requires 0 < width <= w && x < Pow2(width)
    ensures Bit(SignExtend(w, width, x), i) == (i < w && Bit(x, if i < width then i else width - 1))
  {
    TopBit(x, width);
    if x < Pow2(width - 1) {
      if i >= width { HighBitsClear(x, width, i); }
    } else {
      Pow2Add(w - width, width);
      var ones := Ones(w - width);
      OnesValue(w - width);
      assert ones * Pow2(width) == Pow2(w - width) * Pow2(width) - Pow2(width);
      BitJoin(x, ones, width, i);
      if i >= width { OnesBits(w - width, i - width); }
    }
  }

  lemma {:induction false} TopBit(x: nat, width: nat)
    requires 0 < width && x < Pow2(width)
    ensures Bit(x, width - 1) <==> x >= Pow2(width - 1)
  {
    if width > 1 { TopBit(x / 2, width - 1); }
  }

  function ChainMeaning(w: nat, subs: seq<Field>, insn: nat): nat
    requires ValidFields(w, subs)
  {
    ConcatBound(subs, insn);
    if subs[0].sign then SignExtend(w, Width(subs), Concat(subs, insn)) else Concat(subs, insn)
  }

  lemma MeaningBit(w: nat, subs: seq<Field>, insn: nat, i: nat)
    requires ValidFields(w, subs)
    ensures var s, low := subs[0], Width(subs[1..]);
      Bit(ChainMeaning(w, subs, insn), i) ==
        (if i < low then Bit(Concat(subs[1..], insn), i)
         else if i < low + s.len then Bit(insn, s.pos + (i - low))
         else i < w && s.sign && Bit(insn, s.pos + s.len - 1))
  {
    ConcatBound(subs, insn);
    var width := Width(subs);
    SignExtendBit(w, width, Concat(subs, insn), i);
    ConcatBit(subs, insn, i);
    ConcatBit(subs, insn, width - 1);
  }

  /** The value of the chain: the concatenation, sign-extended by the leading sub-field
      only.  A lower sub-field's own sign bits are always overwritten. */
  lemma {:induction false} ChainValue(w: nat, subs: seq<Field>, insn: nat)
    requires ValidFields(w, subs)
    ensures Eval(w, Chain(w, subs), insn) == ChainMeaning(w, subs, insn)
  {
    var got, s := Eval(w, Chain(w, subs), insn), subs[0];
    if |subs| == 1 {
      assert subs[1..] == [];
      forall i: nat ensures Bit(got, i) == Bit(ChainMeaning(w, subs, insn), i) {
        MeaningBit(w, subs, insn, i);
        ExtractBit(insn, s.pos, s.len, i);
        SExtractBit(w, insn, s.pos, s.len, i);
      }
    } else {
      TailValid(w, subs);
      ChainValue(w, subs[1..], insn);
      forall i: nat ensures Bit(got, i) == Bit(ChainMeaning(w, subs, insn), i) {
        MeaningBit(w, subs, insn, i);
        ChainBit(w, subs, insn, i);
      }
    }
    BitExtensional(got, ChainMeaning(w, subs, insn));
  }

  lemma ChainBit(w: nat, subs: seq<Field>, insn: nat, i: nat)
    requires ValidFields(w, subs) && |subs| > 1 && ValidFields(w, subs[1..])
    requires Eval(w, Chain(w, subs[1..]), insn) == ChainMeaning(w, subs[1..], insn)
    ensures var s, low := subs[0], Width(subs[1..]);
      Bit(Eval(w, Chain(w, subs), insn), i) ==
        (if i < low then Bit(Concat(subs[1..], insn), i)
         else if i < low + s.len then Bit(insn, s.pos + (i - low))
         else i < w && s.sign && Bit(insn, s.pos + s.len - 1))
  {
    var s, rest := subs[0], subs[1..];
    var low := Width(rest);
    ConcatBound(rest, insn);
    DepositBit(ChainMeaning(w, rest, insn), low, w - low, Eval(w, Extract(s.sign, s.pos, s.len), insn), i);
    SignExtendBit(w, low, Concat(rest, insn), i);
    if i >= w {
      HighBitsClear(Concat(rest, insn), low, i);
    } else if i >= low {
      ExtractBit(insn, s.pos, s.len, i - low);
      SExtractBit(w, insn, s.pos, s.len, i - low);
    }
  }

  // ---- scattering a value back into the sub-fields ----

  /** Puts the pieces of `x` into the sub-fields' places, the first one taking the top. */
  function Scatter(subs: seq<Field>, x: nat, insn: nat): nat {
    if |subs| == 0 then insn
    else
      var low := Width(subs[1..]);
      Scatter(subs[1..], x % Pow2(low), DepositBits(insn, subs[0].pos, subs[0].len, Shr(x, low)))
  }

  predicate Disjoint(subs: seq<Field>) {
    forall j, k :: 0 <= j < k < |subs| ==> Apart(subs[j], subs[k])
  }

  predicate Apart(a: Field, b: Field) {
    a.pos + a.len <= b.pos || b.pos + b.len <= a.pos
  }

  lemma {:induction false} ScatterElsewhere(subs: seq<Field>, x: nat, insn: nat, i: nat)
    requires forall k :: 0 <= k < |subs| ==> !(subs[k].pos <= i < subs[k].pos + subs[k].len)
    ensures Bit(Scatter(subs, x, insn), i) == Bit(insn, i)
  {
    if |subs| > 0 {
      var low := Width(subs[1..]);
      DepositBit(insn, subs[0].pos, subs[0].len, Shr(x, low), i);
      ScatterElsewhere(subs[1..], x % Pow2(low), DepositBits(insn, subs[0].pos, subs[0].len, Shr(x, low)), i);
    }
  }

  /** Round trip: scattering into disjoint sub-fields and concatenating gives the value
      back, whatever the other bits of the word were. */
  lemma {:induction false} ScatterThenConcat(subs: seq<Field>, x: nat, insn: nat)
    requires Disjoint(subs) && x < Pow2(Width(subs))
    ensures Concat(subs, Scatter(subs, x, insn)) == x
  {
    if |subs| > 0 {
      var s, rest := subs[0], subs[1..];
      var low := Width(rest);
      var mid := DepositBits(insn, s.pos, s.len, Shr(x, low));
      var out := Scatter(subs, x, insn);
      assert Disjoint(rest) by {
        forall j, k | 0 <= j < k < |rest| ensures Apart(rest[j], rest[k]) {
          assert Apart(subs[j + 1], subs[k + 1]);
        }
      }
      ScatterThenConcat(rest, x % Pow2(low), mid);
      forall i: nat ensures Bit(Concat(subs, out), i) == Bit(x, i) {
        ConcatBit(subs, out, i);
        if i < low {
          BitMod(x, low, i);
        } else if i < low + s.len {
          forall k | 0 <= k < |rest| ensures !(rest[k].pos <= s.pos + (i - low) < rest[k].pos + rest[k].len) {
            assert Apart(subs[0], subs[k + 1]);
          }
          ScatterElsewhere(rest, x % Pow2(low), mid, s.pos + (i - low));
          DepositBit(insn, s.pos, s.len, Shr(x, low), s.pos + (i - low));
          BitShr(x, low, i - low);
        } else {
          HighBitsClear(x, Width(subs), i);
        }
      }
      BitExtensional(Concat(subs, out), x);
    }
  }

  /** A value the compound field can represent comes back from the emitted expression. */
  lemma FieldRoundTrip(w: nat, subs: seq<Field>, x: nat, insn: nat)
    requires ValidFields(w, subs) && Disjoint(subs) && x < Pow2(Width(subs))
    ensures Eval(w, Chain(w, subs), Scatter(subs, x, insn)) ==
      if subs[0].sign then SignExtend(w, Width(subs), x) else x
  {
    ScatterThenConcat(subs, x, insn);
    ChainValue(w, subs, Scatter(subs, x, insn));
  }
}
