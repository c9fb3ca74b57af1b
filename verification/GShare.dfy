/** The gshare predictor over the global history (src/pred/bp/gshare.cpp,
    src/pred/history/ghr.cpp, inc/common/common.h lines 164-177). */
module GShare {
  import opened BitOps
  import opened BranchHistory

  // ---- the history as an object ----

  class GHR {
    var ghr: seq<bool>
    var ghrIdx: nat

    function View(): Ghr
      reads this
    {
      Ghr(ghr, ghrIdx)
    }

    constructor (size: nat)
      ensures View() == Run(size, []).0
    {
      ghr, ghrIdx := Fill(false, size), 0;
    }

    method Update(speculative: bool, taken: bool, cond: bool, checkpoint: nat)
      requires ghrIdx < TWO32 && checkpoint < TWO32
      modifies this
      ensures View() == BranchHistory.Update(old(View()), speculative, taken, cond, checkpoint)
    {
      if !speculative {
        var shift := Distance(View(), checkpoint);
        ghrIdx := checkpoint;
        ghr := ShiftOut(ghr, shift);
        if !cond { return; }
      }
      if cond {
        ghr := ShiftIn(ghr, taken);
        ghrIdx := (ghrIdx + 1) % TWO32;
      }
    }

    method GetMeta() returns (idx: nat)
      ensures idx == ghrIdx
    {
      idx := ghrIdx;
    }

    method GetLatestBlock() returns (r: Option<nat>)
      ensures r == LatestBlock(View())
    {
      r := LatestBlock(View());
    }
  }

  /** What a correct prediction would have left, as far as the register still holds it. */
  function Recovered(l: Logical, n: nat, wrong: nat, cond: bool, taken: bool): Logical {
    var kept := if Min(n, l.valid + wrong) >= wrong then Min(n, l.valid + wrong) - wrong else 0;
    if cond then Logical(l.outcomes + [taken], Min(n, kept + 1)) else Logical(l.outcomes, kept)
  }

  /** Branches predicted one after the other. */
  method Speculate(ghr: GHR, ghost l: Logical, taken: seq<bool>)
    requires Holds(ghr.View(), l)
    modifies ghr
    ensures |ghr.ghr| == old(|ghr.ghr|)
    ensures Holds(ghr.View(), Logical(l.outcomes + taken, Min(|ghr.ghr|, l.valid + |taken|)))
  {
    ghost var n, now := |ghr.ghr|, l;
    for i := 0 to |taken|
      invariant Holds(ghr.View(), now) && |ghr.ghr| == n
      invariant now == Logical(l.outcomes + taken[..i], Min(n, l.valid + i))
    {
      PushHolds(ghr.View(), now, taken[i]);
      ghr.Update(true, taken[i], true, 0);
      now := LogicalPush(now, n, taken[i]);
      assert taken[..i + 1] == taken[..i] + [taken[i]];
    }
    assert taken[..|taken|] == taken;
  }

  /** A branch takes its checkpoint, younger ones are predicted behind it, and its redirect goes back
      to the checkpoint: the wrong outcomes are gone, those before are back in their places. */
  method Recover(ghr: GHR, ghost l: Logical, wrong: seq<bool>, cond: bool, taken: bool)
    requires Holds(ghr.View(), l) && |wrong| < TWO31
    modifies ghr
    ensures Holds(ghr.View(), Recovered(l, |ghr.ghr|, |wrong|, cond, taken)) && |ghr.ghr| == old(|ghr.ghr|)
  {
    var checkpoint := ghr.GetMeta();
    Speculate(ghr, l, wrong);
    ghost var now := Logical(l.outcomes + wrong, Min(|ghr.ghr|, l.valid + |wrong|));
    RollbackHolds(ghr.View(), now, |wrong|);
    now := LogicalRollback(now, |wrong|);
    assert now.outcomes == l.outcomes;
    if cond {
      PushHolds(Rollback(ghr.View(), checkpoint), now, taken);
    }
    ghr.Update(false, taken, cond, checkpoint);
  }

  // ---- the index ----

  /** The table has 2^tableBits counters. */
  datatype Config = Config(tableBits: nat, bitSize: nat, offset: nat, histBits: nat)

  function History(k: Config, block: nat): nat {
    And(block, Ones(k.histBits))
  }

  function Index(k: Config, pc: nat, history: nat): nat {
    And(Xor(Shr(And(pc, Ones(k.tableBits)), k.offset), history), Ones(k.tableBits))
  }

  lemma IndexInTable(k: Config, pc: nat, history: nat)
    ensures Index(k, pc, history) < Pow2(k.tableBits)
  {
    var x := Xor(Shr(And(pc, Ones(k.tableBits)), k.offset), history);
    forall i: nat | i >= k.tableBits ensures !Bit(And(x, Ones(k.tableBits)), i) {
      BitAnd(x, Ones(k.tableBits), i);
      OnesBits(k.tableBits, i);
    }
    BelowFromBits(And(x, Ones(k.tableBits)), k.tableBits);
  }

  lemma IndexBit(k: Config, pc: nat, history: nat, i: nat)
    ensures Bit(Index(k, pc, history), i) <==>
      i < k.tableBits && ((Bit(pc, k.offset + i) && k.offset + i < k.tableBits) != Bit(history, i))
  {
    var low := And(pc, Ones(k.tableBits));
    BitAnd(Xor(Shr(low, k.offset), history), Ones(k.tableBits), i);
    OnesBits(k.tableBits, i);
    BitXor(Shr(low, k.offset), history, i);
    BitShr(low, k.offset, i);
    BitAnd(pc, Ones(k.tableBits), k.offset + i);
    OnesBits(k.tableBits, k.offset + i);
  }

  /** Two lookups agree at position i: they differ in the pc there exactly if they differ in the history.
      Bit i of the history goes with bit offset+i of the pc, which counts below tableBits. */
  predicate AgreeAt(k: Config, pc: nat, history: nat, other: nat, history': nat, i: nat) {
    (k.offset + i < k.tableBits && Bit(pc, k.offset + i) != Bit(other, k.offset + i)) <==> Bit(history, i) != Bit(history', i)
  }

  /** They select the same counter exactly if they agree at every position of the index. */
  lemma SameCounterIff(k: Config, pc: nat, history: nat, other: nat, history': nat)
    ensures Index(k, pc, history) == Index(k, other, history') <==>
      forall i :: 0 <= i < k.tableBits ==> AgreeAt(k, pc, history, other, history', i)
  {
    var a, b := Index(k, pc, history), Index(k, other, history');
    forall i: nat ensures Bit(a, i) == Bit(b, i) <==> (i < k.tableBits ==> AgreeAt(k, pc, history, other, history', i)) {
      IndexBit(k, pc, history, i);
      IndexBit(k, other, history', i);
    }
    if forall i :: 0 <= i < k.tableBits ==> AgreeAt(k, pc, history, other, history', i) {
      BitExtensional(a, b);
    } else {
      var i :| 0 <= i < k.tableBits && !AgreeAt(k, pc, history, other, history', i);
      assert Bit(a, i) != Bit(b, i);
    }
  }

  lemma HistoryBit(k: Config, bits: seq<bool>, i: nat)
    ensures Bit(History(k, ToNat(bits)), i) == (i < k.histBits && i < |bits| && bits[i])
  {
    BitAnd(ToNat(bits), Ones(k.histBits), i);
    OnesBits(k.histBits, i);
    ToNatBit(bits, i);
  }

  /** The history the predictor sees is that of a machine that was only told the outcomes that
      stand, exactly when those lost in between were `not taken`.  Reading the register throws only
      where the other machine's would, and never with at most 64 bits. */
  lemma HistoryMatchesIdeal(k: Config, n: nat, steps: seq<Step>)
    requires k.histBits <= n
    ensures var (g, l) := Run(n, steps);
      var block, ideal := LatestBlock(g), LatestBlock(Ideal(n, l.outcomes));
      && (n <= 64 ==> ideal.Some?) && (ideal.Some? ==> block.Some?)
      && (ideal.Some? ==>
            (History(k, block.value) == History(k, ideal.value) <==>
              forall i :: l.valid <= i < k.histBits ==> !Newest(l.outcomes, i)))
  {
    var (g, l) := Run(n, steps);
    var ideal := Ideal(n, l.outcomes);
    LowBitsMatchIdeal(n, steps, k.histBits);
    HistoryIsLowBits(k, g.bits, ideal.bits);
    IdealHolds(n, l.outcomes);
    assert forall i :: 0 <= i < n && g.bits[i] ==> ideal.bits[i];
  }

  lemma HistoryIsLowBits(k: Config, a: seq<bool>, b: seq<bool>)
    requires |a| == |b| && k.histBits <= |a|
    ensures History(k, ToNat(a)) == History(k, ToNat(b)) <==> a[..k.histBits] == b[..k.histBits]
  {
    if History(k, ToNat(a)) == History(k, ToNat(b)) {
      forall i | 0 <= i < k.histBits ensures a[i] == b[i] {
        HistoryBit(k, a, i);
        HistoryBit(k, b, i);
      }
    }
    if a[..k.histBits] == b[..k.histBits] {
      forall i: nat ensures Bit(History(k, ToNat(a)), i) == Bit(History(k, ToNat(b)), i) {
        HistoryBit(k, a, i);
        HistoryBit(k, b, i);
        if i < k.histBits { assert a[..k.histBits][i] == b[..k.histBits][i]; }
      }
      BitExtensional(History(k, ToNat(a)), History(k, ToNat(b)));
    }
  }

  // ---- the counters ----

  function Lowest(k: Config): int {
    0 - Pow2(k.bitSize)
  }

  function Highest(k: Config): int {
    Pow2(k.bitSize) - 1
  }

  /** updateCounter; its masks select the bound when it is passed. */
  function UpdateCounter(old_: int, taken: bool, low: int, high: int): int {
    var n := if taken then old_ + 1 else old_ - 1;
    var m := if n < low then low else n;
    if m > high then high else m
  }

  function Train(c: int, taken: bool, low: int, high: int, times: nat): int {
    if times == 0 then c else UpdateCounter(Train(c, taken, low, high, times - 1), taken, low, high)
  }

  lemma {:induction false} TrainSaturates(c: int, taken: bool, low: int, high: int, times: nat)
    requires low <= c <= high
    ensures Train(c, taken, low, high, times) ==
      if taken then (if c + times <= high then c + times else high) else (if c - times >= low then c - times else low)
  {
    if times > 0 { TrainSaturates(c, taken, low, high, times - 1); }
  }

  /** From any state, 2^bitSize equal outcomes make the counter predict that outcome; fewer do not
      always. */
  lemma CounterLearns(k: Config, taken: bool, times: nat)
    ensures (forall c :: Lowest(k) <= c <= Highest(k) ==> (Train(c, taken, Lowest(k), Highest(k), times) >= 0) == taken) <==>
      times >= Pow2(k.bitSize)
  {
    forall c | Lowest(k) <= c <= Highest(k)
      ensures Train(c, taken, Lowest(k), Highest(k), times) ==
        if taken then (if c + times <= Highest(k) then c + times else Highest(k))
        else (if c - times >= Lowest(k) then c - times else Lowest(k))
    {
      TrainSaturates(c, taken, Lowest(k), Highest(k), times);
    }
    var worst := if taken then Lowest(k) else Highest(k);
    assert Lowest(k) <= worst <= Highest(k);
    if times < Pow2(k.bitSize) {
      assert (Train(worst, taken, Lowest(k), Highest(k), times) >= 0) != taken;
    }
  }

  // ---- the predictor as an object ----

  datatype Meta = Meta(idx: nat, ghr: nat)

  class GShareBP {
    const k: Config
    const table: array<int>
    const ghr: GHR

    ghost predicate Valid()
      reads this, table
    {
      table.Length == Pow2(k.tableBits) && forall i :: 0 <= i < table.Length ==> Lowest(k) <= table[i] <= Highest(k)
    }

    constructor (k: Config, ghr: GHR)
      ensures Valid() && fresh(table) && this.k == k && this.ghr == ghr
      ensures forall i :: 0 <= i < table.Length ==> table[i] == 0
    {
      this.k, this.ghr := k, ghr;
      table := new int[Pow2(k.tableBits)](_ => 0);
    }

    /** `r` is none when reading the history throws. */
    method Predict(pc: nat) returns (r: Option<(bool, Meta)>)
      requires Valid()
      ensures r.None? <==> LatestBlock(ghr.View()).None?
      ensures r.Some? ==>
        var (taken, m) := r.value;
        && m.ghr == History(k, ToNat(ghr.ghr)) && m.idx == Index(k, pc, m.ghr) && m.idx < table.Length
        && taken == (table[m.idx] >= 0)
    {
      var block := ghr.GetLatestBlock();
      if block.None? {
        return None;
      }
      var h := History(k, block.value);
      var idx := Index(k, pc, h);
      IndexInTable(k, pc, h);
      r := Some((table[idx] >= 0, Meta(idx, h)));
    }

    /** One counter is trained; with what Predict returned for this pc, the one it read. */
    method Update(taken: bool, pc: nat, meta: Meta)
      requires Valid()
      modifies table
      ensures Valid() && Index(k, pc, meta.ghr) < table.Length
      ensures var idx := Index(k, pc, meta.ghr);
        table[..] == old(table[..])[idx := UpdateCounter(old(table[Index(k, pc, meta.ghr)]), taken, Lowest(k), Highest(k))]
    {
      var idx := Index(k, pc, meta.ghr);
      IndexInTable(k, pc, meta.ghr);
      table[idx] := UpdateCounter(table[idx], taken, Lowest(k), Highest(k));
    }
  }
}
