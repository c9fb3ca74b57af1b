/** Address translation (src/arch/riscv/riscvarch.cpp, lines 81-189): the loop over the page
    table levels is the Sv39 walk of sections 4.3.2 and 4.4 of the RISC-V Privileged
    Architecture, version 20211203, with the simulator's own permission rule and without the checks
    for canonical addresses and for the reserved bits 61 to 63 of a leaf; an entry in a device is a
    page fault.  Module Mmu compares it with the manual. */
module PageWalk {
  import opened BitOps

  datatype Access = Fetch | Load | Store

  /** `exception` is the page fault of the access. */
  datatype Result = Fault(exception: nat) | Ok(paddr: nat)

  /** What translation reads of the architecture: three bits of mstatus are named. */
  datatype Env = Env(satp: nat, priv: nat, mprv: bool, mpp: nat, sum: bool, mxr: bool, fetchMmu: bool, dataMmu: bool)

  datatype Option<T> = None | Some(value: T)

  /** A page table entry as its bit fields: `pad` is bits 54 to 60, `ext` pbmt and n. */
  datatype Pte = Pte(v: bool, r: bool, w: bool, x: bool, u: bool, a: bool, d: bool, ppn: nat, pad: nat, ext: nat)

  /** The entry at an address; none for a device. */
  type Memory = nat -> Option<Pte>

  const MODE_U: nat := 0
  const MODE_S: nat := 1
  const PPN: nat := 0x1000_0000_0000

  /** VPNiSHFT. */
  function Shift(level: nat): nat {
    12 + 9 * level
  }

  /** VPNi. */
  function Vpn(vaddr: nat, level: nat): nat {
    And(Shr(vaddr, Shift(level)), Ones(9))
  }

  function PageFault(t: Access): Result {
    match t
    case Fetch => Fault(12)
    case Load => Fault(13)
    case Store => Fault(15)
  }

  /** checkPermission. */
  predicate Permits(env: Env, e: Pte, t: Access) {
    && e.v && !(env.priv == MODE_U && !e.u)
    && !(e.u && env.priv == MODE_S && (!env.sum || t.Fetch?))
    && e.pad == 0 && e.a
    && (match t
        case Fetch => e.x
        case Load => e.r || (env.mxr && e.x)
        case Store => e.w && e.d)
  }

  predicate Translates(env: Env, t: Access) {
    if t.Fetch? then env.fetchMmu else env.dataMmu
  }

  // ---- the walk of the architecture manual ----

  function EntryAddress(table: nat, vaddr: nat, level: nat): nat {
    table * 4096 + vaddr / Pow2(Shift(level)) % 512 * 8
  }

  /** The page number from the entry, its low parts from the address, and the offset. */
  function Frame(ppn: nat, vaddr: nat, level: nat): nat {
    (ppn + vaddr / 4096 % Pow2(9 * level)) * 4096 + vaddr % 4096
  }

  /** Permission, alignment of a superpage, and the frame. */
  function LeafResult(env: Env, e: Pte, vaddr: nat, t: Access, level: nat): Result {
    if !Permits(env, e, t) then PageFault(t)
    else if e.ppn % Pow2(9 * level) != 0 then PageFault(t)
    else Ok(Frame(e.ppn, vaddr, level))
  }

  /** Section 4.3.2, with fields of the addresses as numbers: at `level`, the table is in the
      page with number `table`. */
  function Walk(env: Env, mem: Memory, vaddr: nat, t: Access, table: nat, level: nat): Result
    decreases level
  {
    match mem(EntryAddress(table, vaddr, level))
    case None => PageFault(t)
    case Some(e) =>
      if !e.v || (!e.r && e.w) || e.pad != 0 then PageFault(t)
      else if !e.r && !e.x then
        if e.a || e.d || e.u || e.ext != 0 || level == 0 then PageFault(t)
        else Walk(env, mem, vaddr, t, e.ppn, level - 1)
      else LeafResult(env, e, vaddr, t, level)
  }

  function Translation(env: Env, mem: Memory, vaddr: nat, t: Access): Result {
    if !Translates(env, t) then Ok(vaddr) else Walk(env, mem, vaddr, t, env.satp % PPN, 2)
  }

  // ---- arithmetic of masks ----

  lemma LowBits(x: nat, n: nat)
    ensures And(x, Ones(n)) == x % Pow2(n)
  {
    forall i: nat ensures Bit(And(x, Ones(n)), i) == Bit(x % Pow2(n), i) {
      BitAnd(x, Ones(n), i);
      OnesBits(n, i);
      BitMod(x, n, i);
    }
    BitExtensional(And(x, Ones(n)), x % Pow2(n));
  }

  lemma VpnValue(vaddr: nat, level: nat)
    ensures Vpn(vaddr, level) == vaddr / Pow2(Shift(level)) % 512
  {
    ShrValue(vaddr, Shift(level));
    LowBits(Shr(vaddr, Shift(level)), 9);
    assert Pow2(9) == 512 by { Powers(); }
  }

  lemma Powers()
    ensures Pow2(9) == 512 && Pow2(12) == 4096
  {
    assert Pow2(3) == 8;
    assert Pow2(6) == 64;
    assert Pow2(9) == 512;
  }

  /** Dividing a page number and keeping the offset. */
  lemma PageSplit(ppn: nat, level: nat)
    ensures ppn * 4096 % Pow2(Shift(level)) == ppn % Pow2(9 * level) * 4096
  {
    Powers();
    Pow2Add(12, 9 * level);
    var q, r := DivMod(ppn, Pow2(9 * level));
    assert ppn * 4096 == r * 4096 + q * (4096 * Pow2(9 * level)) by {
      assert ppn == r + q * Pow2(9 * level);
      Scale(r, q, Pow2(9 * level));
    }
    QuotientUnique(ppn * 4096, 4096 * Pow2(9 * level), q, r * 4096);
  }

  lemma Scale(r: nat, q: nat, p: nat)
    ensures (r + q * p) * 4096 == r * 4096 + q * (4096 * p)
  {}

  lemma OffsetSplit(vaddr: nat, level: nat)
    ensures vaddr % Pow2(Shift(level)) == vaddr / 4096 % Pow2(9 * level) * 4096 + vaddr % 4096
  {
    Powers();
    Pow2Add(12, 9 * level);
    var page := vaddr / 4096;
    var q, r := DivMod(page, Pow2(9 * level));
    assert vaddr == (r * 4096 + vaddr % 4096) + q * (4096 * Pow2(9 * level)) by {
      assert vaddr == page * 4096 + vaddr % 4096;
      Scale(r, q, Pow2(9 * level));
    }
    QuotientUnique(vaddr, 4096 * Pow2(9 * level), q, r * 4096 + vaddr % 4096);
  }

  /** An aligned base with the offset in place of its low bits. */
  lemma Splice(base: nat, vaddr: nat, n: nat)
    requires base % Pow2(n) == 0
    ensures Or(AndNot(base, Ones(n)), And(vaddr, Ones(n))) == base + vaddr % Pow2(n)
  {
    var high, low := DivMod(base, Pow2(n));
    LowBits(vaddr, n);
    ShlValue(high, n);
    forall i: nat ensures Bit(AndNot(base, Ones(n)), i) == Bit(Shl(high, n), i) {
      BitAndNot(base, Ones(n), i);
      OnesBits(n, i);
      BitShl(high, n, i);
      BitJoin(0, high, n, i);
      BitZero(i);
    }
    BitExtensional(AndNot(base, Ones(n)), Shl(high, n));
    OrJoin(vaddr % Pow2(n), high, n);
  }

  method ReadEntry(mem: Memory, paddr: nat, vaddr: nat, level: nat, ghost table: nat) returns (e: Option<Pte>)
    requires paddr == table * 4096
    ensures e == mem(EntryAddress(table, vaddr, level))
  {
    VpnValue(vaddr, level);
    e := mem(paddr + Vpn(vaddr, level) * 8);
  }

  /** The loop of translateAddr. */
  method TranslateAddr(env: Env, mem: Memory, vaddr: nat, t: Access) returns (r: Result)
    ensures r == Translation(env, mem, vaddr, t)
  {
    if !Translates(env, t) {
      return Ok(vaddr);
    }
    var paddr := env.satp % PPN * 4096;
    ghost var table: nat := env.satp % PPN;
    var level: nat := 2;
    assert Translation(env, mem, vaddr, t) == Walk(env, mem, vaddr, t, table, level);
    while true
      invariant level <= 2 && paddr == table * 4096
      invariant Translation(env, mem, vaddr, t) == Walk(env, mem, vaddr, t, table, level)
      decreases level
    {
      var e := ReadEntry(mem, paddr, vaddr, level, table);
      if e.None? {
        return PageFault(t);
      }
      var pte := e.value;
      paddr := pte.ppn * 4096;
      if !pte.v || (!pte.r && pte.w) || pte.pad != 0 {
        return PageFault(t);
      }
      if pte.r || pte.x {
        r := Leaf(env, pte, paddr, vaddr, t, level);
        return;
      }
      if pte.a || pte.d || pte.u || pte.ext != 0 || level == 0 {
        return PageFault(t);
      }
      level := level - 1;
      table := pte.ppn;
    }
  }

  /** What follows the loop. */
  method Leaf(env: Env, pte: Pte, paddr: nat, vaddr: nat, t: Access, level: nat) returns (r: Result)
    requires paddr == pte.ppn * 4096
    ensures r == LeafResult(env, pte, vaddr, t, level)
  {
    if !Permits(env, pte, t) {
      return PageFault(t);
    }
    var mask := Ones(Shift(level));
    LowBits(paddr, Shift(level));
    PageSplit(pte.ppn, level);
    if level > 0 {
      if And(paddr, mask) != 0 {
        return PageFault(t);
      }
    }
    Splice(paddr, vaddr, Shift(level));
    OffsetSplit(vaddr, level);
    r := Ok(Or(AndNot(paddr, mask), And(vaddr, mask)));
  }

  // ---- pages are translated as a whole ----

  lemma SameVpn(a: nat, b: nat, level: nat)
    requires a / 4096 == b / 4096
    ensures a / Pow2(Shift(level)) == b / Pow2(Shift(level))
  {
    Powers();
    Pow2Add(12, 9 * level);
    DivDiv(a, 4096, Pow2(9 * level));
    DivDiv(b, 4096, Pow2(9 * level));
  }

  /** The same page: the same verdict, and on success the same frame with the own offset. */
  predicate Alike(a: nat, b: nat, ra: Result, rb: Result) {
    match (ra, rb)
    case (Fault(x), Fault(y)) => x == y
    case (Ok(p), Ok(q)) => p / 4096 == q / 4096 && p % 4096 == a % 4096 && q % 4096 == b % 4096
    case _ => false
  }

  lemma FrameAlike(ppn: nat, a: nat, b: nat, level: nat)
    requires a / 4096 == b / 4096
    ensures Frame(ppn, a, level) / 4096 == Frame(ppn, b, level) / 4096
    ensures Frame(ppn, a, level) % 4096 == a % 4096
  {}

  lemma {:induction false} SamePageWalk(env: Env, mem: Memory, a: nat, b: nat, t: Access, table: nat, level: nat)
    requires a / 4096 == b / 4096
    ensures Alike(a, b, Walk(env, mem, a, t, table, level), Walk(env, mem, b, t, table, level))
    decreases level
  {
    SameVpn(a, b, level);
    var e := mem(EntryAddress(table, a, level));
    if e.Some? && level > 0 {
      SamePageWalk(env, mem, a, b, t, e.value.ppn, level - 1);
    }
    if e.Some? {
      FrameAlike(e.value.ppn, a, b, level);
      FrameAlike(e.value.ppn, b, a, level);
    }
  }

  lemma SamePage(env: Env, mem: Memory, a: nat, b: nat, t: Access)
    requires a / 4096 == b / 4096
    ensures Alike(a, b, Translation(env, mem, a, t), Translation(env, mem, b, t))
  {
    SamePageWalk(env, mem, a, b, t, env.satp % PPN, 2);
  }

  // ---- the permission rule ----

  /** The mode an access is made in: section 3.1.6.3. */
  function Mode(env: Env, t: Access): nat {
    if env.mprv && !t.Fetch? then env.mpp else env.priv
  }

  /** The rule of section 4.3.1 in that mode. */
  predicate IsaPermits(env: Env, e: Pte, t: Access) {
    Permits(env.(priv := Mode(env, t)), e, t)
  }

  /** An entry that allows everything, to user or supervisor. */
  function Full(u: bool): Pte {
    Pte(true, true, true, true, u, true, true, 0, 0, 0)
  }

  /** checkPermission looks at the current privilege, not at the mode of the access.  For a data
      access the two rules agree on every entry exactly when the difference cannot matter. */
  lemma PermissionRule(env: Env, t: Access)
    requires !t.Fetch?
    ensures (forall e: Pte :: Permits(env, e, t) <==> IsaPermits(env, e, t)) <==>
      (env.priv == MODE_U <==> Mode(env, t) == MODE_U) && (env.sum || (env.priv == MODE_S <==> Mode(env, t) == MODE_S))
  {
    if forall e: Pte :: Permits(env, e, t) <==> IsaPermits(env, e, t) {
      assert Permits(env, Full(false), t) <==> IsaPermits(env, Full(false), t);
      assert Permits(env, Full(true), t) <==> IsaPermits(env, Full(true), t);
    }
  }

  // ---- which address comes out ----

  /** The leaf a walk comes to, with its level. */
  function EndOf(mem: Memory, vaddr: nat, table: nat, level: nat): Option<(Pte, nat)>
    decreases level
  {
    match mem(EntryAddress(table, vaddr, level))
    case None => None
    case Some(e) =>
      if e.r || e.x then Some((e, level))
      else if level == 0 then None
      else EndOf(mem, vaddr, e.ppn, level - 1)
  }

  /** Below the size of the page the address is the virtual one, above it the leaf's. */
  predicate IsInPage(paddr: nat, ppn: nat, vaddr: nat, level: nat) {
    paddr % Pow2(Shift(level)) == vaddr % Pow2(Shift(level)) && paddr / Pow2(Shift(level)) == ppn / Pow2(9 * level)
  }

  lemma FrameInPage(ppn: nat, vaddr: nat, level: nat)
    requires ppn % Pow2(9 * level) == 0
    ensures IsInPage(Frame(ppn, vaddr, level), ppn, vaddr, level)
  {
    var p := Pow2(9 * level);
    Powers();
    Pow2Add(12, 9 * level);
    OffsetSplit(vaddr, level);
    var q, r := DivMod(ppn, p);
    OffsetBelow(vaddr, Pow2(Shift(level)));
    FrameSplit(vaddr / 4096 % p, vaddr % 4096, q, p);
    BitOps.QuotientUnique(Frame(ppn, vaddr, level), 4096 * p, q, vaddr % Pow2(Shift(level)));
  }

  lemma OffsetBelow(x: nat, p: nat)
    requires 0 < p
    ensures x % p < p
  {}

  lemma FrameSplit(low: nat, off: nat, q: nat, p: nat)
    ensures (q * p + low) * 4096 + off == 4096 * p * q + (low * 4096 + off)
  {
    assert q * p * 4096 == 4096 * p * q;
  }

  lemma {:induction false} WalkInPage(env: Env, mem: Memory, vaddr: nat, t: Access, table: nat, level: nat)
    ensures var r, end := Walk(env, mem, vaddr, t, table, level), EndOf(mem, vaddr, table, level);
      r.Ok? ==> end.Some? && end.value.1 <= level && Permits(env, end.value.0, t) && IsInPage(r.paddr, end.value.0.ppn, vaddr, end.value.1)
    decreases level
  {
    var e := mem(EntryAddress(table, vaddr, level));
    if e.Some? {
      if e.value.ppn % Pow2(9 * level) == 0 {
        FrameInPage(e.value.ppn, vaddr, level);
      }
      if level > 0 {
        WalkInPage(env, mem, vaddr, t, e.value.ppn, level - 1);
      }
    }
  }

  /** A translated address: the page of the leaf, of 4 KiB, 2 MiB or 1 GiB by its level, and in it the place
      of the virtual address. */
  lemma TranslatedInPage(env: Env, mem: Memory, vaddr: nat, t: Access)
    ensures var r, end := Translation(env, mem, vaddr, t), EndOf(mem, vaddr, env.satp % PPN, 2);
      r.Ok? && Translates(env, t) ==>
        && end.Some? && end.value.1 <= 2
        && r.paddr % Pow2(12 + 9 * end.value.1) == vaddr % Pow2(12 + 9 * end.value.1)
        && r.paddr / Pow2(12 + 9 * end.value.1) == end.value.0.ppn / Pow2(9 * end.value.1)
  {
    WalkInPage(env, mem, vaddr, t, env.satp % PPN, 2);
  }
}
