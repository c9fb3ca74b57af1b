/** Translation as the running machine does it: with the flags updateEnv leaves behind
    (src/arch/riscv/riscvarch.cpp, lines 81-189 and 379-383). */
module Mmu {
  import BitOps
  import opened PageWalk
  import P = Privileged

  const MODE_M: nat := 3
  const SUM: P.Word := 0x40000
  const MXR: P.Word := 0x80000

  /** 2 stands for all reserved values. */
  function ModeOf(w: P.Word): (n: nat)
    ensures n == MODE_U <==> w == P.MODE_U
    ensures n == MODE_S <==> w == P.MODE_S
    ensures n == MODE_M <==> w == P.MODE_M
  {
    if w == P.MODE_U then MODE_U else if w == P.MODE_S then MODE_S else if w == P.MODE_M then MODE_M else 2
  }

  /** What translateAddr reads of the machine: its cached flags, not the registers behind them. */
  function EnvOf(m: P.Machine): Env {
    var s := m.st.mstatus;
    Env(m.st.satp, ModeOf(m.st.priv), s & P.MPRV != 0, ModeOf((s & P.MPP) >> 11), s & SUM != 0, s & MXR != 0,
        m.ifetchMmu, m.dataMmu)
  }

  /** Sections 4.1.11 and 3.1.6.3: satp selects Sv39, and M-mode is not translated. */
  predicate Sv39(env: Env, t: Access) {
    env.satp / P.TWO60 == 8 && Mode(env, t) != MODE_M
  }

  lemma FlagsAreSv39(m: P.Machine, t: Access)
    requires P.FlagsAgree(m)
    ensures Translates(EnvOf(m), t) <==> Sv39(EnvOf(m), t)
  {}

  /** After any instructions and traps, every address is walked or passed on as satp, the privilege
      level, MPRV and MPP ask for at that moment, whatever they were when the flags were set. */
  lemma CachedFlagsTranslate(m: P.Machine, pc: nat, infos: seq<P.Info>, mem: Memory, vaddr: nat, t: Access)
    requires P.FlagsAgree(m) && P.AfterAll(m, pc, infos).Go?
    ensures var env := EnvOf(P.AfterAll(m, pc, infos).m);
      Translation(env, mem, vaddr, t) ==
        if Sv39(env, t) then Walk(env, mem, vaddr, t, env.satp % PPN, 2) else Ok(vaddr)
  {
    P.FlagsFollow(m, pc, infos);
    FlagsAreSv39(P.AfterAll(m, pc, infos).m, t);
  }

  // ---- the manual's translation ----

  /** Section 4.4.1: bits 63 to 39 are all equal to bit 38. */
  predicate Canonical(vaddr: nat) {
    vaddr / 0x40_0000_0000 == 0 || vaddr / 0x40_0000_0000 == 0x3FF_FFFF
  }

  /** Section 4.4.1 for a machine without Svnapot and Svpbmt: bits 54 to 63 of every entry are
      reserved, as is W without R, and so are D, A and U of an entry that points to a table. */
  predicate Reserved(e: Pte) {
    e.pad != 0 || e.ext != 0 || (!e.r && e.w) || (!e.r && !e.x && (e.a || e.d || e.u))
  }

  /** Step 5 of section 4.3.2 and the rules of section 4.3.1, for an access made in `mode`. */
  predicate Allowed(env: Env, mode: nat, e: Pte, t: Access) {
    && (match t
        case Fetch => e.x
        case Load => e.r || (env.mxr && e.x)
        case Store => e.w)
    && (mode == MODE_U ==> e.u)
    && (mode == MODE_S && e.u ==> env.sum && !t.Fetch?)
  }

  /** Step 2 of section 4.3.2: an entry in a device cannot be read. */
  function AccessFault(t: Access): Result {
    match t
    case Fetch => Fault(1)
    case Load => Fault(5)
    case Store => Fault(7)
  }

  /** va.vpn[i]: section 4.4.1. */
  function VpnField(vaddr: nat, i: nat): nat {
    vaddr / (if i == 0 then 0x1000 else if i == 1 then 0x20_0000 else 0x4000_0000) % 512
  }

  /** Step 2: a + va.vpn[i] * PTESIZE. */
  function IsaEntryAddress(table: nat, vaddr: nat, i: nat): nat {
    table * 4096 + VpnField(vaddr, i) * 8
  }

  /** Step 8: the offset and the lower fields from the address, the upper fields from the entry. */
  function IsaFrame(ppn: nat, vaddr: nat, i: nat): nat {
    var page :=
      if i == 0 then ppn
      else if i == 1 then ppn / 512 * 512 + VpnField(vaddr, 0)
      else ppn / 0x40000 * 0x40000 + VpnField(vaddr, 1) * 512 + VpnField(vaddr, 0);
    page * 4096 + vaddr % 4096
  }

  /** Step 6: the lower fields of a superpage's entry are zero. */
  predicate Misaligned(ppn: nat, i: nat) {
    (i >= 1 && ppn % 512 != 0) || (i >= 2 && ppn / 512 % 512 != 0)
  }

  /** Steps 5 to 8 at a leaf. */
  function IsaLeaf(env: Env, mode: nat, e: Pte, vaddr: nat, t: Access, level: nat): Result {
    if !Allowed(env, mode, e, t) || Misaligned(e.ppn, level) || !e.a || (t.Store? && !e.d) then PageFault(t)
    else Ok(IsaFrame(e.ppn, vaddr, level))
  }

  /** Section 4.3.2, steps 2 to 8; setting accessed and dirty bits is left to software. */
  function IsaWalk(env: Env, mode: nat, mem: Memory, vaddr: nat, t: Access, table: nat, level: nat): Result
    decreases level
  {
    match mem(IsaEntryAddress(table, vaddr, level))
    case None => AccessFault(t)
    case Some(e) =>
      if !e.v || Reserved(e) then PageFault(t)
      else if e.r || e.x then
        IsaLeaf(env, mode, e, vaddr, t, level)
      else if level == 0 then PageFault(t)
      else IsaWalk(env, mode, mem, vaddr, t, e.ppn, level - 1)
  }

  function IsaTranslation(env: Env, mem: Memory, vaddr: nat, t: Access): Result {
    if !Sv39(env, t) then Ok(vaddr)
    else if !Canonical(vaddr) then PageFault(t)
    else IsaWalk(env, Mode(env, t), mem, vaddr, t, env.satp % PPN, 2)
  }

  // ---- where the two differ ----

  /** The entry and level a walk by either rule ends at, if it is a leaf whose other fields are in
      order: valid, nothing in the padding, readable if writable, and aligned for its level. */
  function LeafOf(mem: Memory, vaddr: nat, table: nat, level: nat): Option<Pte>
    decreases level
  {
    match mem(EntryAddress(table, vaddr, level))
    case None => PageWalk.None
    case Some(e) =>
      if !e.v || e.pad != 0 || (!e.r && e.w) then PageWalk.None
      else if e.r || e.x then if e.ppn % BitOps.Pow2(9 * level) == 0 then PageWalk.Some(e) else PageWalk.None
      else if e.a || e.d || e.u || e.ext != 0 || level == 0 then PageWalk.None
      else LeafOf(mem, vaddr, e.ppn, level - 1)
  }

  /** A walk by either rule comes to an entry in a device. */
  predicate EndsInDevice(mem: Memory, vaddr: nat, table: nat, level: nat)
    decreases level
  {
    match mem(EntryAddress(table, vaddr, level))
    case None => true
    case Some(e) => e.v && !Reserved(e) && !e.r && !e.x && level > 0 && EndsInDevice(mem, vaddr, e.ppn, level - 1)
  }

  /** The manual's word on a leaf that is otherwise in order. */
  predicate IsaAdmits(env: Env, e: Pte, vaddr: nat, t: Access) {
    Canonical(vaddr) && e.ext == 0 && Permits(env.(priv := Mode(env, t)), e, t)
  }

  lemma PermitsIsAllowed(env: Env, mode: nat, e: Pte, t: Access)
    requires e.v && e.pad == 0
    ensures Permits(env.(priv := mode), e, t) <==> Allowed(env, mode, e, t) && e.a && (t.Store? ==> e.d)
  {}

  lemma LevelPowers(level: nat)
    requires level <= 2
    ensures BitOps.Pow2(Shift(level)) == if level == 0 then 0x1000 else if level == 1 then 0x20_0000 else 0x4000_0000
    ensures BitOps.Pow2(9 * level) == if level == 0 then 1 else if level == 1 then 512 else 0x40000
  {
    Powers();
    BitOps.Pow2Add(9, 9);
    BitOps.Pow2Add(12, 9);
    BitOps.Pow2Add(12, 18);
  }

  lemma SameEntry(table: nat, vaddr: nat, level: nat)
    requires level <= 2
    ensures EntryAddress(table, vaddr, level) == IsaEntryAddress(table, vaddr, level)
  {
    LevelPowers(level);
  }

  lemma SameAlignment(ppn: nat, level: nat)
    requires level <= 2
    ensures Misaligned(ppn, level) <==> ppn % BitOps.Pow2(9 * level) != 0
  {
    LevelPowers(level);
  }

  lemma TwoFields(x: nat)
    ensures x % 0x40000 == x / 512 % 512 * 512 + x % 512
  {}

  lemma UpperField(vaddr: nat)
    ensures vaddr / 4096 / 512 == vaddr / 0x20_0000
  {}

  lemma LowerFields(vaddr: nat, level: nat)
    requires level <= 2
    ensures vaddr / 4096 % (if level == 0 then 1 else if level == 1 then 512 else 0x40000)
      == if level == 0 then 0 else if level == 1 then VpnField(vaddr, 0) else VpnField(vaddr, 1) * 512 + VpnField(vaddr, 0)
  {
    if level == 2 {
      TwoFields(vaddr / 4096);
      UpperField(vaddr);
    }
  }

  lemma Aligned(ppn: nat, p: nat)
    requires 0 < p && ppn % p == 0
    ensures ppn / p * p == ppn
  {}

  lemma SamePlace(ppn: nat, vaddr: nat, level: nat)
    requires level <= 2 && ppn % BitOps.Pow2(9 * level) == 0
    ensures Frame(ppn, vaddr, level) == IsaFrame(ppn, vaddr, level)
  {
    LevelPowers(level);
    LowerFields(vaddr, level);
    Aligned(ppn, BitOps.Pow2(9 * level));
  }

  /** The walk succeeds exactly at a leaf in order that its rule permits. */
  lemma {:induction false} WalkLeaf(env: Env, mem: Memory, vaddr: nat, t: Access, table: nat, level: nat)
    ensures var r, leaf := Walk(env, mem, vaddr, t, table, level), LeafOf(mem, vaddr, table, level);
      && (r.Ok? <==> leaf.Some? && Permits(env, leaf.value, t))
      && (r.Fault? ==> r == PageFault(t))
    decreases level
  {
    var e := mem(EntryAddress(table, vaddr, level));
    if e.Some? && level > 0 {
      WalkLeaf(env, mem, vaddr, t, e.value.ppn, level - 1);
    }
  }

  /** At one leaf without reserved bits: the manual admits it if it is aligned and permitted. */
  lemma IsaLeafFacts(env: Env, mode: nat, e: Pte, vaddr: nat, t: Access, level: nat)
    requires level <= 2 && e.v && e.pad == 0
    ensures var r := IsaLeaf(env, mode, e, vaddr, t, level);
      if e.ppn % BitOps.Pow2(9 * level) == 0 && Permits(env.(priv := mode), e, t) then r == Ok(Frame(e.ppn, vaddr, level))
      else r == PageFault(t)
  {
    PermitsIsAllowed(env, mode, e, t);
    SameAlignment(e.ppn, level);
    if e.ppn % BitOps.Pow2(9 * level) == 0 {
      SamePlace(e.ppn, vaddr, level);
    }
  }

  lemma {:induction false} IsaWalkLeaf(env: Env, mode: nat, mem: Memory, vaddr: nat, t: Access, table: nat, level: nat)
    requires level <= 2
    ensures var r, leaf := IsaWalk(env, mode, mem, vaddr, t, table, level), LeafOf(mem, vaddr, table, level);
      && (r.Ok? <==> leaf.Some? && leaf.value.ext == 0 && Permits(env.(priv := mode), leaf.value, t))
      && (r.Fault? ==> r == if EndsInDevice(mem, vaddr, table, level) then AccessFault(t) else PageFault(t))
      && (leaf.Some? ==> !EndsInDevice(mem, vaddr, table, level))
    decreases level
  {
    SameEntry(table, vaddr, level);
    var e := mem(EntryAddress(table, vaddr, level));
    if e.Some? {
      if e.value.v && e.value.pad == 0 {
        IsaLeafFacts(env, mode, e.value, vaddr, t, level);
      }
      if level > 0 {
        IsaWalkLeaf(env, mode, mem, vaddr, t, e.value.ppn, level - 1);
      }
    }
  }

  lemma LeafSame(env: Env, mode: nat, e: Pte, vaddr: nat, t: Access, level: nat)
    requires level <= 2 && e.v && e.pad == 0
    ensures var r, i := LeafResult(env, e, vaddr, t, level), IsaLeaf(env, mode, e, vaddr, t, level);
      r.Ok? && i.Ok? ==> r == i
  {
    IsaLeafFacts(env, mode, e, vaddr, t, level);
  }

  /** When both succeed they name the same address. */
  lemma {:induction false} SameFrame(env: Env, mode: nat, mem: Memory, vaddr: nat, t: Access, table: nat, level: nat)
    requires level <= 2
    ensures var r, i := Walk(env, mem, vaddr, t, table, level), IsaWalk(env, mode, mem, vaddr, t, table, level);
      r.Ok? && i.Ok? ==> r == i
    decreases level
  {
    SameEntry(table, vaddr, level);
    var e := mem(EntryAddress(table, vaddr, level));
    if e.Some? && e.value.v && e.value.pad == 0 {
      if e.value.r || e.value.x {
        LeafSame(env, mode, e.value, vaddr, t, level);
      } else if level > 0 {
        SameFrame(env, mode, mem, vaddr, t, e.value.ppn, level - 1);
      }
    }
  }

  /** The two disagree: the walk comes to a device, or to a leaf otherwise in order that just one of
      them admits. */
  predicate Disagree(env: Env, mem: Memory, vaddr: nat, t: Access) {
    var table := env.satp % PPN;
    var leaf := LeafOf(mem, vaddr, table, 2);
    || (Canonical(vaddr) && EndsInDevice(mem, vaddr, table, 2))
    || (leaf.Some? && Permits(env, leaf.value, t) != IsaAdmits(env, leaf.value, vaddr, t))
  }

  lemma DifferIff(env: Env, mem: Memory, vaddr: nat, t: Access)
    requires Translates(env, t) <==> Sv39(env, t)
    ensures Translation(env, mem, vaddr, t) != IsaTranslation(env, mem, vaddr, t) <==>
      Sv39(env, t) && Disagree(env, mem, vaddr, t)
  {
    var table, mode := env.satp % PPN, Mode(env, t);
    WalkLeaf(env, mem, vaddr, t, table, 2);
    IsaWalkLeaf(env, mode, mem, vaddr, t, table, 2);
    SameFrame(env, mode, mem, vaddr, t, table, 2);
  }

  /** After any instructions and traps, for every access and page table, simulator and manual differ
      exactly if the access is translated and they disagree where its walk ends.  The simulator goes by
      the permissions of the current privilege level; the manual asks for a canonical address, clear
      bits 61 to 63, and the permissions of the mode MPRV selects, and calls a table in a device an
      access fault. */
  lemma TranslationDiffersIff(m: P.Machine, pc: nat, infos: seq<P.Info>, env: Env, mem: Memory, vaddr: nat, t: Access)
    requires P.FlagsAgree(m) && P.AfterAll(m, pc, infos).Go? && env == EnvOf(P.AfterAll(m, pc, infos).m)
    ensures Translation(env, mem, vaddr, t) != IsaTranslation(env, mem, vaddr, t) <==>
      Sv39(env, t) && Disagree(env, mem, vaddr, t)
  {
    P.FlagsFollow(m, pc, infos);
    FlagsAreSv39(P.AfterAll(m, pc, infos).m, t);
    DifferIff(env, mem, vaddr, t);
  }

  /** So where the walk does not end in a device, the address is canonical, the leaf has no reserved bit
      and the mode of the access has the rights of the current one, the simulator is right. */
  lemma AgreesWhereItMatters(env: Env, mem: Memory, vaddr: nat, t: Access)
    requires Translates(env, t) <==> Sv39(env, t)
    requires Sv39(env, t) ==> Canonical(vaddr) && !EndsInDevice(mem, vaddr, env.satp % PPN, 2) && SameRights(env, t)
    requires var leaf := LeafOf(mem, vaddr, env.satp % PPN, 2); Sv39(env, t) && leaf.Some? ==> leaf.value.ext == 0
    ensures Translation(env, mem, vaddr, t) == IsaTranslation(env, mem, vaddr, t)
  {
    DifferIff(env, mem, vaddr, t);
  }

  /** Whether the access is made in the current mode makes no difference to any entry (PermissionRule). */
  predicate SameRights(env: Env, t: Access) {
    (env.priv == MODE_U <==> Mode(env, t) == MODE_U)
    && (env.sum || t.Fetch? || (env.priv == MODE_S <==> Mode(env, t) == MODE_S))
  }

  // ---- each way occurs ----

  /** A memory of entries that are all the same leaf. */
  function AllOf(e: Pte): Memory {
    (a: nat) => PageWalk.Some(e)
  }

  lemma LeafOfAll(e: Pte, vaddr: nat, table: nat)
    requires e.v && e.r && e.pad == 0 && e.ppn == 0
    ensures LeafOf(AllOf(e), vaddr, table, 2) == PageWalk.Some(e)
  {
    assert AllOf(e)(EntryAddress(table, vaddr, 2)) == PageWalk.Some(e);
    ZeroAligned(BitOps.Pow2(18));
  }

  lemma ZeroAligned(p: nat)
    requires 0 < p
    ensures 0 % p == 0
  {}

  /** Every supervisor fetch from 2^40 goes through, if the tables have a leaf for it. */
  lemma HighAddressesPass(env: Env)
    requires Sv39(env, Fetch) && Translates(env, Fetch) && env.priv == MODE_S
    ensures Translation(env, AllOf(Full(false)), 0x100_0000_0000, Fetch).Ok?
    ensures IsaTranslation(env, AllOf(Full(false)), 0x100_0000_0000, Fetch) == PageFault(Fetch)
  {
    LeafOfAll(Full(false), 0x100_0000_0000, env.satp % PPN);
    WalkLeaf(env, AllOf(Full(false)), 0x100_0000_0000, Fetch, env.satp % PPN, 2);
  }

  /** So does one through a leaf with bits 61 to 63 set. */
  lemma ReservedLeavesPass(env: Env)
    requires Sv39(env, Fetch) && Translates(env, Fetch) && env.priv == MODE_S
    ensures var mem := AllOf(Full(false).(ext := 7));
      Translation(env, mem, 0, Fetch).Ok? && IsaTranslation(env, mem, 0, Fetch) == PageFault(Fetch)
  {
    var e := Full(false).(ext := 7);
    LeafOfAll(e, 0, env.satp % PPN);
    WalkLeaf(env, AllOf(e), 0, Fetch, env.satp % PPN, 2);
    IsaWalkLeaf(env, Mode(env, Fetch), AllOf(e), 0, Fetch, env.satp % PPN, 2);
  }

  /** M-mode that loads as a user, by MPRV, gets at a supervisor's page. */
  lemma SupervisorPagesPass(env: Env)
    requires env.satp / P.TWO60 == 8 && Translates(env, Load) && env.priv == MODE_M && env.mprv && env.mpp == MODE_U
    ensures var mem := AllOf(Full(false));
      Translation(env, mem, 0, Load).Ok? && IsaTranslation(env, mem, 0, Load) == PageFault(Load)
  {
    LeafOfAll(Full(false), 0, env.satp % PPN);
    WalkLeaf(env, AllOf(Full(false)), 0, Load, env.satp % PPN, 2);
    IsaWalkLeaf(env, MODE_U, AllOf(Full(false)), 0, Load, env.satp % PPN, 2);
  }

  /** A table in a device is reported as a page fault. */
  lemma DeviceTablesFault(env: Env, t: Access)
    requires Sv39(env, t) && Translates(env, t)
    ensures var mem: Memory := (a: nat) => PageWalk.None;
      Translation(env, mem, 0, t) == PageFault(t) && IsaTranslation(env, mem, 0, t) == AccessFault(t)
  {
    var mem: Memory := (a: nat) => PageWalk.None;
    SameEntry(env.satp % PPN, 0, 2);
    assert mem(EntryAddress(env.satp % PPN, 0, 2)).None?;
  }
}
