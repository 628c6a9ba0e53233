/**
 * What each operation of the stack-to-register code generator does, as
 * functions on a value `Gen` holding the generator's state: the register
 * file, the symbolic stack of the current frame, the saved stacks of the
 * outer frames and the data segment that literals are pushed to.
 *
 * An operation that takes a register in the source is written Op...Fixed.
 * An operation that takes a callback `(reg) => chunks` is split where the
 * callback runs: Op...Begin does everything before the callback and returns
 * the register it chose (now held), the caller emits the callback's chunks,
 * and Release (plus, for pop, PopEnd) does what follows the callback.
 */
module Codegen {
  import opened Wrappers
  import opened Registers

  /** A symbolic stack slot: its offset from the frame base and its size, in words. */
  datatype Slot = Slot(offset: int, size: int)

  datatype OpCode = ADD | LOAD | STORE | LOAD_REG | STORE_REG | LOAD_EFFECTIVE_ADDRESS | JUMP

  /** An instruction not yet encoded: the opcode and whichever fields it was given. */
  datatype Chunk = Chunk(op: OpCode, reg1: Option<Reg>, reg2: Option<Reg>, reg3: Option<Reg>,
                         value: Option<int>, dataOffset: Option<nat>)

  /** The data-segment cell that holds the current frame base (stackBaseDataOffset). */
  const StackBase: nat := 0

  /** The generator's state. */
  datatype Gen = Gen(regs: RegFile, stack: seq<Slot>, frames: seq<seq<Slot>>, data: seq<int>)

  /** The state after an operation and the chunks it emitted. */
  datatype Emit = Emit(g: Gen, chunks: seq<Chunk>)

  /** The state after the first half of a callback operation, its chunks so far and the register handed to the callback. */
  datatype Held = Held(g: Gen, chunks: seq<Chunk>, reg: Reg)

  // ----------------------------------------------------------------- chunks

  function Load(reg: Reg, d: nat): Chunk { Chunk(LOAD, Some(reg), None, None, None, Some(d)) }
  function Store(reg: Reg, d: nat): Chunk { Chunk(STORE, Some(reg), None, None, None, Some(d)) }
  function LoadReg(offset: int, reg: Reg, base: Reg): Chunk { Chunk(LOAD_REG, Some(reg), Some(base), None, Some(offset), None) }
  function StoreReg(offset: int, reg: Reg, base: Reg): Chunk { Chunk(STORE_REG, Some(reg), Some(base), None, Some(offset), None) }
  function Move(reg: Reg, from: Reg): Chunk { Chunk(ADD, Some(reg), Some(from), Some(reg), Some(0), None) }
  function AddImm(reg1: Reg, reg2: Reg, v: int): Chunk { Chunk(ADD, Some(reg1), Some(reg2), None, Some(v), None) }
  function AddRegs(reg1: Reg, reg2: Reg, reg3: Reg): Chunk { Chunk(ADD, Some(reg1), Some(reg2), Some(reg3), None, None) }
  function Lea(reg: Reg, v: int): Chunk { Chunk(LOAD_EFFECTIVE_ADDRESS, Some(reg), None, None, Some(v), None) }
  function Jump(reg: Reg): Chunk { Chunk(JUMP, Some(reg), None, None, None, None) }

  /** Chunk lists concatenate associatively. */
  lemma AppendAssoc(a: seq<Chunk>, b: seq<Chunk>, c: seq<Chunk>)
    ensures a + (b + c) == a + b + c
  {
  }

  // ------------------------------------------------------------ findRegister

  /** The use case findRegister is asked for. */
  datatype Usecase = AnyUse | DataUse(offset: nat) | StackUse(index: nat)

  /** Register `r` is the lowest-numbered one matching `q`. */
  ghost predicate FirstMatch(rf: RegFile, q: Query, r: Reg) {
    Matches(rf[r], q) && forall k :: 0 <= k < r ==> !Matches(rf[k], q)
  }

  /**
   * findRegister: for data, a register bound to that cell, else the first free
   * one; for a stack slot, a register whose slot set holds the index, else the
   * first free one; with no use case, the first free one, else the first weak one.
   */
  function FindRegister(rf: RegFile, u: Usecase): Option<Reg>
  {
    var free := FindReg(rf, IsFree);
    match u
    case DataUse(d) => var held := FindReg(rf, HoldsData(d)); if held.Some? then held else free
    case StackUse(i) => var held := FindReg(rf, HoldsSlot(i)); if held.Some? then held else free
    case AnyUse => if free.Some? then free else FindReg(rf, IsWeak)
  }

  /** What findRegister gives, case by case: the first register that matches the use case, else the first free one. */
  lemma FindRegisterCases(rf: RegFile, u: Usecase, r: Option<Reg>)
    requires r == FindRegister(rf, u)
    ensures u.DataUse? && (exists k: Reg :: Matches(rf[k], HoldsData(u.offset))) ==>
              r.Some? && FirstMatch(rf, HoldsData(u.offset), r.value)
    ensures u.StackUse? && (exists k: Reg :: Matches(rf[k], HoldsSlot(u.index))) ==>
              r.Some? && FirstMatch(rf, HoldsSlot(u.index), r.value)
    ensures u.DataUse? && (forall k: Reg :: !Matches(rf[k], HoldsData(u.offset))) ==>
              (r.Some? <==> exists k: Reg :: rf[k].None?) && (r.Some? ==> FirstMatch(rf, IsFree, r.value))
    ensures u.StackUse? && (forall k: Reg :: !Matches(rf[k], HoldsSlot(u.index))) ==>
              (r.Some? <==> exists k: Reg :: rf[k].None?) && (r.Some? ==> FirstMatch(rf, IsFree, r.value))
    ensures u.AnyUse? && (exists k: Reg :: rf[k].None?) ==> r.Some? && FirstMatch(rf, IsFree, r.value)
    ensures u.AnyUse? && (forall k: Reg :: rf[k].Some?) ==>
              (r.Some? <==> exists k: Reg :: rf[k].value.weak) && (r.Some? ==> FirstMatch(rf, IsWeak, r.value))
  {
    FindFromSpec(rf, IsFree, 0, FindReg(rf, IsFree));
    match u
    case DataUse(d) => FindFromSpec(rf, HoldsData(d), 0, FindReg(rf, HoldsData(d)));
    case StackUse(i) => FindFromSpec(rf, HoldsSlot(i), 0, FindReg(rf, HoldsSlot(i)));
    case AnyUse => FindFromSpec(rf, IsWeak, 0, FindReg(rf, IsWeak));
  }

  /**
   * findRegister() where the source relies on finding a register; when none is
   * free or weak the source's behaviour is undefined and the model takes register 0.
   */
  function FindAny(rf: RegFile): Reg {
    FindRegister(rf, AnyUse).GetOr(0)
  }

  /**
   * With fewer than 8 held registers findRegister() does find one, free or weak,
   * so the fallback is never taken.
   */
  lemma FindAnyAvailable(rf: RegFile)
    requires |Pinned(rf)| < 8
    ensures FindRegister(rf, AnyUse) == Some(FindAny(rf))
    ensures rf[FindAny(rf)].None? || rf[FindAny(rf)].value.weak
    ensures FindAny(rf) !in Pinned(rf)
  {
    SomeUnpinned(rf);
    FindRegisterCases(rf, AnyUse, FindRegister(rf, AnyUse));
  }

  // ------------------------------------------------------ register bookkeeping

  /** free(reg) after a callback has run. */
  function Release(g: Gen, r: Reg): (g': Gen)
    ensures g' == g.(regs := g'.regs)
    ensures StaleSet(g'.regs) == StaleSet(g.regs)
  {
    StaleSetEffects(g.regs, r, Ref(None, None));
    g.(regs := FreeReg(g.regs, r))
  }

  /** `e`'s value with its stack slots replaced (on a free register: a new value with only those slots). */
  function WithSlots(e: Option<Entry>, s: seq<nat>): (r: Ref)
    ensures r.stackOffset == Some(s)
    ensures r.dataOffset == if e.Some? then e.value.value.dataOffset else None
  {
    if e.Some? then e.value.value.(stackOffset := Some(s)) else Ref(None, Some(s))
  }

  // --------------------------------------------------------------- writeBack

  /**
   * writeBack(filter): visits the registers in order.  Each stale one (only
   * `filter`, when given) is marked synced, then written back: one STORE to
   * its data cell, or for a stack-bound register one STORE_REG per slot index,
   * each through a register that holds the frame base.
   */
  function WriteBack(g: Gen, filter: Option<Reg>): (e: Emit)
    ensures e.g == g.(regs := e.g.regs)
    ensures StaleSet(e.g.regs) <= StaleSet(g.regs)
    ensures filter.None? ==> StaleSet(e.g.regs) == {}
    ensures filter.Some? ==> filter.value !in StaleSet(e.g.regs)
    decreases StaleSet(g.regs), 1, 9
  {
    WriteBackFrom(g, filter, 0)
  }

  function WriteBackFrom(g: Gen, filter: Option<Reg>, i: nat): (e: Emit)
    requires i <= 8
    ensures e.g == g.(regs := e.g.regs)
    ensures StaleSet(e.g.regs) <= StaleSet(g.regs)
    ensures filter.None? && (forall k :: k in StaleSet(g.regs) ==> k >= i) ==> StaleSet(e.g.regs) == {}
    ensures filter.Some? && filter.value >= i ==> filter.value !in StaleSet(e.g.regs)
    ensures filter.Some? && filter.value < i ==> e == Emit(g, [])
    decreases StaleSet(g.regs), 1, 8 - i
  {
    if i == 8 then Emit(g, [])
    else
      var flushed := Flush(g, filter, i);
      var rest := WriteBackFrom(flushed.g, filter, i + 1);
      Emit(rest.g, flushed.chunks + rest.chunks)
  }

  /** writeBack's visit of register `i`: when it is stale (and is `filter`, if given) it is synced and stored. */
  function Flush(g: Gen, filter: Option<Reg>, i: Reg): (e: Emit)
    ensures e.g == g.(regs := e.g.regs)
    ensures StaleSet(e.g.regs) <= StaleSet(g.regs)
    ensures filter.None? || filter.value == i ==> StaleSet(e.g.regs) <= StaleSet(g.regs) - {i}
    ensures filter.Some? && filter.value != i ==> e == Emit(g, [])
    decreases StaleSet(g.regs), 1, 0
  {
    var x := g.regs[i];
    if x.None? || !x.value.stale || (filter.Some? && filter.value != i) then Emit(g, [])
    else
      var g1 := g.(regs := MarkSynced(g.regs, i));
      StaleSetEffects(g.regs, i, x.value.value);
      if x.value.value.dataOffset.Some? then Emit(g1, [Store(i, x.value.value.dataOffset.value)])
      else if x.value.value.stackOffset.Some? then StoreSlots(g1, i, x.value.value.stackOffset.value)
      else Emit(g1, [])
  }

  /** The STORE_REG of register `reg` to each slot index in `idxs`, each inside dataGet(StackBase). */
  function StoreSlots(g: Gen, reg: Reg, idxs: seq<nat>): (e: Emit)
    ensures e.g == g.(regs := e.g.regs)
    ensures StaleSet(e.g.regs) <= StaleSet(g.regs)
    decreases StaleSet(g.regs), 2, |idxs|
  {
    if idxs == [] then Emit(g, [])
    else
      var h := DataGetBegin(g, StackBase);
      var g1 := Release(h.g, h.reg);
      var rest := StoreSlots(g1, reg, idxs[1..]);
      Emit(rest.g, h.chunks + [StoreReg(idxs[0], reg, h.reg)] + rest.chunks)
  }

  // ----------------------------------------------------------- dataGet, dataSet

  /**
   * The register the callback operations pick: the one findRegister gives for
   * the use case, else (none free, none holding it) the one findRegister()
   * gives, after writing that one back.
   */
  function Choose(g: Gen, u: Usecase): (h: Held)
    ensures h.g == g.(regs := h.g.regs)
    ensures StaleSet(h.g.regs) <= StaleSet(g.regs)
    ensures FindRegister(g.regs, u).Some? ==> h == Held(g, [], FindRegister(g.regs, u).value)
    ensures FindRegister(g.regs, u).None? ==> h.reg == FindAny(g.regs) && h.reg !in StaleSet(h.g.regs)
    decreases StaleSet(g.regs), 1, 10
  {
    var found := FindRegister(g.regs, u);
    if found.Some? then Held(g, [], found.value)
    else
      var reg := FindAny(g.regs);
      var wb := WriteBack(g, Some(reg));
      Held(wb.g, wb.chunks, reg)
  }

  /**
   * dataGet(index, callback) up to the callback: a register bound to the cell,
   * else a free one, else a weak one after writing it back; it is loaded unless
   * it already mirrors the cell, and is then held.
   */
  function DataGetBegin(g: Gen, index: nat): (h: Held)
    ensures h.g == g.(regs := h.g.regs)
    ensures StaleSet(h.g.regs) <= StaleSet(g.regs)
    ensures Matches(h.g.regs[h.reg], HoldsData(index)) && !h.g.regs[h.reg].value.weak
    decreases StaleSet(g.regs), 1, 11
  {
    var pre := Choose(g, DataUse(index));
    var reg := pre.reg;
    var x := pre.g.regs[reg];
    var rf :=
      if x.None? || x.value.value.dataOffset != Some(index) then
        MarkSynced(SetReg(pre.g.regs, reg, Ref(Some(index), None)), reg)
      else pre.g.regs;
    var chunks := if x.None? || x.value.value.dataOffset != Some(index) then [Load(reg, index)] else [];
    StaleSetEffects(pre.g.regs, reg, Ref(Some(index), None));
    StaleSetEffects(SetReg(pre.g.regs, reg, Ref(Some(index), None)), reg, Ref(Some(index), None));
    StaleSetEffects(rf, reg, Ref(Some(index), None));
    Held(pre.g.(regs := AllocateReg(rf, reg)), pre.chunks + chunks, reg)
  }

  /** dataGet(index, reg): writes `reg` back, then loads the cell into it unless it already mirrors it. */
  function DataGetFixed(g: Gen, index: nat, reg: Reg): (e: Emit)
    ensures e.g == g.(regs := e.g.regs)
    ensures Matches(e.g.regs[reg], HoldsData(index)) && !e.g.regs[reg].value.stale
  {
    var wb := WriteBack(g, Some(reg));
    var x := wb.g.regs[reg];
    if x.None? || x.value.value.dataOffset != Some(index) then
      Emit(wb.g.(regs := MarkSynced(SetReg(wb.g.regs, reg, Ref(Some(index), None)), reg)), wb.chunks + [Load(reg, index)])
    else wb
  }

  /** dataSet(index, callback) up to the callback: the chosen register is bound to the cell, stale, and held. */
  function DataSetBegin(g: Gen, index: nat): (h: Held)
    ensures h.g == g.(regs := h.g.regs)
    ensures h.g.regs[h.reg] == Some(Entry(Ref(Some(index), None), true, false))
  {
    var pre := Choose(g, DataUse(index));
    Held(pre.g.(regs := AllocateReg(SetReg(pre.g.regs, pre.reg, Ref(Some(index), None)), pre.reg)), pre.chunks, pre.reg)
  }

  /** dataSet(index, reg): writes `reg` back, then binds it to the cell as stale. */
  function DataSetFixed(g: Gen, index: nat, reg: Reg): (e: Emit)
    ensures e.g == g.(regs := e.g.regs)
    ensures e.g.regs[reg] == Some(Entry(Ref(Some(index), None), true, false))
  {
    var wb := WriteBack(g, Some(reg));
    Emit(wb.g.(regs := SetReg(wb.g.regs, reg, Ref(Some(index), None))), wb.chunks)
  }

  // ------------------------------------------------------------------ get

  /** The slot at `index`, or `{offset: index, size: 0}` past the end of the stack. */
  function SlotAt(stack: seq<Slot>, index: nat): Slot {
    if index < |stack| then stack[index] else Slot(index, 0)
  }

  /**
   * Fills `reg` from the slot at `index` through a register that holds the
   * frame base: LOAD_REG reg, [base + offset].
   */
  function LoadSlot(g: Gen, index: nat, reg: Reg): (e: Emit)
    ensures e.g == g.(regs := e.g.regs)
    ensures |e.chunks| > 0 && e.chunks[|e.chunks| - 1].op == LOAD_REG && e.chunks[|e.chunks| - 1].reg1 == Some(reg)
    ensures e.chunks[|e.chunks| - 1].value == Some(SlotAt(g.stack, index).offset)
  {
    var h := DataGetBegin(g, StackBase);
    Emit(Release(h.g, h.reg), h.chunks + [LoadReg(SlotAt(g.stack, index).offset, reg, h.reg)])
  }

  /**
   * get's register move: `reg` (already bound to the slot) takes the slot over
   * from `p`, which gives it up (and is unbound when it has none left); `reg`
   * inherits `p`'s stale flag.  `p` may be `reg` itself.
   */
  function TakeOver(g: Gen, index: nat, reg: Reg, p: Reg): (e: Emit)
    requires g.regs[p].Some?
    ensures e.g == g.(regs := e.g.regs)
    ensures e.chunks == [Move(reg, p)]
    ensures p != reg && g.regs[reg].Some? ==> e.g.regs[reg].Some? && e.g.regs[reg].value.stale == g.regs[p].value.stale
    ensures index !in SlotsOf(e.g.regs[p])
  {
    var rest := Delete(SlotsOf(g.regs[p]), index);
    var rf := if rest == [] then UnsetReg(g.regs, p) else UpdateReg(g.regs, p, WithSlots(g.regs[p], rest));
    var rf' := if g.regs[p].value.stale then MarkStale(rf, reg) else MarkSynced(rf, reg);
    Emit(g.(regs := rf'), [Move(reg, p)])
  }

  /**
   * get(index, reg): writes `reg` back; unless it already claims the slot it is
   * rebound to that slot alone and filled by a register move from the register
   * findRegister("stack", index) gave before the rebinding, if that one is bound,
   * or else by a load through the frame base.
   */
  function GetFixed(g: Gen, index: nat, reg: Reg): (e: Emit)
    ensures e.g == g.(regs := e.g.regs)
  {
    Fill(WriteBack(g, Some(reg)), index, reg)
  }

  /** get(index, reg) after its write-back `wb`: the rebinding and the move or load. */
  function Fill(wb: Emit, index: nat, reg: Reg): (e: Emit)
    ensures e.g == wb.g.(regs := e.g.regs)
  {
    var x := wb.g.regs[reg];
    if x.Some? && index in SlotsOf(x) then wb
    else
      var prev := FindRegister(wb.g.regs, StackUse(index));
      var g1 := wb.g.(regs := SetReg(wb.g.regs, reg, Ref(None, Some([index]))));
      if prev.Some? && g1.regs[prev.value].Some? then
        var moved := TakeOver(g1, index, reg, prev.value);
        Emit(moved.g, wb.chunks + moved.chunks)
      else
        var loaded := LoadSlot(g1, index, reg);
        Emit(loaded.g.(regs := MarkSynced(loaded.g.regs, reg)), wb.chunks + loaded.chunks)
  }

  /**
   * get(index, callback) up to the callback: a register claiming the slot, else
   * a free one, else a weak one after writing it back; unless it claims the slot
   * already, the slot is loaded into it through the frame base and it is bound to
   * that slot alone, synced.  It is then held.
   */
  function GetBegin(g: Gen, index: nat): (h: Held)
    ensures h.g == g.(regs := h.g.regs)
    ensures index in SlotsOf(h.g.regs[h.reg]) && !h.g.regs[h.reg].value.weak
  {
    var pre := Choose(g, StackUse(index));
    var reg := pre.reg;
    var x := pre.g.regs[reg];
    if x.Some? && index in SlotsOf(x) then
      Held(pre.g.(regs := AllocateReg(pre.g.regs, reg)), pre.chunks, reg)
    else
      var loaded := LoadSlot(pre.g, index, reg);
      var rf := MarkSynced(SetReg(loaded.g.regs, reg, Ref(None, Some([index]))), reg);
      Held(loaded.g.(regs := AllocateReg(rf, reg)), pre.chunks + loaded.chunks, reg)
  }

  // ------------------------------------------------------------------ set

  /**
   * set(index, reg): emits nothing.  The register findRegister("stack", index)
   * gives, if bound, gives up the slot (and is unbound if it has none left); then
   * `reg` adds the slot to its slot set, keeping its flags.  When that register
   * is `reg` itself, the slot set it edits is `reg`'s own.
   */
  function SetFixed(g: Gen, index: nat, reg: Reg): (e: Emit)
    ensures e.g == g.(regs := e.g.regs)
    ensures e.chunks == []
    ensures index in SlotsOf(e.g.regs[reg])
  {
    var own := if g.regs[reg].Some? then g.regs[reg].value.value else Ref(None, Some([]));
    var prev := FindRegister(g.regs, StackUse(index));
    var detached :=
      if prev.Some? && g.regs[prev.value].Some? then
        var p := prev.value;
        var rest := Delete(SlotsOf(g.regs[p]), index);
        var rf := if rest == [] then UnsetReg(g.regs, p) else UpdateReg(g.regs, p, WithSlots(g.regs[p], rest));
        (rf, if p == reg then Some(rest) else own.stackOffset)
      else (g.regs, own.stackOffset);
    var slots := Insert(detached.1.GetOr([]), index);
    Emit(g.(regs := UpdateReg(detached.0, reg, own.(stackOffset := Some(slots)))), [])
  }

  /**
   * set(index, callback) up to the callback: a register claiming the slot, else
   * a free one, else a weak one after writing it back, bound afresh to the slot
   * alone (stale: the callback writes it) and held.
   */
  function SetBegin(g: Gen, index: nat): (h: Held)
    ensures h.g == g.(regs := h.g.regs)
    ensures h.g.regs[h.reg] == Some(Entry(Ref(None, Some([index])), true, false))
  {
    var pre := Choose(g, StackUse(index));
    Held(pre.g.(regs := AllocateReg(SetReg(pre.g.regs, pre.reg, Ref(None, Some([index]))), pre.reg)), pre.chunks, pre.reg)
  }

  // ------------------------------------------------------------- push, pop

  /** The slot push appends: right after the last slot, or at offset 0 on an empty stack. */
  function NextSlot(stack: seq<Slot>): Slot {
    if stack == [] then Slot(0, 1)
    else Slot(stack[|stack| - 1].offset + stack[|stack| - 1].size, 1)
  }

  /** The position of the top slot. */
  function TopIndex(stack: seq<Slot>): (i: nat)
    requires |stack| > 0
    ensures i + 1 == |stack|
  {
    |stack| - 1
  }

  function PushFixed(g: Gen, reg: Reg): (e: Emit)
    ensures e.g.stack == g.stack + [NextSlot(g.stack)] && e.g.frames == g.frames && e.g.data == g.data
    ensures e.chunks == []
  {
    SetFixed(g.(stack := g.stack + [NextSlot(g.stack)]), |g.stack|, reg)
  }

  function PushBegin(g: Gen): (h: Held)
    ensures h.g.stack == g.stack + [NextSlot(g.stack)] && h.g.frames == g.frames && h.g.data == g.data
  {
    SetBegin(g.(stack := g.stack + [NextSlot(g.stack)]), |g.stack|)
  }

  /** What pop does after its get: unbinds the register findRegister("stack", index) gives. */
  function UnsetHolder(rf: RegFile, index: nat): (rf': RegFile)
    ensures forall k: Reg :: FirstMatch(rf, HoldsSlot(index), k) ==> rf' == UnsetReg(rf, k)
    ensures (forall k: Reg :: index !in SlotsOf(rf[k])) ==> rf' == rf
  {
    match FindRegister(rf, StackUse(index))
    case Some(r) => UnsetReg(rf, r)
    case None => rf
  }

  function PopFixed(g: Gen, reg: Reg): (e: Emit)
    requires |g.stack| > 0
    ensures e.g.stack == g.stack[..|g.stack| - 1] && e.g.frames == g.frames && e.g.data == g.data
  {
    var index := TopIndex(g.stack);
    var got := GetFixed(g.(stack := g.stack[..index]), index, reg);
    Emit(got.g.(regs := UnsetHolder(got.g.regs, index)), got.chunks)
  }

  function PopBegin(g: Gen): (h: Held)
    requires |g.stack| > 0
    ensures h.g.stack == g.stack[..|g.stack| - 1] && h.g.frames == g.frames && h.g.data == g.data
  {
    GetBegin(g.(stack := g.stack[..TopIndex(g.stack)]), TopIndex(g.stack))
  }

  /** pop(callback) after the callback: free the register, then unbind the slot's holder. */
  function PopEnd(g: Gen, reg: Reg, index: nat): (g': Gen)
    ensures g' == g.(regs := g'.regs)
    ensures forall k: Reg :: FirstMatch(g.regs, HoldsSlot(index), k) ==> g'.regs == UnsetReg(FreeReg(g.regs, reg), k)
    ensures (forall k: Reg :: index !in SlotsOf(g.regs[k])) ==> g'.regs == FreeReg(g.regs, reg)
  {
    var g1 := Release(g, reg);
    g1.(regs := UnsetHolder(g1.regs, index))
  }

  // ---------------------------------------------------------- swap, insert

  /**
   * What swap does inside its two callbacks: the register held for `i` claims `j`
   * instead and the one held for `j` claims `i`; both are marked stale.
   */
  function Relabel(rf: RegFile, r1: Reg, r2: Reg, i: nat, j: nat): (rf': RegFile)
    ensures forall k: Reg :: k != r1 && k != r2 ==> rf'[k] == rf[k]
    ensures rf'[r1].Some? && rf'[r1].value.stale && rf'[r2].Some? && rf'[r2].value.stale
    ensures r1 != r2 ==> j in SlotsOf(rf'[r1]) && i in SlotsOf(rf'[r2])
    ensures r1 != r2 && i != j ==> i !in SlotsOf(rf'[r1]) && j !in SlotsOf(rf'[r2])
    ensures r1 != r2 ==> forall x :: x != i && x != j ==>
              (x in SlotsOf(rf'[r1]) <==> x in SlotsOf(rf[r1])) && (x in SlotsOf(rf'[r2]) <==> x in SlotsOf(rf[r2]))
    ensures r1 == r2 ==> forall x :: x in SlotsOf(rf'[r1]) <==> x in SlotsOf(rf[r1]) || x == i || x == j
    ensures rf[r1].Some? ==> rf'[r1].value.value.dataOffset == rf[r1].value.value.dataOffset && rf'[r1].value.weak == rf[r1].value.weak
    ensures rf[r2].Some? ==> rf'[r2].value.value.dataOffset == rf[r2].value.value.dataOffset && rf'[r2].value.weak == rf[r2].value.weak
  {
    var s1 := Insert(Delete(SlotsOf(rf[r1]), i), j);
    var s2 := Insert(Delete(SlotsOf(rf[r2]), j), i);
    var both := Insert(Insert(Delete(Delete(SlotsOf(rf[r1]), i), j), j), i);
    var rf1 := UpdateReg(rf, r1, WithSlots(rf[r1], if r1 == r2 then both else s1));
    var rf2 := UpdateReg(rf1, r2, WithSlots(rf[r2], if r1 == r2 then both else s2));
    MarkStale(MarkStale(rf2, r1), r2)
  }

  function Swap(g: Gen, i: nat, j: nat): (e: Emit)
    ensures e.g == g.(regs := e.g.regs)
  {
    var h1 := GetBegin(g, i);
    var h2 := GetBegin(h1.g, j);
    var rf := Relabel(h2.g.regs, h1.reg, h2.reg, i, j);
    Emit(Release(Release(h2.g.(regs := rf), h2.reg), h1.reg), h1.chunks + h2.chunks)
  }

  /** The position right below `i`. */
  function Below(i: nat): (j: nat)
    requires i > 0
    ensures j + 1 == i
  {
    i - 1
  }

  /** insert's loop: swap(i, i - 1) for i from `from` down to index + 1. */
  function SwapDown(g: Gen, from: nat, index: nat): (e: Emit)
    ensures e.g == g.(regs := e.g.regs)
    decreases from
  {
    if from <= index then Emit(g, [])
    else
      var s := Swap(g, from, Below(from));
      var rest := SwapDown(s.g, Below(from), index);
      Emit(rest.g, s.chunks + rest.chunks)
  }

  /** insert(index, reg): push(reg), then swap the new slot down to `index`. */
  function InsertFixed(g: Gen, index: nat, reg: Reg): (e: Emit)
    ensures e.g.stack == g.stack + [NextSlot(g.stack)] && e.g.frames == g.frames && e.g.data == g.data
  {
    var p := PushFixed(g, reg);
    var s := SwapDown(p.g, TopIndex(p.g.stack), index);
    Emit(s.g, p.chunks + s.chunks)
  }

  /**
   * insert(index, callback) after the callback: push(callback) has run as
   * PushBegin and the callback's chunks; free the register, then swap the new
   * slot down to `index`.  On an empty stack the loop runs no round.
   */
  function InsertEnd(g: Gen, reg: Reg, index: nat): (e: Emit)
    ensures e.g.stack == g.stack && e.g.frames == g.frames && e.g.data == g.data
    ensures |g.stack| <= index + 1 ==> e == Emit(Release(g, reg), [])
  {
    var g1 := Release(g, reg);
    if g1.stack == [] then Emit(g1, [])
    else SwapDown(g1, TopIndex(g1.stack), index)
  }

  // ------------------------------------------------------ copy, replace, add

  /** copy(index): get the slot, push a new one, and move the value across (ADD with 0). */
  function CopySlot(g: Gen, index: nat): (e: Emit)
    ensures e.g.stack == g.stack + [NextSlot(g.stack)] && e.g.frames == g.frames && e.g.data == g.data
    ensures |e.chunks| > 0 && e.chunks[|e.chunks| - 1].op == ADD
  {
    var h2 := GetBegin(g, index);
    var h1 := PushBegin(h2.g);
    Emit(Release(Release(h1.g, h1.reg), h2.reg), h2.chunks + h1.chunks + [AddImm(h1.reg, h2.reg, 0)])
  }

  /** replace(index): set the slot from the popped top value. */
  function ReplaceSlot(g: Gen, index: nat): (e: Emit)
    requires |g.stack| > 0
    ensures e.g.stack == g.stack[..|g.stack| - 1] && e.g.frames == g.frames && e.g.data == g.data
    ensures |e.chunks| > 0 && e.chunks[|e.chunks| - 1].op == ADD
  {
    var h1 := SetBegin(g, index);
    var h2 := PopBegin(h1.g);
    var g2 := PopEnd(h2.g, h2.reg, TopIndex(h1.g.stack));
    Emit(Release(g2, h1.reg), h1.chunks + h2.chunks + [AddImm(h1.reg, h2.reg, 0)])
  }

  /** add() inside its first pop's callback: the second pop, the push, and the ADD of the three registers. */
  function AddInner(g: Gen, r1: Reg): (e: Emit)
    requires |g.stack| >= 1
    ensures e.g.stack == g.stack[..|g.stack| - 1] + [NextSlot(g.stack[..|g.stack| - 1])]
    ensures e.g.frames == g.frames && e.g.data == g.data
    ensures |e.chunks| > 0 && e.chunks[|e.chunks| - 1].op == ADD && e.chunks[|e.chunks| - 1].reg1 == Some(r1)
  {
    var h2 := PopBegin(g);
    var h3 := PushBegin(h2.g);
    var g3 := PopEnd(Release(h3.g, h3.reg), h2.reg, TopIndex(g.stack));
    Emit(g3, h2.chunks + h3.chunks + [AddRegs(r1, h2.reg, h3.reg)])
  }

  /** add(): pop two operands, push one slot, and add the two into it. */
  function AddTop(g: Gen): (e: Emit)
    requires |g.stack| >= 2
    ensures e.g.stack == g.stack[..|g.stack| - 2] + [NextSlot(g.stack[..|g.stack| - 2])]
    ensures e.g.frames == g.frames && e.g.data == g.data
    ensures |e.chunks| > 0 && e.chunks[|e.chunks| - 1].op == ADD
  {
    var h1 := PopBegin(g);
    var inner := AddInner(h1.g, h1.reg);
    assert h1.g.stack[..|h1.g.stack| - 1] == g.stack[..|g.stack| - 2];
    Emit(PopEnd(inner.g, h1.reg, TopIndex(g.stack)), h1.chunks + inner.chunks)
  }

  // ------------------------------------------------------ frames and frame base

  /** signExtend(x, 5): the 5-bit two's-complement reading of x. */
  function SignExtend5(x: int): (r: int)
    requires 0 <= x < 32
    ensures -16 <= r <= 15 && r % 32 == x
  {
    if x >= 16 then x - 32 else x
  }

  /** Whether a delta fits the add-immediate field: signExtend(d & 0x1f, 5) == d. */
  predicate FitsImmediate(d: int) {
    SignExtend5(d % 32) == d
  }

  /** The deltas that fit the immediate field are exactly -16 through 15. */
  lemma {:induction false} ImmediateRange(d: int)
    ensures FitsImmediate(d) <==> -16 <= d <= 15
  {
    if -16 <= d < 0 {
      assert d % 32 == d + 32;
    } else if 0 <= d <= 15 {
      assert d % 32 == d;
    }
  }

  /**
   * updateStackBase(d): nothing for 0; for a delta that fits the immediate field,
   * one add-immediate on the register holding the frame-base cell; otherwise the
   * delta goes to the data segment, is loaded, and is added register to register.
   */
  function UpdateStackBase(g: Gen, d: int): (e: Emit)
    ensures e.g.stack == g.stack && e.g.frames == g.frames
    ensures e.g.data == g.data + Spilled(d)
  {
    if d == 0 then Emit(g, [])
    else if FitsImmediate(d) then
      var h := DataSetBegin(g, StackBase);
      Emit(Release(h.g, h.reg), h.chunks + [AddImm(h.reg, h.reg, d)])
    else
      var h1 := DataGetBegin(g.(data := g.data + [d]), |g.data|);
      var h2 := DataSetBegin(h1.g, StackBase);
      Emit(Release(Release(h2.g, h2.reg), h1.reg), h1.chunks + h2.chunks + [AddRegs(h1.reg, h2.reg, h1.reg)])
  }

  /** What updateStackBase(d) appends to the data segment: d itself, unless it is 0 or fits the immediate field. */
  function Spilled(d: int): (r: seq<int>)
    ensures r == [] <==> -16 <= d <= 15
    ensures r != [] ==> r == [d]
  {
    ImmediateRange(d);
    if d == 0 || FitsImmediate(d) then [] else [d]
  }

  /** pushStackFrame: save the stack, start an empty one, clear the registers, advance the frame base. */
  function PushStackFrame(g: Gen): (e: Emit)
    ensures e.g.stack == [] && e.g.frames == g.frames + [g.stack]
    ensures e.g.data == g.data + Spilled(|g.stack|)
  {
    var g1 := g.(frames := g.frames + [g.stack], stack := [], regs := Empty);
    UpdateStackBase(g1, |g.stack|)
  }

  /** popStackFrame: restore the saved stack and move the frame base back by its size. */
  function PopStackFrame(g: Gen): (e: Emit)
    requires |g.frames| > 0
    ensures e.g.stack == g.frames[|g.frames| - 1] && e.g.frames == g.frames[..|g.frames| - 1]
    ensures e.g.data == g.data + Spilled(Back(|g.frames[|g.frames| - 1]|))
  {
    var top := g.frames[|g.frames| - 1];
    UpdateStackBase(g.(stack := top, frames := g.frames[..|g.frames| - 1]), Back(|top|))
  }

  /** The frame-base delta that undoes an advance by n. */
  function Back(n: int): (d: int)
    ensures d + n == 0
  {
    -n
  }

  // ------------------------------------------------------ call, return, entry

  /** The stack without its last k slots (drop). */
  function Drop(stack: seq<Slot>, k: nat): seq<Slot> {
    if k <= |stack| then stack[..|stack| - k] else []
  }

  /** The position three slots below the top, where call() puts the return address. */
  function ThirdFromTop(stack: seq<Slot>): (i: nat)
    requires |stack| >= 3
    ensures i + 3 == |stack|
  {
    |stack| - 3
  }

  /**
   * call() up to the pop of the callee address: R0 is inserted three slots
   * below the top and given the return address (LOAD_EFFECTIVE_ADDRESS with a
   * placeholder), then the slot now third from the top is got into R1.  Both
   * stay held.
   */
  function CallSetup(g: Gen): (e: Emit)
    requires |g.stack| >= 3
    ensures e.g.stack == g.stack + [NextSlot(g.stack)] && e.g.frames == g.frames
    ensures |e.chunks| > 0 && e.chunks[0] == (InsertFixed(g, ThirdFromTop(g.stack), R0).chunks + [Lea(R0, 0)])[0]
  {
    var ins := InsertFixed(g, ThirdFromTop(g.stack), R0);
    var g1 := ins.g.(regs := MarkSynced(AllocateReg(ins.g.regs, R0), R0));
    var got := GetFixed(g1, ThirdFromTop(g1.stack), R1);
    Emit(got.g.(regs := AllocateReg(got.g.regs, R1)), ins.chunks + [Lea(R0, 0)] + got.chunks)
  }

  /**
   * call()'s pop of the callee address.  Its callback writes every stale
   * register back, drops the three call slots, pushes a frame, jumps to the
   * callee and pops the frame.
   */
  function CallJump(g: Gen): (e: Emit)
    requires |g.stack| >= 1
    ensures e.g.stack == Drop(g.stack[..|g.stack| - 1], 3) && e.g.frames == g.frames
    ensures |e.chunks| > 0
  {
    var h := PopBegin(g);
    var wb := WriteBack(h.g, None);
    var pf := PushStackFrame(wb.g.(stack := Drop(wb.g.stack, 3)));
    var pp := PopStackFrame(pf.g);
    Emit(PopEnd(pp.g, h.reg, TopIndex(g.stack)), h.chunks + wb.chunks + pf.chunks + [Jump(h.reg)] + pp.chunks)
  }

  /**
   * call(): the setup and the jump; then the first chunk's value is set to the
   * number of chunks emitted so far, R1 is freed and the result is pushed from R0.
   */
  function Call(g: Gen): (e: Emit)
    requires |g.stack| >= 3
    ensures |e.chunks| > 0 && e.chunks[0].value == Some(|e.chunks|)
    ensures InsertFixed(g, ThirdFromTop(g.stack), R0).chunks == [] ==> e.chunks[0] == Lea(R0, |e.chunks|)
    ensures e.g.frames == g.frames
    ensures |e.g.stack| == |g.stack| - 2 && e.g.stack[..|g.stack| - 3] == g.stack[..|g.stack| - 3]
  {
    var setup := CallSetup(g);
    var jump := CallJump(setup.g);
    assert setup.g.stack[..|setup.g.stack| - 1] == g.stack;
    CallFinish(jump.g, setup.chunks + jump.chunks)
  }

  /** The end of call(): patch the return address, free R1, push the result from R0 (which emits nothing) and free R0. */
  function CallFinish(g: Gen, chunks: seq<Chunk>): (e: Emit)
    requires |chunks| > 0
    ensures e.chunks == Patch(chunks)
    ensures e.g.stack == g.stack + [NextSlot(g.stack)] && e.g.frames == g.frames
  {
    var pushed := PushFixed(g.(regs := FreeReg(g.regs, R1)), R0);
    Emit(pushed.g.(regs := FreeReg(pushed.g.regs, R0)), Patch(chunks) + pushed.chunks)
  }

  /** The chunks with the first one's value set to their number (the return address of call). */
  function Patch(chunks: seq<Chunk>): (r: seq<Chunk>)
    requires |chunks| > 0
    ensures |r| == |chunks| && r[1..] == chunks[1..]
    ensures r[0] == chunks[0].(value := Some(|chunks|))
  {
    chunks[0 := chunks[0].(value := Some(|chunks|))]
  }

  /** return(): get slot 0 into R0, then pop the top slot and jump to the register it was read into. */
  function Return(g: Gen): (e: Emit)
    requires |g.stack| >= 1
    ensures e.g.stack == g.stack[..|g.stack| - 1] && e.g.frames == g.frames && e.g.data == g.data
    ensures |e.chunks| > 0 && e.chunks[|e.chunks| - 1].op == JUMP
    ensures GetFixed(g, 0, R0).chunks <= e.chunks
  {
    var got := GetFixed(g, 0, R0);
    var h := PopBegin(got.g);
    Emit(PopEnd(h.g, h.reg, TopIndex(g.stack)), got.chunks + h.chunks + [Jump(h.reg)])
  }

  /**
   * entry(closureSize): pushes the return-address, argument and closure slots,
   * all at offset 0, and binds R0 and R1 to slots 0 and 1.  Emits nothing.
   */
  function EntryFrame(g: Gen, closureSize: int): (e: Emit)
    ensures e.chunks == []
    ensures e.g.stack == g.stack + [Slot(0, 1), Slot(0, 1), Slot(0, closureSize)]
    ensures e.g.regs[R0] == Some(Entry(Ref(None, Some([0])), true, false))
    ensures e.g.regs[R1] == Some(Entry(Ref(None, Some([1])), true, false))
    ensures forall k: Reg :: k != R0 && k != R1 ==> e.g.regs[k] == g.regs[k]
  {
    var rf := SetReg(SetReg(g.regs, R0, Ref(None, Some([0]))), R1, Ref(None, Some([1])));
    Emit(g.(stack := g.stack + [Slot(0, 1), Slot(0, 1), Slot(0, closureSize)], regs := rf), [])
  }

  // ------------------------------------------------------------ join, split

  /** The total size of some slots. */
  function SizeOf(slots: seq<Slot>): int {
    if slots == [] then 0 else slots[0].size + SizeOf(slots[1..])
  }

  /**
   * join(index, count): the slots from `index` (at most `count` of them, fewer at
   * the end of the stack) become one slot at the first one's offset whose size is
   * their total.
   */
  function Join(stack: seq<Slot>, index: nat, count: nat): (r: seq<Slot>)
    requires index < |stack| && count >= 1
    ensures var end := if index + count <= |stack| then index + count else |stack|;
            && |r| == |stack| - (end - index) + 1
            && r[..index] == stack[..index] && r[index + 1..] == stack[end..]
            && r[index] == Slot(stack[index].offset, SizeOf(stack[index..end]))
  {
    var end := if index + count <= |stack| then index + count else |stack|;
    stack[..index] + [Slot(stack[index].offset, SizeOf(stack[index..end]))] + stack[end..]
  }

  /** split(index, k): slot `index` becomes a slot of size k and one of the remaining size right after it. */
  function Split(stack: seq<Slot>, index: nat, k: int): (r: seq<Slot>)
    requires index < |stack|
    ensures |r| == |stack| + 1 && r[..index] == stack[..index] && r[index + 2..] == stack[index + 1..]
    ensures r[index] == Slot(stack[index].offset, k)
    ensures r[index + 1] == Slot(stack[index].offset + k, stack[index].size - k)
  {
    var s := stack[index];
    stack[..index] + [Slot(s.offset, k), Slot(s.offset + k, s.size - k)] + stack[index + 1..]
  }
}
