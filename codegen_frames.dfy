/**
 * What writeBack, findRegister's fallback and the frame-base reads leave
 * alone.  The operations that pick a register may write a weak register back
 * and reuse it, and every stack store or load goes through a register that
 * holds the frame base; these lemmas bound that churn: no register becomes
 * held, a register keeps its value or loses all its slots, the only STORE_REGs
 * are of registers that were stale, and a held register that mirrors no
 * frame base is left exactly as it was.
 */
module CodegenFrames {
  import opened Wrappers
  import opened Registers
  import opened Codegen

  /** Every STORE_REG in `chunks` stores one of the registers in `regs`. */
  ghost predicate StoresFrom(chunks: seq<Chunk>, regs: set<nat>) {
    forall c :: c in chunks && c.op == STORE_REG ==> c.reg1.Some? && c.reg1.value in regs
  }

  /** The slot indices written by the STORE_REGs of register `r`, in emission order. */
  function StoredSlots(chunks: seq<Chunk>, r: Reg): seq<Option<int>> {
    if chunks == [] then []
    else (if chunks[0].op == STORE_REG && chunks[0].reg1 == Some(r) then [chunks[0].value] else [])
         + StoredSlots(chunks[1..], r)
  }

  /** Slot indices as the value fields that a store to each of them carries. */
  function Offsets(idxs: seq<nat>): (r: seq<Option<int>>)
    ensures |r| == |idxs| && forall k :: 0 <= k < |idxs| ==> r[k] == Some(idxs[k] as int)
  {
    seq(|idxs|, k requires 0 <= k < |idxs| => Some(idxs[k] as int))
  }

  lemma {:induction false} StoredSlotsAppend(a: seq<Chunk>, b: seq<Chunk>, r: Reg)
    ensures StoredSlots(a + b, r) == StoredSlots(a, r) + StoredSlots(b, r)
    decreases |a|
  {
    if a == [] {
      assert a + b == b;
    } else {
      var head := if a[0].op == STORE_REG && a[0].reg1 == Some(r) then [a[0].value] else [];
      assert (a + b)[0] == a[0];
      assert (a + b)[1..] == a[1..] + b;
      StoredSlotsAppend(a[1..], b, r);
      calc {
        StoredSlots(a + b, r);
        head + StoredSlots(a[1..] + b, r);
        head + (StoredSlots(a[1..], r) + StoredSlots(b, r));
        (head + StoredSlots(a[1..], r)) + StoredSlots(b, r);
      }
    }
  }

  /** Chunks that store only registers other than `r` store nothing of `r`. */
  lemma {:induction false} StoredSlotsNone(chunks: seq<Chunk>, regs: set<nat>, r: Reg)
    requires StoresFrom(chunks, regs) && r !in regs
    ensures StoredSlots(chunks, r) == []
    decreases |chunks|
  {
    if chunks != [] {
      assert chunks[0] in chunks;
      assert forall c :: c in chunks[1..] ==> c in chunks;
      StoredSlotsNone(chunks[1..], regs, r);
    }
  }

  /** From `a` to `b` each register keeps its value, or claims no slot at all. */
  ghost predicate Keeps(a: RegFile, b: RegFile) {
    forall k: Reg :: SlotsOf(b[k]) == [] || (a[k].Some? && b[k].Some? && b[k].value.value == a[k].value.value)
  }

  /** Keeps, for every register but `r`. */
  ghost predicate KeepsExcept(a: RegFile, b: RegFile, r: Reg) {
    forall k: Reg :: k != r ==> SlotsOf(b[k]) == [] || (a[k].Some? && b[k].Some? && b[k].value.value == a[k].value.value)
  }

  /**
   * Register `r` is held and findRegister cannot hand it out for `u`: it does
   * not mirror the cell, nor claim the slot, that `u` asks for.
   */
  ghost predicate Avoids(rf: RegFile, r: Reg, u: Usecase) {
    && rf[r].Some? && !rf[r].value.weak
    && (u.DataUse? ==> rf[r].value.value.dataOffset != Some(u.offset))
    && (u.StackUse? ==> u.index !in SlotsOf(rf[r]))
  }

  /** Register `r` is held and does not mirror the frame-base cell. */
  ghost predicate Spared(rf: RegFile, r: Reg) {
    Avoids(rf, r, DataUse(StackBase))
  }

  /** A writeBack with this filter does not write `r` back. */
  ghost predicate Untouched(rf: RegFile, filter: Option<Reg>, r: Reg) {
    (filter.Some? && filter.value != r) || r !in StaleSet(rf)
  }

  /** Changing flags keeps every value. */
  lemma FlagsKeep(rf: RegFile, reg: Reg, stale: Option<bool>, weak: Option<bool>)
    ensures Keeps(rf, WithFlags(rf, reg, stale, weak))
  {
  }

  /** Stores of two chunk lists, each only of registers in `regs`. */
  lemma StoresFromConcat(a: seq<Chunk>, b: seq<Chunk>, regs: set<nat>)
    requires StoresFrom(a, regs) && StoresFrom(b, regs)
    ensures StoresFrom(a + b, regs)
  {
  }

  /** dataGet's rebinding of `reg` to a data cell: nothing else changes, only `reg` can become held. */
  lemma RebindEffects(rf: RegFile, reg: Reg, v: Ref)
    requires v.stackOffset.None?
    ensures var rf' := AllocateReg(MarkSynced(SetReg(rf, reg, v), reg), reg);
            && Pinned(rf') <= Pinned(rf) + {reg}
            && Keeps(rf, rf')
            && forall k: Reg :: k != reg ==> rf'[k] == rf[k]
  {
    var rf' := AllocateReg(MarkSynced(SetReg(rf, reg, v), reg), reg);
    assert SlotsOf(rf'[reg]) == [];
  }

  lemma KeepsTrans(a: RegFile, b: RegFile, c: RegFile)
    requires Keeps(a, b) && Keeps(b, c)
    ensures Keeps(a, c)
  {
    forall k: Reg ensures SlotsOf(c[k]) == [] || (a[k].Some? && c[k].Some? && c[k].value.value == a[k].value.value) {
      if SlotsOf(c[k]) != [] {
        assert SlotsOf(b[k]) == SlotsOf(c[k]);
      }
    }
  }

  // ---------------------------------------------------- the recursive family

  /**
   * writeBack from register `i` on: no register becomes held, each keeps its
   * value or loses its slots, only stale registers are stored to the stack,
   * and (while some register is not held) a spared register it does not
   * write back is left as it was.
   */
  lemma {:induction false} WriteBackFromEffects(g: Gen, filter: Option<Reg>, i: nat, r: Reg)
    requires i <= 8
    ensures var e := WriteBackFrom(g, filter, i);
            && Pinned(e.g.regs) <= Pinned(g.regs)
            && Keeps(g.regs, e.g.regs)
            && StoresFrom(e.chunks, StaleSet(g.regs))
            && (Spared(g.regs, r) && |Pinned(g.regs)| < 8 && Untouched(g.regs, filter, r) ==> e.g.regs[r] == g.regs[r])
    decreases StaleSet(g.regs), 1, 8 - i
  {
    if i < 8 {
      var flushed := Flush(g, filter, i);
      FlushEffects(g, filter, i, r);
      SubsetCard(Pinned(flushed.g.regs), Pinned(g.regs));
      WriteBackFromEffects(flushed.g, filter, i + 1, r);
      var rest := WriteBackFrom(flushed.g, filter, i + 1);
      assert WriteBackFrom(g, filter, i).chunks == flushed.chunks + rest.chunks;
    }
  }

  /** writeBack's visit of register `i`: the same four facts. */
  lemma {:induction false} FlushEffects(g: Gen, filter: Option<Reg>, i: Reg, r: Reg)
    ensures var e := Flush(g, filter, i);
            && Pinned(e.g.regs) <= Pinned(g.regs)
            && Keeps(g.regs, e.g.regs)
            && StoresFrom(e.chunks, StaleSet(g.regs))
            && (Spared(g.regs, r) && |Pinned(g.regs)| < 8 && Untouched(g.regs, filter, r) ==> e.g.regs[r] == g.regs[r])
    decreases StaleSet(g.regs), 1, 0
  {
    var x := g.regs[i];
    if x.Some? && x.value.stale && (filter.None? || filter.value == i) {
      var g1 := g.(regs := MarkSynced(g.regs, i));
      StaleSetEffects(g.regs, i, x.value.value);
      PinnedEffects(g.regs, i, x.value.value);
      assert Keeps(g.regs, g1.regs);
      var e := Flush(g, filter, i);
      if x.value.value.dataOffset.Some? {
        assert e == Emit(g1, [Store(i, x.value.value.dataOffset.value)]);
      } else if x.value.value.stackOffset.Some? {
        assert e == StoreSlots(g1, i, x.value.value.stackOffset.value);
        FlushSlotsEffects(g, g1, filter, i, r);
      } else {
        assert e == Emit(g1, []);
      }
    }
  }

  /** FlushEffects' slot-store branch: the register `i` is marked synced in g1, then its slots are stored. */
  lemma FlushSlotsEffects(g: Gen, g1: Gen, filter: Option<Reg>, i: Reg, r: Reg)
    requires g.regs[i].Some? && g.regs[i].value.stale && (filter.None? || filter.value == i)
    requires g.regs[i].value.value.stackOffset.Some?
    requires g1 == g.(regs := MarkSynced(g.regs, i))
    requires Pinned(g1.regs) == Pinned(g.regs) && Keeps(g.regs, g1.regs)
    requires StaleSet(g1.regs) == StaleSet(g.regs) - {i}
    ensures var e := StoreSlots(g1, i, g.regs[i].value.value.stackOffset.value);
            && Pinned(e.g.regs) <= Pinned(g.regs)
            && Keeps(g.regs, e.g.regs)
            && StoresFrom(e.chunks, StaleSet(g.regs))
            && (Spared(g.regs, r) && |Pinned(g.regs)| < 8 && Untouched(g.regs, filter, r) ==> e.g.regs[r] == g.regs[r])
    decreases StaleSet(g.regs), 0
  {
    var e := StoreSlots(g1, i, g.regs[i].value.value.stackOffset.value);
    StoreSlotsEffects(g1, i, g.regs[i].value.value.stackOffset.value, r);
    KeepsTrans(g.regs, g1.regs, e.g.regs);
    assert StaleSet(g1.regs) + {i} == StaleSet(g.regs);
    if Spared(g.regs, r) && |Pinned(g.regs)| < 8 && Untouched(g.regs, filter, r) {
      assert r != i;
      assert g1.regs[r] == g.regs[r];
    }
  }

  /**
   * The stores of register `reg` to the slots `idxs`: the same facts, and when
   * `reg` is itself not stale, its STORE_REGs are exactly one per index, in order.
   */
  lemma {:induction false} StoreSlotsEffects(g: Gen, reg: Reg, idxs: seq<nat>, r: Reg)
    ensures var e := StoreSlots(g, reg, idxs);
            && Pinned(e.g.regs) <= Pinned(g.regs)
            && Keeps(g.regs, e.g.regs)
            && StoresFrom(e.chunks, StaleSet(g.regs) + {reg})
            && (reg !in StaleSet(g.regs) ==> StoredSlots(e.chunks, reg) == Offsets(idxs))
            && (Spared(g.regs, r) && |Pinned(g.regs)| < 8 ==> e.g.regs[r] == g.regs[r])
    decreases StaleSet(g.regs), 2, |idxs|
  {
    if idxs != [] {
      var h := DataGetBegin(g, StackBase);
      DataGetBeginEffects(g, StackBase, r);
      var g1 := Release(h.g, h.reg);
      var rest := StoreSlots(g1, reg, idxs[1..]);
      StoreSlotsEffects(g1, reg, idxs[1..], r);
      var e := StoreSlots(g, reg, idxs);
      assert e == Emit(rest.g, h.chunks + [StoreReg(idxs[0], reg, h.reg)] + rest.chunks);
      StoreStepRegs(g, h, g1, rest, r);
      StoreStepChunks(g, reg, idxs, h, g1, rest);
    }
  }

  /** StoreSlots' step on the register file: one frame-base read, released, then the rest. */
  lemma StoreStepRegs(g: Gen, h: Held, g1: Gen, rest: Emit, r: Reg)
    requires g1 == Release(h.g, h.reg)
    requires Pinned(h.g.regs) <= Pinned(g.regs) + {h.reg} && Keeps(g.regs, h.g.regs)
    requires Spared(g.regs, r) && Avoids(g.regs, r, DataUse(StackBase)) && |Pinned(g.regs)| < 8 ==> h.reg != r && h.g.regs[r] == g.regs[r]
    requires Pinned(rest.g.regs) <= Pinned(g1.regs) && Keeps(g1.regs, rest.g.regs)
    requires Spared(g1.regs, r) && |Pinned(g1.regs)| < 8 ==> rest.g.regs[r] == g1.regs[r]
    ensures Pinned(rest.g.regs) <= Pinned(g.regs) && Keeps(g.regs, rest.g.regs)
    ensures Spared(g.regs, r) && |Pinned(g.regs)| < 8 ==> rest.g.regs[r] == g.regs[r]
  {
    PinnedEffects(h.g.regs, h.reg, Ref(None, None));
    FlagsKeep(h.g.regs, h.reg, None, Some(true));
    KeepsTrans(g.regs, h.g.regs, g1.regs);
    KeepsTrans(g.regs, g1.regs, rest.g.regs);
    assert Pinned(g1.regs) <= Pinned(g.regs);
    SubsetCard(Pinned(g1.regs), Pinned(g.regs));
    if Spared(g.regs, r) && |Pinned(g.regs)| < 8 {
      assert g1.regs[r] == g.regs[r];
    }
  }

  /** StoreSlots' step on the chunks: the frame-base read, one STORE_REG of `reg`, then the rest. */
  lemma StoreStepChunks(g: Gen, reg: Reg, idxs: seq<nat>, h: Held, g1: Gen, rest: Emit)
    requires idxs != [] && StaleSet(g1.regs) <= StaleSet(g.regs)
    requires StoresFrom(h.chunks, StaleSet(g.regs))
    requires StoresFrom(rest.chunks, StaleSet(g1.regs) + {reg})
    requires reg !in StaleSet(g1.regs) ==> StoredSlots(rest.chunks, reg) == Offsets(idxs[1..])
    ensures var chunks := h.chunks + [StoreReg(idxs[0], reg, h.reg)] + rest.chunks;
            && StoresFrom(chunks, StaleSet(g.regs) + {reg})
            && (reg !in StaleSet(g.regs) ==> StoredSlots(chunks, reg) == Offsets(idxs))
  {
    var store := [StoreReg(idxs[0], reg, h.reg)];
    var all := StaleSet(g.regs) + {reg};
    assert StoresFrom(rest.chunks, all);
    StoresFromConcat(h.chunks, store, all);
    StoresFromConcat(h.chunks + store, rest.chunks, all);
    if reg !in StaleSet(g.regs) {
      StoredSlotsAppend(h.chunks + store, rest.chunks, reg);
      StoredSlotsAppend(h.chunks, store, reg);
      StoredSlotsNone(h.chunks, StaleSet(g.regs), reg);
      assert StoredSlots(store, reg) == [Some(idxs[0] as int)];
      assert Offsets(idxs) == [Some(idxs[0] as int)] + Offsets(idxs[1..]);
    }
  }

  /**
   * The register Choose picks: no register becomes held, values are kept or
   * slots lost, only stale registers are stored, and a spared register that
   * `u` does not ask for is neither picked nor changed.
   */
  lemma {:induction false} ChooseEffects(g: Gen, u: Usecase, r: Reg)
    ensures var h := Choose(g, u);
            && Pinned(h.g.regs) <= Pinned(g.regs)
            && Keeps(g.regs, h.g.regs)
            && StoresFrom(h.chunks, StaleSet(g.regs))
            && (Spared(g.regs, r) && Avoids(g.regs, r, u) && |Pinned(g.regs)| < 8 ==> h.reg != r && h.g.regs[r] == g.regs[r])
    decreases StaleSet(g.regs), 1, 10
  {
    var found := FindRegister(g.regs, u);
    FindRegisterCases(g.regs, u, found);
    if found.None? {
      var reg := FindAny(g.regs);
      WriteBackFromEffects(g, Some(reg), 0, r);
      if Spared(g.regs, r) && |Pinned(g.regs)| < 8 {
        FindAnyAvailable(g.regs);
        assert r in Pinned(g.regs);
      }
    }
  }

  /** dataGet(d) up to its callback: the same facts; only the register it returns can become held. */
  lemma {:induction false} DataGetBeginEffects(g: Gen, d: nat, r: Reg)
    ensures var h := DataGetBegin(g, d);
            && Pinned(h.g.regs) <= Pinned(g.regs) + {h.reg}
            && Keeps(g.regs, h.g.regs)
            && StoresFrom(h.chunks, StaleSet(g.regs))
            && (Spared(g.regs, r) && Avoids(g.regs, r, DataUse(d)) && |Pinned(g.regs)| < 8 ==> h.reg != r && h.g.regs[r] == g.regs[r])
    decreases StaleSet(g.regs), 1, 11
  {
    var pre := Choose(g, DataUse(d));
    ChooseEffects(g, DataUse(d), r);
    var reg := pre.reg;
    var x := pre.g.regs[reg];
    var v := Ref(Some(d), None);
    var h := DataGetBegin(g, d);
    if x.None? || x.value.value.dataOffset != Some(d) {
      assert h == Held(pre.g.(regs := AllocateReg(MarkSynced(SetReg(pre.g.regs, reg, v), reg), reg)), pre.chunks + [Load(reg, d)], reg);
      RebindEffects(pre.g.regs, reg, v);
    } else {
      assert h == Held(pre.g.(regs := AllocateReg(pre.g.regs, reg)), pre.chunks, reg);
      PinnedEffects(pre.g.regs, reg, v);
      FlagsKeep(pre.g.regs, reg, None, Some(false));
    }
    KeepsTrans(g.regs, pre.g.regs, h.g.regs);
  }

  // ---------------------------------------------------------------- loadSlot

  /** A stack load through the frame base: the same facts, and a spared register is left as it was. */
  lemma LoadSlotEffects(g: Gen, index: nat, reg: Reg, r: Reg)
    ensures var e := LoadSlot(g, index, reg);
            && Pinned(e.g.regs) <= Pinned(g.regs)
            && Keeps(g.regs, e.g.regs)
            && StoresFrom(e.chunks, StaleSet(g.regs))
            && (Spared(g.regs, r) && |Pinned(g.regs)| < 8 ==> e.g.regs[r] == g.regs[r])
  {
    var h := DataGetBegin(g, StackBase);
    DataGetBeginEffects(g, StackBase, r);
    PinnedEffects(h.g.regs, h.reg, Ref(None, None));
  }
}
