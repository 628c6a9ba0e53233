/**
 * What the code generator promises about its bookkeeping: which register
 * owns which stack slot after push, set, get, pop and swap; what writeBack
 * emits; how frames are saved and restored; when the frame base is moved by
 * an immediate; and that split is undone by join.
 */
module CodegenProperties {
  import opened Wrappers
  import opened Registers
  import opened Codegen
  import opened CodegenFrames

  /** Register `r` claims stack slot `i`. */
  predicate Claims(rf: RegFile, r: Reg, i: nat) {
    i in SlotsOf(rf[r])
  }

  /** No stack slot is claimed by two registers. */
  ghost predicate UniqueOwners(rf: RegFile) {
    forall i: nat, k1: Reg, k2: Reg :: Claims(rf, k1, i) && Claims(rf, k2, i) ==> k1 == k2
  }

  /** `r` claims slot `i` and no other register does. */
  ghost predicate SoleOwner(rf: RegFile, i: nat, r: Reg) {
    Claims(rf, r, i) && forall k: Reg :: k != r ==> !Claims(rf, k, i)
  }

  /** Some chunk stores register `r` to stack slot index `x` (STORE_REG). */
  predicate StoresSlot(chunks: seq<Chunk>, r: Reg, x: nat) {
    exists c :: c in chunks && c.op == STORE_REG && c.reg1 == Some(r) && c.value == Some(x)
  }

  /** Two registers that are both the first match of a query are the same register. */
  lemma FirstMatchUnique(rf: RegFile, q: Query, a: Reg, b: Reg)
    requires FirstMatch(rf, q, a) && FirstMatch(rf, q, b)
    ensures a == b
  {
  }

  // ------------------------------------------------------------ join, split

  /** split(index, k) followed by join(index, 2) gives the original stack back. */
  lemma {:induction false} SplitJoinRoundTrip(stack: seq<Slot>, index: nat, k: int)
    requires index < |stack|
    ensures Join(Split(stack, index, k), index, 2) == stack
  {
    var s := Split(stack, index, k);
    var pair := s[index..index + 2];
    assert pair == [s[index], s[index + 1]];
    assert pair[1..] == [s[index + 1]];
    assert SizeOf(pair[1..][1..]) == 0;
    assert SizeOf(pair[1..]) == s[index + 1].size;
    assert SizeOf(pair) == k + (stack[index].size - k);
    assert stack == stack[..index] + [stack[index]] + stack[index + 1..];
  }

  // --------------------------------------------------------- set, push

  /**
   * set(index, reg): afterwards `reg` claims `index`, the register that claimed it
   * before no longer does, and every other claim is as it was.  Starting from a
   * register file where no slot has two owners, `reg` is then the slot's only
   * owner and still no slot has two owners.
   */
  lemma SetFixedOwnership(g: Gen, index: nat, reg: Reg)
    requires UniqueOwners(g.regs)
    ensures var rf := SetFixed(g, index, reg).g.regs;
            && (forall k: Reg, j: nat :: Claims(rf, k, j) <==> (k == reg && j == index) || (j != index && Claims(g.regs, k, j)))
            && SoleOwner(rf, index, reg)
            && UniqueOwners(rf)
  {
    var rf := SetFixed(g, index, reg).g.regs;
    var prev := FindRegister(g.regs, StackUse(index));
    FindRegisterCases(g.regs, StackUse(index), prev);
    var own := if g.regs[reg].Some? then g.regs[reg].value.value else Ref(None, Some([]));
    assert own.stackOffset.GetOr([]) == SlotsOf(g.regs[reg]);
    if prev.Some? && g.regs[prev.value].Some? {
      var p := prev.value;
      assert Claims(g.regs, p, index) by {
        if forall k: Reg :: !Matches(g.regs[k], HoldsSlot(index)) {
          assert false;
        }
      }
      var rest := Delete(SlotsOf(g.regs[p]), index);
      var rf1 := if rest == [] then UnsetReg(g.regs, p) else UpdateReg(g.regs, p, WithSlots(g.regs[p], rest));
      var slots := Insert(if p == reg then rest else own.stackOffset.GetOr([]), index);
      assert rf == UpdateReg(rf1, reg, own.(stackOffset := Some(slots)));
      assert SlotsOf(rf[reg]) == slots;
      assert forall j :: j in SlotsOf(rf1[p]) <==> j in rest;
      forall k: Reg, j: nat
        ensures Claims(rf, k, j) <==> (k == reg && j == index) || (j != index && Claims(g.regs, k, j))
      {
        if k != reg && k != p {
          assert rf[k] == g.regs[k];
          if j == index {
            assert !Claims(g.regs, k, index);
          }
        }
      }
    } else {
      assert forall k: Reg :: !Claims(g.regs, k, index) by {
        if exists k: Reg :: Matches(g.regs[k], HoldsSlot(index)) {
          assert false;
        }
      }
      var slots := Insert(own.stackOffset.GetOr([]), index);
      assert rf == UpdateReg(g.regs, reg, own.(stackOffset := Some(slots)));
      assert SlotsOf(rf[reg]) == slots;
    }
  }

  /**
   * push(reg): the new slot follows the old top and emits nothing; `reg` becomes
   * the new slot's only owner.
   */
  lemma PushFixedOwnership(g: Gen, reg: Reg)
    requires UniqueOwners(g.regs)
    ensures var e := PushFixed(g, reg);
            && e.chunks == []
            && e.g.stack == g.stack + [NextSlot(g.stack)]
            && SoleOwner(e.g.regs, |g.stack|, reg)
            && UniqueOwners(e.g.regs)
  {
    SetFixedOwnership(g.(stack := g.stack + [NextSlot(g.stack)]), |g.stack|, reg);
  }

  // ------------------------------------------------------------------- get

  /**
   * get(index, reg) first writes back only `reg` and then fills it (Fill).  When
   * `reg` claims the slot once written back, nothing follows the write-back and
   * `reg` is synced.
   */
  lemma GetFixedClaimed(g: Gen, index: nat, reg: Reg)
    requires Claims(WriteBack(g, Some(reg)).g.regs, reg, index)
    ensures GetFixed(g, index, reg) == WriteBack(g, Some(reg))
    ensures GetFixed(g, index, reg).g.regs[reg].Some? && !GetFixed(g, index, reg).g.regs[reg].value.stale
  {
  }

  /**
   * get(index, reg) after its write-back `wb`, when another register `p` is the
   * first to claim the slot: one register move from `p`; `p` gives the slot up
   * (and is unbound when it has no slot left); `reg` claims only the slot and
   * inherits `p`'s stale flag.
   */
  lemma GetFixedMove(wb: Emit, index: nat, reg: Reg, p: Reg)
    requires p != reg && !Claims(wb.g.regs, reg, index) && FirstMatch(wb.g.regs, HoldsSlot(index), p)
    ensures var e := Fill(wb, index, reg);
            && e.chunks == wb.chunks + [Move(reg, p)]
            && !Claims(e.g.regs, p, index)
            && (Delete(SlotsOf(wb.g.regs[p]), index) == [] ==> e.g.regs[p] == None)
            && (Delete(SlotsOf(wb.g.regs[p]), index) != [] ==>
                  e.g.regs[p] == Some(wb.g.regs[p].value.(value := wb.g.regs[p].value.value.(stackOffset := Some(Delete(SlotsOf(wb.g.regs[p]), index))))))
            && e.g.regs[reg] == Some(Entry(Ref(None, Some([index])), wb.g.regs[p].value.stale, false))
            && forall k: Reg :: k != reg && k != p ==> e.g.regs[k] == wb.g.regs[k]
  {
    var prev := FindRegister(wb.g.regs, StackUse(index));
    FindRegisterCases(wb.g.regs, StackUse(index), prev);
    FirstMatchUnique(wb.g.regs, HoldsSlot(index), prev.value, p);
  }

  /**
   * get(index, reg) after its write-back `wb`, when no register claims the slot
   * and `reg` is the first free register: findRegister gives `reg` itself, so
   * after the rebinding the move path runs on `reg`.  It emits a move of `reg`
   * onto itself, and `reg`, whose only slot is the one given up, ends unbound.
   */
  lemma GetFixedSelfMove(wb: Emit, index: nat, reg: Reg)
    requires (forall k: Reg :: !Claims(wb.g.regs, k, index)) && FirstMatch(wb.g.regs, IsFree, reg)
    ensures var e := Fill(wb, index, reg);
            && e.chunks == wb.chunks + [Move(reg, reg)]
            && e.g.regs[reg] == None
            && forall k: Reg :: k != reg ==> e.g.regs[k] == wb.g.regs[k]
  {
    var prev := FindRegister(wb.g.regs, StackUse(index));
    assert forall k: Reg :: !Matches(wb.g.regs[k], HoldsSlot(index)) by {
      forall k: Reg ensures !Matches(wb.g.regs[k], HoldsSlot(index)) {
        assert !Claims(wb.g.regs, k, index);
      }
    }
    assert wb.g.regs[reg].None?;
    FindRegisterCases(wb.g.regs, StackUse(index), prev);
    FirstMatchUnique(wb.g.regs, IsFree, prev.value, reg);
    assert Delete([index], index) == [];
  }

  /**
   * get(index, reg) after its write-back `wb`, when no register claims the slot
   * and `reg` is not the first free register: a load through the frame base,
   * ending in a LOAD_REG of `reg` at the slot's offset; `reg` is left synced.
   */
  lemma GetFixedLoad(wb: Emit, index: nat, reg: Reg)
    requires (forall k: Reg :: !Claims(wb.g.regs, k, index)) && !FirstMatch(wb.g.regs, IsFree, reg)
    ensures var e := Fill(wb, index, reg);
            && |e.chunks| > |wb.chunks| && e.chunks[..|wb.chunks|] == wb.chunks
            && e.chunks[|e.chunks| - 1].op == LOAD_REG
            && e.chunks[|e.chunks| - 1].reg1 == Some(reg)
            && e.chunks[|e.chunks| - 1].value == Some(SlotAt(wb.g.stack, index).offset)
            && (e.g.regs[reg].Some? ==> !e.g.regs[reg].value.stale)
            && (|Pinned(wb.g.regs)| < 7 ==> e.g.regs[reg] == Some(Entry(Ref(None, Some([index])), false, false)))
            && (SlotsOf(e.g.regs[reg]) == [] || e.g.regs[reg].value.value == Ref(None, Some([index])))
            && Pinned(e.g.regs) <= Pinned(wb.g.regs) + {reg}
            && KeepsExcept(wb.g.regs, e.g.regs, reg)
  {
    var prev := FindRegister(wb.g.regs, StackUse(index));
    assert forall k: Reg :: !Matches(wb.g.regs[k], HoldsSlot(index)) by {
      forall k: Reg ensures !Matches(wb.g.regs[k], HoldsSlot(index)) {
        assert !Claims(wb.g.regs, k, index);
      }
    }
    FindRegisterCases(wb.g.regs, StackUse(index), prev);
    var g1 := wb.g.(regs := SetReg(wb.g.regs, reg, Ref(None, Some([index]))));
    assert !(prev.Some? && g1.regs[prev.value].Some?) by {
      if prev.Some? {
        assert prev.value != reg;
        assert g1.regs[prev.value] == wb.g.regs[prev.value];
      }
    }
    var loaded := LoadSlot(g1, index, reg);
    LoadSlotEffects(g1, index, reg, reg);
    assert Fill(wb, index, reg) == Emit(loaded.g.(regs := MarkSynced(loaded.g.regs, reg)), wb.chunks + loaded.chunks);
    LoadedRegister(wb.g.regs, g1.regs, loaded.g.regs, index, reg);
  }

  /** The register file around get's load: `reg` bound afresh to the slot (`mid`), then a stack load. */
  lemma LoadedRegister(before: RegFile, mid: RegFile, loaded: RegFile, index: nat, reg: Reg)
    requires mid == SetReg(before, reg, Ref(None, Some([index])))
    requires Pinned(loaded) <= Pinned(mid) && Keeps(mid, loaded)
    requires Spared(mid, reg) && |Pinned(mid)| < 8 ==> loaded[reg] == mid[reg]
    ensures var after := MarkSynced(loaded, reg);
            && (after[reg].Some? ==> !after[reg].value.stale)
            && (|Pinned(before)| < 7 ==> after[reg] == Some(Entry(Ref(None, Some([index])), false, false)))
            && (SlotsOf(after[reg]) == [] || after[reg].value.value == Ref(None, Some([index])))
            && Pinned(after) <= Pinned(before) + {reg}
            && KeepsExcept(before, after, reg)
  {
    var v := Ref(None, Some([index]));
    var after := MarkSynced(loaded, reg);
    PinnedEffects(before, reg, v);
    PinnedEffects(loaded, reg, v);
    assert forall k: Reg :: k != reg ==> after[k] == loaded[k] && before[k] == mid[k];
    if |Pinned(before)| < 7 {
      AddOneCard(Pinned(before), reg);
    }
  }

  // --------------------------------------------------------------- writeBack

  /** Visiting registers other than the filter emits and changes nothing. */
  lemma {:induction false} WriteBackSkips(g: Gen, r: Reg, i: nat)
    requires i <= r
    ensures WriteBackFrom(g, Some(r), i) == WriteBackFrom(g, Some(r), r)
    decreases r - i
  {
    if i < r {
      WriteBackSkips(g, r, i + 1);
    }
  }

  /** writeBack(r) does exactly what visiting `r` alone does. */
  lemma WriteBackOnly(g: Gen, r: Reg)
    ensures WriteBack(g, Some(r)) == Flush(g, Some(r), r)
  {
    WriteBackSkips(g, r, 0);
  }

  /** With no stale register, writeBack emits nothing and changes nothing. */
  lemma {:induction false} WriteBackClean(g: Gen, filter: Option<Reg>, i: nat)
    requires i <= 8 && StaleSet(g.regs) == {}
    ensures WriteBackFrom(g, filter, i) == Emit(g, [])
    decreases 8 - i
  {
    if i < 8 {
      assert i !in StaleSet(g.regs);
      WriteBackClean(g, filter, i + 1);
    }
  }

  /**
   * The stores for a stack-bound register that is no longer stale: exactly one
   * STORE_REG of it per slot index, in the order of its slot set; every other
   * STORE_REG is of a register that was stale.
   */
  lemma StoreSlotsStores(g: Gen, reg: Reg, idxs: seq<nat>)
    requires reg !in StaleSet(g.regs)
    ensures StoredSlots(StoreSlots(g, reg, idxs).chunks, reg) == Offsets(idxs)
    ensures forall x :: x in idxs ==> StoresSlot(StoreSlots(g, reg, idxs).chunks, reg, x)
    ensures StoresFrom(StoreSlots(g, reg, idxs).chunks, StaleSet(g.regs) + {reg})
  {
    var chunks := StoreSlots(g, reg, idxs).chunks;
    StoreSlotsEffects(g, reg, idxs, 0);
    forall x | x in idxs
      ensures StoresSlot(chunks, reg, x)
    {
      var k :| 0 <= k < |idxs| && idxs[k] == x;
      StoredSlotsWitness(chunks, reg, k);
    }
  }

  /** The k-th store a chunk list makes of `r` is one of its chunks. */
  lemma {:induction false} StoredSlotsWitness(chunks: seq<Chunk>, r: Reg, k: nat)
    requires k < |StoredSlots(chunks, r)|
    ensures exists c :: c in chunks && c.op == STORE_REG && c.reg1 == Some(r) && c.value == StoredSlots(chunks, r)[k]
    decreases |chunks|
  {
    var head := if chunks[0].op == STORE_REG && chunks[0].reg1 == Some(r) then [chunks[0].value] else [];
    if k < |head| {
      assert chunks[0] in chunks;
    } else {
      StoredSlotsWitness(chunks[1..], r, k - |head|);
      var c :| c in chunks[1..] && c.op == STORE_REG && c.reg1 == Some(r) && c.value == StoredSlots(chunks[1..], r)[k - |head|];
      assert c in chunks;
    }
  }

  /**
   * writeBack's visit of register `r`: nothing unless it is stale; a stale
   * data-bound register is synced and stored with one STORE at its cell; a stale
   * stack-bound register is synced and stored with exactly one STORE_REG per
   * slot index, in order, and any other STORE_REG (of a weak register reused to
   * read the frame base) is of a register that was stale.
   */
  lemma FlushCases(g: Gen, filter: Option<Reg>, r: Reg)
    requires filter.None? || filter.value == r
    ensures r !in StaleSet(g.regs) ==> Flush(g, filter, r) == Emit(g, [])
    ensures r in StaleSet(g.regs) && g.regs[r].value.value.dataOffset.Some? ==>
              Flush(g, filter, r) == Emit(g.(regs := MarkSynced(g.regs, r)), [Store(r, g.regs[r].value.value.dataOffset.value)])
    ensures r in StaleSet(g.regs) && g.regs[r].value.value.dataOffset.None? ==>
              && StoredSlots(Flush(g, filter, r).chunks, r) == Offsets(SlotsOf(g.regs[r]))
              && StoresFrom(Flush(g, filter, r).chunks, StaleSet(g.regs))
    ensures r in StaleSet(g.regs) ==> r !in StaleSet(Flush(g, filter, r).g.regs)
  {
    if r in StaleSet(g.regs) && g.regs[r].value.value.dataOffset.None? {
      var g1 := g.(regs := MarkSynced(g.regs, r));
      StaleSetEffects(g.regs, r, g.regs[r].value.value);
      if g.regs[r].value.value.stackOffset.Some? {
        StoreSlotsEffects(g1, r, g.regs[r].value.value.stackOffset.value, r);
      } else {
        assert Flush(g, filter, r) == Emit(g1, []);
      }
    }
  }

  // -------------------------------------------------------------------- pop

  /**
   * pop's unbinding: when at most one register claims the slot, none claims it
   * afterwards; that register is unbound and every other one is unchanged.
   */
  lemma UnsetHolderClears(rf: RegFile, index: nat)
    requires forall k1: Reg, k2: Reg :: Claims(rf, k1, index) && Claims(rf, k2, index) ==> k1 == k2
    ensures forall k: Reg :: !Claims(UnsetHolder(rf, index), k, index)
    ensures forall k: Reg :: UnsetHolder(rf, index)[k] == rf[k] || (Claims(rf, k, index) && UnsetHolder(rf, index)[k] == None)
  {
    var prev := FindRegister(rf, StackUse(index));
    FindRegisterCases(rf, StackUse(index), prev);
    if exists k: Reg :: Matches(rf[k], HoldsSlot(index)) {
      var p := prev.value;
      var rf' := UnsetHolder(rf, index);
      assert rf' == UnsetReg(rf, p);
      forall k: Reg ensures !Claims(rf', k, index) {
        if k != p {
          assert rf'[k] == rf[k];
          if Claims(rf, k, index) {
            assert Claims(rf, p, index);
          }
        }
      }
    } else {
      assert forall k: Reg :: !Claims(rf, k, index) by {
        forall k: Reg ensures !Claims(rf, k, index) {
          assert !Matches(rf[k], HoldsSlot(index));
        }
      }
    }
  }

  // ------------------------------------------------------------------- swap

  /**
   * swap(i, j) emits only its two gets' chunks.  The register held for `i` claims
   * `j` and the one held for `j` claims `i` (when they differ), both are stale,
   * and no other register changes.
   */
  lemma SwapRelabels(g: Gen, i: nat, j: nat)
    ensures var h1 := GetBegin(g, i);
            var h2 := GetBegin(h1.g, j);
            var e := Swap(g, i, j);
            && e.chunks == h1.chunks + h2.chunks
            && e.g.regs[h1.reg].Some? && e.g.regs[h1.reg].value.stale
            && e.g.regs[h2.reg].Some? && e.g.regs[h2.reg].value.stale
            && (h1.reg != h2.reg ==> Claims(e.g.regs, h1.reg, j) && Claims(e.g.regs, h2.reg, i))
            && (h1.reg != h2.reg && i != j ==> !Claims(e.g.regs, h1.reg, i) && !Claims(e.g.regs, h2.reg, j))
            && forall k: Reg :: k != h1.reg && k != h2.reg ==> e.g.regs[k] == h2.g.regs[k]
  {
  }

  // ------------------------------------------------------- frames, frame base

  /**
   * pushStackFrame clears the registers and advances the frame base by the old
   * stack size n: no chunk for n == 0, ADD R0, R0, #n for an n that fits the
   * immediate field, else n is put in the data segment, loaded into R0 and
   * added through R1, which holds the frame-base cell.
   */
  lemma PushStackFrameCases(g: Gen)
    ensures forall k: Reg :: SlotsOf(PushStackFrame(g).g.regs[k]) == []
    ensures |g.stack| == 0 ==> PushStackFrame(g).chunks == [] && PushStackFrame(g).g.regs == Empty
    ensures 0 < |g.stack| <= 15 ==> PushStackFrame(g).chunks == [AddImm(R0, R0, |g.stack|)]
    ensures |g.stack| > 15 && |g.data| > 0 ==>
              PushStackFrame(g).chunks == [Load(R0, |g.data|), AddRegs(R0, R1, R0)]
  {
    var n := |g.stack|;
    var g1 := g.(frames := g.frames + [g.stack], stack := [], regs := Empty);
    ImmediateRange(n);
    if 0 < n <= 15 {
      FindFromSpec(Empty, IsFree, 0, FindReg(Empty, IsFree));
      FindFromSpec(Empty, HoldsData(StackBase), 0, FindReg(Empty, HoldsData(StackBase)));
    }
    if n > 15 {
      PushLoaded(g1, n);
    }
  }

  /** The data-segment branch of updateStackBase on cleared registers: the delta lands in R0, the frame base in R1. */
  lemma PushLoaded(g1: Gen, n: int)
    requires g1.regs == Empty && !(-16 <= n <= 15)
    ensures forall k: Reg :: SlotsOf(UpdateStackBase(g1, n).g.regs[k]) == []
    ensures |g1.data| > 0 ==> UpdateStackBase(g1, n).chunks == [Load(R0, |g1.data|), AddRegs(R0, R1, R0)]
  {
    ImmediateRange(n);
    var h1 := DataGetBegin(g1.(data := g1.data + [n]), |g1.data|);
    GetOnEmpty(g1.(data := g1.data + [n]), |g1.data|);
    SetAfterLoad(h1.g, |g1.data|);
  }

  /** dataGet on cleared registers loads the cell into R0. */
  lemma GetOnEmpty(g: Gen, index: nat)
    requires g.regs == Empty
    ensures var h := DataGetBegin(g, index);
            h.reg == R0 && h.chunks == [Load(R0, index)]
            && h.g.regs == Empty[R0 := Some(Entry(Ref(Some(index), None), false, false))]
  {
    FindFromSpec(Empty, IsFree, 0, FindReg(Empty, IsFree));
    FindFromSpec(Empty, HoldsData(index), 0, FindReg(Empty, HoldsData(index)));
  }

  /** dataSet of the frame-base cell when only R0 is bound, to another cell: R1 is taken, with no chunks. */
  lemma SetAfterLoad(g: Gen, index: nat)
    requires g.regs == Empty[R0 := Some(Entry(Ref(Some(index), None), false, false))]
    ensures forall k: Reg :: SlotsOf(DataSetBegin(g, StackBase).g.regs[k]) == []
    ensures index != StackBase ==> DataSetBegin(g, StackBase).reg == R1 && DataSetBegin(g, StackBase).chunks == []
  {
    var rf := g.regs;
    FindFromSpec(rf, IsFree, 0, FindReg(rf, IsFree));
    FindFromSpec(rf, HoldsData(StackBase), 0, FindReg(rf, HoldsData(StackBase)));
  }

  /** popStackFrame with a saved frame of m slots: the frame base retreats by m (ADD with #-m, or -m loaded from the data segment). */
  lemma PopStackFrameCases(g: Gen)
    requires |g.frames| > 0
    ensures var m := |g.frames[|g.frames| - 1]|;
            m == 0 ==> PopStackFrame(g).chunks == [] && PopStackFrame(g).g.regs == g.regs
    ensures var m := |g.frames[|g.frames| - 1]|;
            var e := PopStackFrame(g);
            0 < m <= 16 ==>
              && |e.chunks| > 0
              && var c := e.chunks[|e.chunks| - 1];
              && c.op == ADD && c.value == Some(-m) && c.reg1.Some? && c.reg2 == c.reg1
              && Matches(e.g.regs[c.reg1.value], HoldsData(StackBase))
    ensures var m := |g.frames[|g.frames| - 1]|;
            var e := PopStackFrame(g);
            m > 16 ==> e.g.data == g.data + [-m] && |e.chunks| > 0 && e.chunks[|e.chunks| - 1].op == ADD
  {
    var top := g.frames[|g.frames| - 1];
    UpdateStackBaseCases(g.(stack := top, frames := g.frames[..|g.frames| - 1]), Back(|top|));
  }

  /** popStackFrame after pushStackFrame restores the stack and the saved frames. */
  lemma FrameRoundTrip(g: Gen)
    ensures var pf := PushStackFrame(g);
            |pf.g.frames| > 0 &&
            var pp := PopStackFrame(pf.g);
            pp.g.stack == g.stack && pp.g.frames == g.frames
  {
  }

  /**
   * The data the frame round trip leaves: +n and then -n appended, each only
   * when it does not fit the immediate field (Spilled's own contract gives the
   * ranges: n is kept for n > 15, -n for n > 16).
   */
  lemma FrameDataRoundTrip(g: Gen)
    ensures var n := |g.stack|;
            var pf := PushStackFrame(g);
            |pf.g.frames| > 0 &&
            var pp := PopStackFrame(pf.g);
            pp.g.data == g.data + Spilled(n) + Spilled(Back(n))
  {
    var pf := PushStackFrame(g);
    assert pf.g.frames[|pf.g.frames| - 1] == g.stack;
  }

  /** For a stack that fits the immediate field the round trip's two frame-base adds are #n and #-n. */
  lemma FrameDeltasCancel(g: Gen, pf: Emit, pp: Emit)
    requires 0 < |g.stack| <= 15
    requires pf == PushStackFrame(g)
    requires |pf.g.frames| > 0 && pp == PopStackFrame(pf.g)
    ensures pf.chunks == [AddImm(R0, R0, |g.stack|)]
    ensures |pp.chunks| > 0 && pp.chunks[|pp.chunks| - 1].value == Some(-|g.stack|)
    ensures pp.chunks[|pp.chunks| - 1].op == ADD
  {
    assert pf.g.frames[|pf.g.frames| - 1] == g.stack;
    PushStackFrameCases(g);
    PopStackFrameCases(pf.g);
  }

  /** Saving an empty stack clears the registers and emits nothing: the frame base does not move. */
  lemma PushEmptyFrame(g: Gen)
    requires g.stack == []
    ensures PushStackFrame(g) == Emit(g.(frames := g.frames + [[]], regs := Empty), [])
  {
  }

  /**
   * updateStackBase(d): nothing for 0; for -16 <= d <= 15 one add-immediate of d
   * on a register bound to the frame-base cell; otherwise d is appended to the
   * data segment and the last chunk adds two registers.
   */
  lemma UpdateStackBaseCases(g: Gen, d: int)
    ensures d == 0 ==> UpdateStackBase(g, d) == Emit(g, [])
    ensures d != 0 && -16 <= d <= 15 ==>
              var e := UpdateStackBase(g, d);
              && e.g.data == g.data && |e.chunks| > 0
              && var c := e.chunks[|e.chunks| - 1];
              && c.op == ADD && c.value == Some(d) && c.reg3 == None && c.reg1.Some? && c.reg2 == c.reg1
              && Matches(e.g.regs[c.reg1.value], HoldsData(StackBase))
    ensures !(-16 <= d <= 15) ==>
              var e := UpdateStackBase(g, d);
              && e.g.data == g.data + [d] && |e.chunks| > 0
              && var c := e.chunks[|e.chunks| - 1];
              && c.op == ADD && c.value == None && c.reg3.Some? && c.reg3 == c.reg1
  {
    ImmediateRange(d);
  }
}
