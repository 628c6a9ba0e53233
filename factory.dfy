/**
 * InstructionFactory: the code generator as an object.  Its register file,
 * operand stack, saved frames and data segment are fields that its methods
 * change in place, one step at a time as the source does, and each method is
 * proved to leave the object in the state, and to return the chunks, that the
 * matching function of module Codegen gives for the old state.
 */
module Factory {
  import opened Wrappers
  import opened Registers
  import opened Codegen

  class InstructionFactory {
    const registers: RegisterState
    var stack: seq<Slot>
    var stackFrames: seq<seq<Slot>>
    /** The data segment that pushData appends to. */
    var data: seq<int>

    /** The register file is well formed and data cell 0, the frame base (stackBaseDataOffset), is reserved. */
    ghost predicate Valid()
      reads this, registers
    {
      registers.Valid() && |data| > StackBase
    }

    /** The whole state as a value. */
    function Model(): Gen
      requires Valid()
      reads this, registers, registers.state
    {
      Gen(registers.Value(), stack, stackFrames, data)
    }

    /**
     * A generator with every register free, an empty stack and no saved frames
     * over the given data segment, whose cell 0 already holds the frame base.
     */
    constructor (data: seq<int>)
      requires |data| > StackBase
      ensures Valid() && fresh(registers) && fresh(registers.state)
      ensures Model() == Gen(Empty, [], [], data)
    {
      registers := new RegisterState();
      stack := [];
      stackFrames := [];
      this.data := data;
    }

    /** pushData: appends the words to the data segment and returns the offset of the first. */
    method PushData(words: seq<int>) returns (offset: nat)
      requires Valid()
      modifies this
      ensures Valid() && offset != StackBase
      ensures offset == |old(data)| && data == old(data) + words
      ensures stack == old(stack) && stackFrames == old(stackFrames)
    {
      offset := |data|;
      data := data + words;
    }

    // ------------------------------------------------------------ registers

    method FindRegister(u: Usecase) returns (r: Option<Reg>)
      requires Valid()
      ensures r == Codegen.FindRegister(Model().regs, u)
    {
      var free := registers.Find(IsFree);
      match u {
        case DataUse(d) =>
          var held := registers.Find(HoldsData(d));
          r := if held.Some? then held else free;
        case StackUse(i) =>
          var held := registers.Find(HoldsSlot(i));
          r := if held.Some? then held else free;
        case AnyUse =>
          var weak := registers.Find(IsWeak);
          r := if free.Some? then free else weak;
      }
    }

    /** findRegister() where the source relies on finding a register (register 0 when none is free or weak). */
    method FindAny() returns (r: Reg)
      requires Valid()
      ensures r == Codegen.FindAny(Model().regs)
    {
      var found := FindRegister(AnyUse);
      r := found.GetOr(0);
    }

    method Release(r: Reg)
      requires Valid()
      modifies registers.state
      ensures Valid() && Model() == Codegen.Release(old(Model()), r)
    {
      registers.Free(r);
    }

    method Choose(u: Usecase) returns (reg: Reg, chunks: seq<Chunk>)
      requires Valid()
      modifies registers.state
      ensures Valid() && Held(Model(), chunks, reg) == Codegen.Choose(old(Model()), u)
      decreases StaleSet(registers.Value()), 1, 10
    {
      var found := FindRegister(u);
      if found.Some? {
        reg, chunks := found.value, [];
      } else {
        reg := FindAny();
        chunks := WriteBack(Some(reg));
      }
    }

    // ------------------------------------------------------------- writeBack

    method WriteBack(filter: Option<Reg>) returns (chunks: seq<Chunk>)
      requires Valid()
      modifies registers.state
      ensures Valid() && Emit(Model(), chunks) == Codegen.WriteBack(old(Model()), filter)
      decreases StaleSet(registers.Value()), 1, 9
    {
      chunks := [];
      var i := 0;
      while i < 8
        invariant 0 <= i <= 8 && Valid()
        invariant StaleSet(Model().regs) <= StaleSet(old(Model()).regs)
        invariant var rest := WriteBackFrom(Model(), filter, i);
                  Emit(rest.g, chunks + rest.chunks) == Codegen.WriteBack(old(Model()), filter)
      {
        var flushed := Flush(filter, i);
        ghost var rest := WriteBackFrom(Model(), filter, i + 1);
        AppendAssoc(chunks, flushed, rest.chunks);
        chunks := chunks + flushed;
        i := i + 1;
      }
    }

    /** writeBack's visit of register `i`. */
    method Flush(filter: Option<Reg>, i: Reg) returns (chunks: seq<Chunk>)
      requires Valid()
      modifies registers.state
      ensures Valid() && Emit(Model(), chunks) == Codegen.Flush(old(Model()), filter, i)
      decreases StaleSet(registers.Value()), 1, 0
    {
      chunks := [];
      var x := registers.Get(i);
      if x.Some? && x.value.stale && (filter.None? || filter.value == i) {
        ghost var before := Model();
        registers.Synced(i);
        StaleSetEffects(before.regs, i, x.value.value);
        if x.value.value.dataOffset.Some? {
          chunks := [Store(i, x.value.value.dataOffset.value)];
        } else if x.value.value.stackOffset.Some? {
          chunks := StoreSlots(i, x.value.value.stackOffset.value);
        }
      }
    }

    /** The stores writeBack emits for a stack-bound register: one STORE_REG per slot index, each inside dataGet. */
    method StoreSlots(reg: Reg, idxs: seq<nat>) returns (chunks: seq<Chunk>)
      requires Valid()
      modifies registers.state
      ensures Valid() && Emit(Model(), chunks) == Codegen.StoreSlots(old(Model()), reg, idxs)
      decreases StaleSet(registers.Value()), 2, |idxs|
    {
      chunks := [];
      var k := 0;
      while k < |idxs|
        invariant 0 <= k <= |idxs| && Valid()
        invariant StaleSet(Model().regs) <= StaleSet(old(Model()).regs)
        invariant var rest := Codegen.StoreSlots(Model(), reg, idxs[k..]);
                  Emit(rest.g, chunks + rest.chunks) == Codegen.StoreSlots(old(Model()), reg, idxs)
      {
        var base, loaded := DataGetBegin(StackBase);
        var step := loaded + [StoreReg(idxs[k], reg, base)];
        Release(base);
        assert idxs[k..][1..] == idxs[k + 1..];
        ghost var rest := Codegen.StoreSlots(Model(), reg, idxs[k + 1..]);
        AppendAssoc(chunks, step, rest.chunks);
        chunks := chunks + step;
        k := k + 1;
      }
    }

    // ------------------------------------------------------ dataGet, dataSet

    method DataGetBegin(index: nat) returns (reg: Reg, chunks: seq<Chunk>)
      requires Valid()
      modifies registers.state
      ensures Valid() && Held(Model(), chunks, reg) == Codegen.DataGetBegin(old(Model()), index)
      decreases StaleSet(registers.Value()), 1, 11
    {
      reg, chunks := Choose(DataUse(index));
      var x := registers.Get(reg);
      if x.None? || x.value.value.dataOffset != Some(index) {
        chunks := chunks + [Load(reg, index)];
        ghost var pre := Model().regs;
        registers.Set(reg, Ref(Some(index), None));
        StaleSetEffects(pre, reg, Ref(Some(index), None));
        ghost var bound := Model().regs;
        registers.Synced(reg);
        StaleSetEffects(bound, reg, Ref(Some(index), None));
      }
      ghost var before := Model().regs;
      registers.Allocate(reg);
      StaleSetEffects(before, reg, Ref(Some(index), None));
    }

    method DataGetFixed(index: nat, reg: Reg) returns (chunks: seq<Chunk>)
      requires Valid()
      modifies registers.state
      ensures Valid() && Emit(Model(), chunks) == Codegen.DataGetFixed(old(Model()), index, reg)
    {
      chunks := WriteBack(Some(reg));
      var x := registers.Get(reg);
      if x.None? || x.value.value.dataOffset != Some(index) {
        chunks := chunks + [Load(reg, index)];
        registers.Set(reg, Ref(Some(index), None));
        registers.Synced(reg);
      }
    }

    method DataSetBegin(index: nat) returns (reg: Reg, chunks: seq<Chunk>)
      requires Valid()
      modifies registers.state
      ensures Valid() && Held(Model(), chunks, reg) == Codegen.DataSetBegin(old(Model()), index)
    {
      reg, chunks := Choose(DataUse(index));
      registers.Set(reg, Ref(Some(index), None));
      registers.Allocate(reg);
    }

    method DataSetFixed(index: nat, reg: Reg) returns (chunks: seq<Chunk>)
      requires Valid()
      modifies registers.state
      ensures Valid() && Emit(Model(), chunks) == Codegen.DataSetFixed(old(Model()), index, reg)
    {
      chunks := WriteBack(Some(reg));
      registers.Set(reg, Ref(Some(index), None));
    }

    // -------------------------------------------------------------- get, set

    method GetFixed(index: nat, reg: Reg) returns (chunks: seq<Chunk>)
      requires Valid()
      modifies registers.state
      ensures Valid() && Emit(Model(), chunks) == Codegen.GetFixed(old(Model()), index, reg)
    {
      ghost var g := Model();
      chunks := WriteBack(Some(reg));
      var x := registers.Get(reg);
      if !(x.Some? && index in SlotsOf(x)) {
        var prev := FindRegister(StackUse(index));
        registers.Set(reg, Ref(None, Some([index])));
        var pe := if prev.Some? then registers.Get(prev.value) else None;
        if pe.Some? {
          var moved := TakeOver(index, reg, prev.value);
          chunks := chunks + moved;
        } else {
          var loaded := LoadSlot(index, reg);
          chunks := chunks + loaded;
          registers.Synced(reg);
        }
      }
    }

    /** get's register move from `p` to `reg`. */
    method TakeOver(index: nat, reg: Reg, p: Reg) returns (chunks: seq<Chunk>)
      requires Valid() && registers.Value()[p].Some?
      modifies registers.state
      ensures Valid() && Emit(Model(), chunks) == Codegen.TakeOver(old(Model()), index, reg, p)
    {
      var pe := registers.Get(p);
      var rest := Delete(SlotsOf(pe), index);
      if rest == [] {
        registers.Unset(p);
      } else {
        registers.Update(p, WithSlots(pe, rest));
      }
      chunks := [Move(reg, p)];
      if pe.value.stale {
        registers.Stale(reg);
      } else {
        registers.Synced(reg);
      }
    }

    /** Fills `reg` from the slot at `index` through a register holding the frame base. */
    method LoadSlot(index: nat, reg: Reg) returns (chunks: seq<Chunk>)
      requires Valid()
      modifies registers.state
      ensures Valid() && Emit(Model(), chunks) == Codegen.LoadSlot(old(Model()), index, reg)
    {
      var slot := SlotAt(stack, index);
      var base, loaded := DataGetBegin(StackBase);
      chunks := loaded + [LoadReg(slot.offset, reg, base)];
      Release(base);
    }

    method GetBegin(index: nat) returns (reg: Reg, chunks: seq<Chunk>)
      requires Valid()
      modifies registers.state
      ensures Valid() && Held(Model(), chunks, reg) == Codegen.GetBegin(old(Model()), index)
    {
      ghost var g := Model();
      reg, chunks := Choose(StackUse(index));
      var x := registers.Get(reg);
      if !(x.Some? && index in SlotsOf(x)) {
        var loaded := LoadSlot(index, reg);
        chunks := chunks + loaded;
        registers.Set(reg, Ref(None, Some([index])));
        registers.Synced(reg);
      }
      registers.Allocate(reg);
    }

    method SetFixed(index: nat, reg: Reg) returns (chunks: seq<Chunk>)
      requires Valid()
      modifies registers.state
      ensures Valid() && Emit(Model(), chunks) == Codegen.SetFixed(old(Model()), index, reg)
    {
      var cur := registers.Get(reg);
      var own := if cur.Some? then cur.value.value else Ref(None, Some([]));
      var ownSlots := own.stackOffset;
      var prev := FindRegister(StackUse(index));
      var pe := if prev.Some? then registers.Get(prev.value) else None;
      if pe.Some? {
        var p := prev.value;
        var rest := Delete(SlotsOf(pe), index);
        if rest == [] {
          registers.Unset(p);
        } else {
          registers.Update(p, WithSlots(pe, rest));
        }
        if p == reg {
          // `own` is this register's value: the slot set just edited is its own
          ownSlots := Some(rest);
        }
      }
      registers.Update(reg, own.(stackOffset := Some(Insert(ownSlots.GetOr([]), index))));
      chunks := [];
    }

    method SetBegin(index: nat) returns (reg: Reg, chunks: seq<Chunk>)
      requires Valid()
      modifies registers.state
      ensures Valid() && Held(Model(), chunks, reg) == Codegen.SetBegin(old(Model()), index)
    {
      reg, chunks := Choose(StackUse(index));
      registers.Set(reg, Ref(None, Some([index])));
      registers.Allocate(reg);
    }

    // ------------------------------------------------------------- push, pop

    method PushFixed(reg: Reg) returns (chunks: seq<Chunk>)
      requires Valid()
      modifies this, registers.state
      ensures Valid() && Emit(Model(), chunks) == Codegen.PushFixed(old(Model()), reg)
    {
      var index := |stack|;
      stack := stack + [NextSlot(stack)];
      chunks := SetFixed(index, reg);
    }

    method PushBegin() returns (reg: Reg, chunks: seq<Chunk>)
      requires Valid()
      modifies this, registers.state
      ensures Valid() && Held(Model(), chunks, reg) == Codegen.PushBegin(old(Model()))
    {
      var index := |stack|;
      stack := stack + [NextSlot(stack)];
      reg, chunks := SetBegin(index);
    }

    method PopFixed(reg: Reg) returns (chunks: seq<Chunk>)
      requires Valid() && |stack| > 0
      modifies this, registers.state
      ensures Valid() && Emit(Model(), chunks) == Codegen.PopFixed(old(Model()), reg)
    {
      var index := TopIndex(stack);
      stack := stack[..index];
      chunks := GetFixed(index, reg);
      UnsetHolder(index);
    }

    method PopBegin() returns (reg: Reg, chunks: seq<Chunk>)
      requires Valid() && |stack| > 0
      modifies this, registers.state
      ensures Valid() && Held(Model(), chunks, reg) == Codegen.PopBegin(old(Model()))
    {
      var index := TopIndex(stack);
      stack := stack[..index];
      reg, chunks := GetBegin(index);
    }

    /** The end of pop(callback): `index` is the position of the slot popped. */
    method PopEnd(reg: Reg, index: nat)
      requires Valid()
      modifies registers.state
      ensures Valid() && Model() == Codegen.PopEnd(old(Model()), reg, index)
    {
      Release(reg);
      UnsetHolder(index);
    }

    method UnsetHolder(index: nat)
      requires Valid()
      modifies registers.state
      ensures Valid() && Model() == old(Model()).(regs := Codegen.UnsetHolder(old(Model()).regs, index))
    {
      var holder := FindRegister(StackUse(index));
      if holder.Some? {
        registers.Unset(holder.value);
      }
    }

    // ---------------------------------------------------------- swap, insert

    method Swap(i: nat, j: nat) returns (chunks: seq<Chunk>)
      requires Valid()
      modifies registers.state
      ensures Valid() && Emit(Model(), chunks) == Codegen.Swap(old(Model()), i, j)
    {
      ghost var g := Model();
      var r1, c1 := GetBegin(i);
      var r2, c2 := GetBegin(j);
      var e1 := registers.Get(r1);
      var e2 := registers.Get(r2);
      var s1 := Insert(Delete(SlotsOf(e1), i), j);
      var s2 := Insert(Delete(SlotsOf(e2), j), i);
      if r1 == r2 {
        // one register, one slot set: the four edits apply to it in turn
        s1 := Insert(Insert(Delete(Delete(SlotsOf(e1), i), j), j), i);
        s2 := s1;
      }
      registers.Update(r1, WithSlots(e1, s1));
      registers.Update(r2, WithSlots(e2, s2));
      registers.Stale(r1);
      registers.Stale(r2);
      Release(r2);
      Release(r1);
      chunks := c1 + c2;
    }

    method InsertFixed(index: nat, reg: Reg) returns (chunks: seq<Chunk>)
      requires Valid()
      modifies this, registers.state
      ensures Valid() && Emit(Model(), chunks) == Codegen.InsertFixed(old(Model()), index, reg)
    {
      ghost var g := Model();
      chunks := PushFixed(reg);
      var i := TopIndex(stack);
      while i > index
        invariant Valid() && 0 <= i
        invariant var rest := SwapDown(Model(), i, index);
                  Emit(rest.g, chunks + rest.chunks) == Codegen.InsertFixed(g, index, reg)
        decreases i
      {
        var swapped := Swap(i, Below(i));
        ghost var rest := SwapDown(Model(), Below(i), index);
        AppendAssoc(chunks, swapped, rest.chunks);
        chunks := chunks + swapped;
        i := Below(i);
      }
    }

    /** insert(index, callback) after PushBegin and the callback's chunks: free, then the swap loop. */
    method InsertEnd(reg: Reg, index: nat) returns (chunks: seq<Chunk>)
      requires Valid()
      modifies this, registers.state
      ensures Valid() && Emit(Model(), chunks) == Codegen.InsertEnd(old(Model()), reg, index)
    {
      ghost var g := Model();
      Release(reg);
      chunks := [];
      if |stack| > 0 {
        var i := TopIndex(stack);
        while i > index
          invariant Valid() && 0 <= i
          invariant var rest := SwapDown(Model(), i, index);
                    Emit(rest.g, chunks + rest.chunks) == Codegen.InsertEnd(g, reg, index)
          decreases i
        {
          var swapped := Swap(i, Below(i));
          ghost var rest := SwapDown(Model(), Below(i), index);
          AppendAssoc(chunks, swapped, rest.chunks);
          chunks := chunks + swapped;
          i := Below(i);
        }
      }
    }

    // ---------------------------------------------------- copy, replace, add

    method Copy(index: nat) returns (chunks: seq<Chunk>)
      requires Valid()
      modifies this, registers.state
      ensures Valid() && Emit(Model(), chunks) == CopySlot(old(Model()), index)
    {
      ghost var g := Model();
      var r2, c2 := GetBegin(index);
      var r1, c1 := PushBegin();
      chunks := c2 + c1 + [AddImm(r1, r2, 0)];
      Release(r1);
      Release(r2);
    }

    method Replace(index: nat) returns (chunks: seq<Chunk>)
      requires Valid() && |stack| > 0
      modifies this, registers.state
      ensures Valid() && Emit(Model(), chunks) == ReplaceSlot(old(Model()), index)
    {
      ghost var g := Model();
      var r1, c1 := SetBegin(index);
      var top := TopIndex(stack);
      var r2, c2 := PopBegin();
      chunks := c1 + c2 + [AddImm(r1, r2, 0)];
      PopEnd(r2, top);
      Release(r1);
    }

    method Add() returns (chunks: seq<Chunk>)
      requires Valid() && |stack| >= 2
      modifies this, registers.state
      ensures Valid() && Emit(Model(), chunks) == AddTop(old(Model()))
    {
      ghost var g := Model();
      var top := TopIndex(stack);
      var r1, c1 := PopBegin();
      ghost var g1 := Model();
      var inner := TopIndex(stack);
      var r2, c2 := PopBegin();
      var r3, c3 := PushBegin();
      chunks := c2 + c3 + [AddRegs(r1, r2, r3)];
      Release(r3);
      PopEnd(r2, inner);
      assert Emit(Model(), chunks) == AddInner(g1, r1);
      chunks := c1 + chunks;
      PopEnd(r1, top);
    }

    // ------------------------------------------------- frames and frame base

    method UpdateStackBase(d: int) returns (chunks: seq<Chunk>)
      requires Valid()
      modifies this, registers.state
      ensures Valid() && Emit(Model(), chunks) == Codegen.UpdateStackBase(old(Model()), d)
    {
      if d == 0 {
        return [];
      }
      if FitsImmediate(d) {
        var reg;
        reg, chunks := DataSetBegin(StackBase);
        chunks := chunks + [AddImm(reg, reg, d)];
        Release(reg);
      } else {
        ghost var g := Model();
        var offset := PushData([d]);
        var r1, c1 := DataGetBegin(offset);
        var r2, c2 := DataSetBegin(StackBase);
        chunks := c1 + c2 + [AddRegs(r1, r2, r1)];
        Release(r2);
        Release(r1);
      }
    }

    method PushStackFrame() returns (chunks: seq<Chunk>)
      requires Valid()
      modifies this, registers.state
      ensures Valid() && Emit(Model(), chunks) == Codegen.PushStackFrame(old(Model()))
    {
      var size := |stack|;
      stackFrames := stackFrames + [stack];
      stack := [];
      registers.Clear();
      chunks := UpdateStackBase(size);
    }

    method PopStackFrame() returns (chunks: seq<Chunk>)
      requires Valid() && |stackFrames| > 0
      modifies this, registers.state
      ensures Valid() && Emit(Model(), chunks) == Codegen.PopStackFrame(old(Model()))
    {
      var top := stackFrames[|stackFrames| - 1];
      stack := top;
      stackFrames := stackFrames[..|stackFrames| - 1];
      chunks := UpdateStackBase(Back(|top|));
    }

    // ------------------------------------------------- call, return, entry

    /** call() up to the pop of the callee address. */
    method CallSetup() returns (chunks: seq<Chunk>)
      requires Valid() && |stack| >= 3
      modifies this, registers.state
      ensures Valid() && Emit(Model(), chunks) == Codegen.CallSetup(old(Model()))
    {
      chunks := InsertFixed(ThirdFromTop(stack), R0);
      chunks := chunks + [Lea(R0, 0)];
      registers.Allocate(R0);
      registers.Synced(R0);
      var got := GetFixed(ThirdFromTop(stack), R1);
      chunks := chunks + got;
      registers.Allocate(R1);
    }

    /** call()'s pop of the callee address, with the callback inlined. */
    method CallJump() returns (chunks: seq<Chunk>)
      requires Valid() && |stack| >= 1
      modifies this, registers.state
      ensures Valid() && Emit(Model(), chunks) == Codegen.CallJump(old(Model()))
    {
      var top := TopIndex(stack);
      var reg, popped := PopBegin();
      var flushed := WriteBack(None);
      stack := Drop(stack, 3);
      var pushed := PushStackFrame();
      var restored := PopStackFrame();
      PopEnd(reg, top);
      chunks := popped + flushed + pushed + [Jump(reg)] + restored;
    }

    /** The end of call(): patch the return address, free R1, push R0 and free it. */
    method CallFinish(sofar: seq<Chunk>) returns (chunks: seq<Chunk>)
      requires Valid() && |sofar| > 0
      modifies this, registers.state
      ensures Valid() && Emit(Model(), chunks) == Codegen.CallFinish(old(Model()), sofar)
    {
      chunks := Patch(sofar);
      registers.Free(R1);
      var pushed := PushFixed(R0);
      registers.Free(R0);
      chunks := chunks + pushed;
    }

    method Call() returns (chunks: seq<Chunk>)
      requires Valid() && |stack| >= 3
      modifies this, registers.state
      ensures Valid() && Emit(Model(), chunks) == Codegen.Call(old(Model()))
    {
      chunks := CallSetup();
      var jump := CallJump();
      chunks := CallFinish(chunks + jump);
    }

    method Return() returns (chunks: seq<Chunk>)
      requires Valid() && |stack| >= 1
      modifies this, registers.state
      ensures Valid() && Emit(Model(), chunks) == Codegen.Return(old(Model()))
    {
      ghost var g := Model();
      var top := TopIndex(stack);
      chunks := GetFixed(0, R0);
      var reg, popped := PopBegin();
      chunks := chunks + popped + [Jump(reg)];
      PopEnd(reg, top);
    }

    method Entry(closureSize: int) returns (chunks: seq<Chunk>)
      requires Valid()
      modifies this, registers.state
      ensures Valid() && Emit(Model(), chunks) == EntryFrame(old(Model()), closureSize)
    {
      chunks := [];
      stack := stack + [Slot(0, 1), Slot(0, 1), Slot(0, closureSize)];
      registers.Set(R0, Ref(None, Some([0])));
      registers.Set(R1, Ref(None, Some([1])));
    }

    // ------------------------------------------------------------ join, split

    method Join(index: nat, count: nat)
      requires index < |stack| && count >= 1
      modifies this
      ensures stack == Codegen.Join(old(stack), index, count)
      ensures stackFrames == old(stackFrames) && data == old(data)
    {
      stack := Codegen.Join(stack, index, count);
    }

    method Split(index: nat, k: int)
      requires index < |stack|
      modifies this
      ensures stack == Codegen.Split(old(stack), index, k)
      ensures stackFrames == old(stackFrames) && data == old(data)
    {
      stack := Codegen.Split(stack, index, k);
    }
  }
}
