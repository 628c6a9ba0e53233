/**
 * Which register owns which stack slot across the callback operations and the
 * operations built from them (get, set, pop, swap, insert, copy, replace, add,
 * return) and the frame operations.  The register file is kept `Tidy`: no slot
 * has two owners, and no register that owns a slot also mirrors a data cell.
 */
module CodegenOwnership {
  import opened Wrappers
  import opened Registers
  import opened Codegen
  import opened CodegenFrames
  import opened CodegenProperties

  /** No register that claims a stack slot also mirrors a data cell. */
  ghost predicate Unmixed(rf: RegFile) {
    forall k: Reg :: SlotsOf(rf[k]) != [] ==> rf[k].Some? && rf[k].value.value.dataOffset.None?
  }

  /** The register-file invariant the ownership lemmas keep. */
  ghost predicate Tidy(rf: RegFile) {
    UniqueOwners(rf) && Unmixed(rf)
  }

  /** No register claims a slot at or above `n` (the stack's size). */
  ghost predicate ClaimsBelow(rf: RegFile, n: nat) {
    forall k: Reg, x: nat :: Claims(rf, k, x) ==> x < n
  }

  /** From `a` to `b` no claim is added. */
  ghost predicate NoNewClaims(a: RegFile, b: RegFile) {
    forall k: Reg, x: nat :: Claims(b, k, x) ==> Claims(a, k, x)
  }

  /** Keeping values adds no claim and keeps the file tidy. */
  lemma KeepsTidy(a: RegFile, b: RegFile)
    requires Keeps(a, b)
    ensures NoNewClaims(a, b)
    ensures Tidy(a) ==> Tidy(b)
  {
    forall k: Reg, x: nat | Claims(b, k, x) ensures Claims(a, k, x) {
      assert SlotsOf(b[k]) != [];
    }
  }

  /** Tidiness and a bound on claims carry over when no claim is added and nothing new is mixed. */
  lemma NoNewClaimsTidy(a: RegFile, b: RegFile, n: nat)
    requires NoNewClaims(a, b)
    ensures UniqueOwners(a) ==> UniqueOwners(b)
    ensures ClaimsBelow(a, n) ==> ClaimsBelow(b, n)
  {
  }

  // ------------------------------------------------------------ get, set

  /**
   * get(index, callback) up to the callback.  No register other than the one
   * handed out becomes held, and no claim is added except that register's claim
   * on the slot.  A register that is the first to claim the slot is handed out
   * as it is, with no chunks emitted.  On a tidy file the result is tidy and the
   * handed-out register is the slot's only owner and mirrors no data cell.  A
   * held register that mirrors neither the frame base nor the slot is neither
   * handed out nor changed, while some register is not held.
   */
  lemma GetBeginEffects(g: Gen, index: nat, r: Reg)
    ensures var h := GetBegin(g, index);
            && Pinned(h.g.regs) <= Pinned(g.regs) + {h.reg}
            && (forall k: Reg, x: nat :: Claims(h.g.regs, k, x) ==> Claims(g.regs, k, x) || (k == h.reg && x == index))
            && (forall k: Reg :: FirstMatch(g.regs, HoldsSlot(index), k) ==> h == Held(g.(regs := AllocateReg(g.regs, k)), [], k))
            && (Tidy(g.regs) ==> Tidy(h.g.regs) && SoleOwner(h.g.regs, index, h.reg) && h.g.regs[h.reg].value.value.dataOffset.None?)
            && (Spared(g.regs, r) && Avoids(g.regs, r, StackUse(index)) && |Pinned(g.regs)| < 8 ==> h.reg != r && h.g.regs[r] == g.regs[r])
            && ((forall k: Reg :: !Claims(g.regs, k, index)) ==> h.g.regs[h.reg] == Some(Entry(Ref(None, Some([index])), false, false)))
  {
    var pre := Choose(g, StackUse(index));
    ChooseEffects(g, StackUse(index), r);
    KeepsTidy(g.regs, pre.g.regs);
    var found := FindRegister(g.regs, StackUse(index));
    FindRegisterCases(g.regs, StackUse(index), found);
    var reg := pre.reg;
    var x := pre.g.regs[reg];
    var h := GetBegin(g, index);
    if x.Some? && index in SlotsOf(x) {
      assert h == Held(pre.g.(regs := AllocateReg(pre.g.regs, reg)), pre.chunks, reg);
      PinnedEffects(pre.g.regs, reg, x.value.value);
      FlagsKeep(pre.g.regs, reg, None, Some(false));
      KeepsTidy(pre.g.regs, h.g.regs);
      assert Claims(g.regs, reg, index);
      if Tidy(g.regs) {
        forall k: Reg | k != reg ensures !Claims(h.g.regs, k, index) {
          assert Claims(h.g.regs, reg, index);
        }
      }
      forall k: Reg | FirstMatch(g.regs, HoldsSlot(index), k)
        ensures h == Held(g.(regs := AllocateReg(g.regs, k)), [], k)
      {
        FirstMatchUnique(g.regs, HoldsSlot(index), found.value, k);
      }
    } else {
      assert forall k: Reg :: !Claims(g.regs, k, index) by {
        if exists k: Reg :: Matches(g.regs[k], HoldsSlot(index)) {
          assert false;
        }
      }
      GetBeginLoad(g, index, pre, r);
      GetBeginFresh(g, index, pre);
    }
  }

  /** On GetBegin's load path the handed-out register is bound to the slot alone, synced and held. */
  lemma GetBeginFresh(g: Gen, index: nat, pre: Held)
    requires pre == Choose(g, StackUse(index))
    requires !(pre.g.regs[pre.reg].Some? && index in SlotsOf(pre.g.regs[pre.reg]))
    ensures var h := GetBegin(g, index);
            h.g.regs[h.reg] == Some(Entry(Ref(None, Some([index])), false, false))
  {
  }

  /** GetBegin's load path, taken when no register claims the slot. */
  lemma GetBeginLoad(g: Gen, index: nat, pre: Held, r: Reg)
    requires pre == Choose(g, StackUse(index))
    requires forall k: Reg :: !Claims(g.regs, k, index)
    requires !(pre.g.regs[pre.reg].Some? && index in SlotsOf(pre.g.regs[pre.reg]))
    requires Pinned(pre.g.regs) <= Pinned(g.regs) && Keeps(g.regs, pre.g.regs)
    requires Spared(g.regs, r) && Avoids(g.regs, r, StackUse(index)) && |Pinned(g.regs)| < 8 ==> pre.reg != r && pre.g.regs[r] == g.regs[r]
    ensures var h := GetBegin(g, index);
            && Pinned(h.g.regs) <= Pinned(g.regs) + {h.reg}
            && (forall k: Reg, x: nat :: Claims(h.g.regs, k, x) ==> Claims(g.regs, k, x) || (k == h.reg && x == index))
            && (Tidy(g.regs) ==> Tidy(h.g.regs) && SoleOwner(h.g.regs, index, h.reg) && h.g.regs[h.reg].value.value.dataOffset.None?)
            && (Spared(g.regs, r) && Avoids(g.regs, r, StackUse(index)) && |Pinned(g.regs)| < 8 ==> h.reg != r && h.g.regs[r] == g.regs[r])
  {
    var reg := pre.reg;
    var v := Ref(None, Some([index]));
    var loaded := LoadSlot(pre.g, index, reg);
    LoadSlotEffects(pre.g, index, reg, r);
    KeepsTrans(g.regs, pre.g.regs, loaded.g.regs);
    var rf := MarkSynced(SetReg(loaded.g.regs, reg, v), reg);
    var h := GetBegin(g, index);
    assert h == Held(loaded.g.(regs := AllocateReg(rf, reg)), pre.chunks + loaded.chunks, reg);
    LoadBind(g.regs, loaded.g.regs, h.g.regs, reg, index);
    if Spared(g.regs, r) && Avoids(g.regs, r, StackUse(index)) && |Pinned(g.regs)| < 8 {
      SubsetCard(Pinned(pre.g.regs), Pinned(g.regs));
    }
  }

  /** GetBegin's load path on register files: `b` is `l` with `reg` bound to the slot alone, synced and held. */
  lemma LoadBind(a: RegFile, l: RegFile, b: RegFile, reg: Reg, index: nat)
    requires Keeps(a, l) && Pinned(l) <= Pinned(a) && forall k: Reg :: !Claims(a, k, index)
    requires b == AllocateReg(MarkSynced(SetReg(l, reg, Ref(None, Some([index]))), reg), reg)
    ensures b[reg] == Some(Entry(Ref(None, Some([index])), false, false))
    ensures forall k: Reg :: k != reg ==> b[k] == l[k]
    ensures Pinned(b) <= Pinned(a) + {reg}
    ensures forall k: Reg, x: nat :: Claims(b, k, x) ==> Claims(a, k, x) || (k == reg && x == index)
    ensures Tidy(a) ==> Tidy(b) && SoleOwner(b, index, reg)
  {
    var v := Ref(None, Some([index]));
    KeepsTidy(a, l);
    PinnedEffects(l, reg, v);
    PinnedEffects(SetReg(l, reg, v), reg, v);
    PinnedEffects(MarkSynced(SetReg(l, reg, v), reg), reg, v);
    assert b[reg] == Some(Entry(v, false, false));
  }

  /**
   * set(index, callback) up to the callback.  No claim is added except the
   * handed-out register's claim on the slot, which is then its only slot; a
   * register that is the first to claim the slot is the one handed out, with no
   * chunks emitted.  On a tidy file the result is tidy and the handed-out
   * register is the slot's only owner.  A held register that mirrors neither the
   * frame base nor the slot is neither handed out nor changed, while some
   * register is not held.
   */
  lemma SetBeginEffects(g: Gen, index: nat, r: Reg)
    ensures var h := SetBegin(g, index);
            && Pinned(h.g.regs) <= Pinned(g.regs) + {h.reg}
            && (forall k: Reg, x: nat :: Claims(h.g.regs, k, x) ==> (k == h.reg && x == index) || (k != h.reg && Claims(g.regs, k, x)))
            && (forall k: Reg :: FirstMatch(g.regs, HoldsSlot(index), k) ==> h.reg == k && h.chunks == [])
            && (Tidy(g.regs) ==> Tidy(h.g.regs) && SoleOwner(h.g.regs, index, h.reg))
            && (Spared(g.regs, r) && Avoids(g.regs, r, StackUse(index)) && |Pinned(g.regs)| < 8 ==> h.reg != r && h.g.regs[r] == g.regs[r])
  {
    var pre := Choose(g, StackUse(index));
    ChooseEffects(g, StackUse(index), r);
    KeepsTidy(g.regs, pre.g.regs);
    var found := FindRegister(g.regs, StackUse(index));
    FindRegisterCases(g.regs, StackUse(index), found);
    var reg := pre.reg;
    var h := SetBegin(g, index);
    BindSlot(pre.g.regs, reg, index, h.g.regs);
    forall k: Reg | FirstMatch(g.regs, HoldsSlot(index), k)
      ensures h.reg == k && h.chunks == []
    {
      FirstMatchUnique(g.regs, HoldsSlot(index), found.value, k);
    }
    if Tidy(g.regs) {
      forall k: Reg | k != reg ensures !Claims(pre.g.regs, k, index) {
        if Claims(pre.g.regs, k, index) {
          assert Claims(g.regs, k, index);
          assert found.Some? && FirstMatch(g.regs, HoldsSlot(index), found.value);
          assert Claims(g.regs, reg, index);
        }
      }
    }
  }

  /** Binding `reg` afresh to slot `index` alone, held. */
  lemma BindSlot(a: RegFile, reg: Reg, index: nat, b: RegFile)
    requires b == AllocateReg(SetReg(a, reg, Ref(None, Some([index]))), reg)
    ensures Pinned(b) <= Pinned(a) + {reg}
    ensures forall k: Reg :: k != reg ==> b[k] == a[k]
    ensures forall k: Reg, x: nat :: Claims(b, k, x) ==> (k == reg && x == index) || (k != reg && Claims(a, k, x))
    ensures Unmixed(a) ==> Unmixed(b)
    ensures UniqueOwners(a) && (forall k: Reg :: k != reg ==> !Claims(a, k, index)) ==> UniqueOwners(b) && SoleOwner(b, index, reg)
  {
    var v := Ref(None, Some([index]));
    PinnedEffects(a, reg, v);
    PinnedEffects(SetReg(a, reg, v), reg, v);
    assert b[reg] == Some(Entry(v, true, false));
  }

  // ------------------------------------------------------------- get, pop

  /**
   * What get promises about the register files `a` (after its write-back) and
   * `b` (after it): `b` is tidy, only `reg` can become held, no claim is added
   * except `reg`'s on the slot, and no register but `reg` claims the slot.
   */
  ghost predicate GetsSlot(a: RegFile, b: RegFile, index: nat, reg: Reg) {
    && Tidy(b)
    && Pinned(b) <= Pinned(a) + {reg}
    && (forall k: Reg, x: nat :: Claims(b, k, x) ==> Claims(a, k, x) || (k == reg && x == index))
    && (forall k: Reg :: Claims(b, k, index) ==> k == reg)
  }

  /**
   * get(index, reg) after its write-back `wb`, on a tidy file: GetsSlot holds.
   * While fewer than 7 registers are held, `reg` then claims the slot, or (the
   * self-move, when no register claimed the slot and `reg` was the first free
   * one) is unbound.
   */
  lemma FillOwnership(wb: Emit, index: nat, reg: Reg)
    requires Tidy(wb.g.regs)
    ensures GetsSlot(wb.g.regs, Fill(wb, index, reg).g.regs, index, reg)
    ensures |Pinned(wb.g.regs)| < 7 ==> Claims(Fill(wb, index, reg).g.regs, reg, index) || Fill(wb, index, reg).g.regs[reg] == None
  {
    var rf := wb.g.regs;
    if Claims(rf, reg, index) {
      FillClaimed(wb, index, reg);
    } else if exists k: Reg :: Claims(rf, k, index) {
      FillMove(wb, index, reg);
    } else {
      assert forall k: Reg :: !Claims(rf, k, index);
      if FirstMatch(rf, IsFree, reg) {
        FillSelf(wb, index, reg);
      } else {
        FillLoad(wb, index, reg);
      }
    }
  }

  lemma FillSelf(wb: Emit, index: nat, reg: Reg)
    requires Tidy(wb.g.regs) && (forall k: Reg :: !Claims(wb.g.regs, k, index)) && FirstMatch(wb.g.regs, IsFree, reg)
    ensures GetsSlot(wb.g.regs, Fill(wb, index, reg).g.regs, index, reg)
    ensures Fill(wb, index, reg).g.regs[reg] == None
  {
    GetFixedSelfMove(wb, index, reg);
    UnbindOwnership(wb.g.regs, Fill(wb, index, reg).g.regs, reg, index);
  }

  lemma FillLoad(wb: Emit, index: nat, reg: Reg)
    requires Tidy(wb.g.regs) && (forall k: Reg :: !Claims(wb.g.regs, k, index)) && !FirstMatch(wb.g.regs, IsFree, reg)
    ensures GetsSlot(wb.g.regs, Fill(wb, index, reg).g.regs, index, reg)
    ensures |Pinned(wb.g.regs)| < 7 ==> Claims(Fill(wb, index, reg).g.regs, reg, index)
  {
    GetFixedLoad(wb, index, reg);
    LoadOwnership(wb.g.regs, Fill(wb, index, reg).g.regs, index, reg);
  }

  lemma FillClaimed(wb: Emit, index: nat, reg: Reg)
    requires Tidy(wb.g.regs) && Claims(wb.g.regs, reg, index)
    ensures GetsSlot(wb.g.regs, Fill(wb, index, reg).g.regs, index, reg)
    ensures Claims(Fill(wb, index, reg).g.regs, reg, index)
  {
    assert Fill(wb, index, reg) == wb;
  }

  lemma FillMove(wb: Emit, index: nat, reg: Reg)
    requires Tidy(wb.g.regs) && !Claims(wb.g.regs, reg, index) && exists k: Reg :: Claims(wb.g.regs, k, index)
    ensures GetsSlot(wb.g.regs, Fill(wb, index, reg).g.regs, index, reg)
    ensures Claims(Fill(wb, index, reg).g.regs, reg, index)
  {
    var rf := wb.g.regs;
    var prev := FindRegister(rf, StackUse(index));
    FindRegisterCases(rf, StackUse(index), prev);
    var p := prev.value;
    assert Claims(rf, p, index);
    GetFixedMove(wb, index, reg, p);
    MoveOwnership(rf, Fill(wb, index, reg).g.regs, index, reg, p);
  }

  /** A file whose claims are the old ones plus `reg`'s on `index`, which nobody else claims, keeps unique owners. */
  lemma ClaimsUnique(rf: RegFile, rf': RegFile, index: nat, reg: Reg)
    requires UniqueOwners(rf)
    requires forall k: Reg, x: nat :: Claims(rf', k, x) ==> Claims(rf, k, x) || (k == reg && x == index)
    requires forall k: Reg :: Claims(rf', k, index) ==> k == reg
    ensures UniqueOwners(rf')
  {
    forall i: nat, k1: Reg, k2: Reg | Claims(rf', k1, i) && Claims(rf', k2, i) ensures k1 == k2 {
      if i != index {
        assert Claims(rf, k1, i) && Claims(rf, k2, i);
      }
    }
  }

  /** The move path on the register files: `p`, the slot's only owner, hands the slot to `reg`. */
  lemma MoveOwnership(rf: RegFile, rf': RegFile, index: nat, reg: Reg, p: Reg)
    requires Tidy(rf) && p != reg && !Claims(rf, reg, index) && Claims(rf, p, index)
    requires rf'[reg] == Some(Entry(Ref(None, Some([index])), rf[p].value.stale, false))
    requires forall k: Reg :: k != reg && k != p ==> rf'[k] == rf[k]
    requires Delete(SlotsOf(rf[p]), index) == [] ==> rf'[p] == None
    requires Delete(SlotsOf(rf[p]), index) != [] ==>
               rf'[p] == Some(rf[p].value.(value := rf[p].value.value.(stackOffset := Some(Delete(SlotsOf(rf[p]), index)))))
    ensures GetsSlot(rf, rf', index, reg) && Claims(rf', reg, index)
  {
    var rest := Delete(SlotsOf(rf[p]), index);
    assert forall x :: x in SlotsOf(rf'[p]) ==> x in SlotsOf(rf[p]) && x != index;
    assert forall k: Reg, x: nat :: Claims(rf', k, x) ==> Claims(rf, k, x) || (k == reg && x == index);
    ClaimsUnique(rf, rf', index, reg);
  }

  /** The self-move on the register files: `reg` ends unbound and nothing else changes. */
  lemma UnbindOwnership(rf: RegFile, rf': RegFile, reg: Reg, index: nat)
    requires Tidy(rf) && forall k: Reg :: !Claims(rf, k, index)
    requires rf'[reg] == None && forall k: Reg :: k != reg ==> rf'[k] == rf[k]
    ensures GetsSlot(rf, rf', index, reg)
  {
    assert rf' == UnsetReg(rf, reg);
    PinnedEffects(rf, reg, Ref(None, None));
    assert NoNewClaims(rf, rf');
  }

  /** The load path on the register files: nobody claimed the slot, and `reg` now claims at most it. */
  lemma LoadOwnership(rf: RegFile, rf': RegFile, index: nat, reg: Reg)
    requires Tidy(rf) && forall k: Reg :: !Claims(rf, k, index)
    requires SlotsOf(rf'[reg]) == [] || rf'[reg].value.value == Ref(None, Some([index]))
    requires KeepsExcept(rf, rf', reg)
    requires Pinned(rf') <= Pinned(rf) + {reg}
    ensures GetsSlot(rf, rf', index, reg)
  {
    forall k: Reg, x: nat | k != reg && Claims(rf', k, x) ensures Claims(rf, k, x) {
      assert SlotsOf(rf'[k]) != [];
    }
    ClaimsUnique(rf, rf', index, reg);
  }

  /**
   * get(index, reg) on a tidy file: the result is tidy, no claim is added except
   * `reg`'s on the slot, and no register but `reg` claims the slot; while fewer
   * than 7 registers are held, `reg` claims the slot or (the self-move) is unbound.
   */
  lemma GetFixedOwnership(g: Gen, index: nat, reg: Reg)
    requires Tidy(g.regs)
    ensures GetsSlot(g.regs, GetFixed(g, index, reg).g.regs, index, reg)
    ensures |Pinned(g.regs)| < 7 ==> Claims(GetFixed(g, index, reg).g.regs, reg, index) || GetFixed(g, index, reg).g.regs[reg] == None
  {
    var wb := WriteBack(g, Some(reg));
    WriteBackFromEffects(g, Some(reg), 0, reg);
    KeepsTidy(g.regs, wb.g.regs);
    SubsetCard(Pinned(wb.g.regs), Pinned(g.regs));
    FillOwnership(wb, index, reg);
    var e := GetFixed(g, index, reg);
    assert e == Fill(wb, index, reg);
    assert NoNewClaims(g.regs, wb.g.regs);
  }

  /**
   * pop(callback) after the callback, on a tidy file: the result is tidy, no
   * claim is added, no register claims the popped slot, `reg` is no longer held,
   * and the slot's owner (if any) is unbound while every other register only
   * has `reg`'s flag changed.
   */
  lemma PopEndOwnership(g: Gen, reg: Reg, index: nat)
    requires Tidy(g.regs)
    ensures var g' := PopEnd(g, reg, index);
            && Tidy(g'.regs)
            && NoNewClaims(g.regs, g'.regs)
            && (forall k: Reg :: !Claims(g'.regs, k, index))
            && Pinned(g'.regs) <= Pinned(g.regs) - {reg}
            && (forall k: Reg :: g'.regs[k] == FreeReg(g.regs, reg)[k] || (Claims(g.regs, k, index) && g'.regs[k] == None))
  {
    var rf := FreeReg(g.regs, reg);
    PinnedEffects(g.regs, reg, Ref(None, None));
    FlagsKeep(g.regs, reg, None, Some(true));
    KeepsTidy(g.regs, rf);
    assert forall k: Reg :: Claims(rf, k, index) <==> Claims(g.regs, k, index);
    UnsetHolderClears(rf, index);
    var g' := PopEnd(g, reg, index);
    assert g'.regs == UnsetHolder(rf, index);
    forall k: Reg ensures SlotsOf(g'.regs[k]) == [] || (rf[k].Some? && g'.regs[k].Some? && g'.regs[k].value.value == rf[k].value.value) {
    }
    KeepsTidy(rf, g'.regs);
    forall k: Reg | k in Pinned(g'.regs) ensures k in Pinned(rf) {
    }
  }

  /**
   * pop(reg), on a tidy file: it emits exactly what get(top, reg) emits on the
   * shortened stack; afterwards the file is tidy, no claim is added and no
   * register claims the popped slot.  While fewer than 7 registers are held,
   * `reg` ends unbound and no register becomes held.
   */
  lemma PopFixedOwnership(g: Gen, reg: Reg)
    requires Tidy(g.regs) && |g.stack| > 0
    ensures var n := |g.stack| - 1;
            var e := PopFixed(g, reg);
            && e.chunks == GetFixed(g.(stack := g.stack[..n]), n, reg).chunks
            && Tidy(e.g.regs)
            && NoNewClaims(g.regs, e.g.regs)
            && (forall k: Reg :: !Claims(e.g.regs, k, n))
            && (|Pinned(g.regs)| < 7 ==> e.g.regs[reg] == None && Pinned(e.g.regs) <= Pinned(g.regs))
  {
    var n := |g.stack| - 1;
    var g0 := g.(stack := g.stack[..n]);
    var got := GetFixed(g0, n, reg);
    GetFixedOwnership(g0, n, reg);
    var e := PopFixed(g, reg);
    assert e.g.regs == UnsetHolder(got.g.regs, n) && e.chunks == got.chunks;
    UnsetHolderTidy(got.g.regs, n);
    PopClaims(g.regs, got.g.regs, e.g.regs, n, reg);
  }

  /** get's claims followed by pop's unbinding: what pop(reg) leaves, stated on the three register files. */
  lemma PopClaims(a: RegFile, b: RegFile, c: RegFile, n: nat, reg: Reg)
    requires GetsSlot(a, b, n, reg)
    requires |Pinned(a)| < 7 ==> Claims(b, reg, n) || b[reg] == None
    requires Tidy(c) && NoNewClaims(b, c) && Pinned(c) <= Pinned(b)
    requires forall k: Reg :: !Claims(c, k, n)
    requires forall k: Reg :: c[k] == b[k] || (Claims(b, k, n) && c[k] == None)
    ensures NoNewClaims(a, c)
    ensures |Pinned(a)| < 7 ==> c[reg] == None && Pinned(c) <= Pinned(a)
  {
    forall k: Reg, x: nat | Claims(c, k, x) ensures Claims(a, k, x) {
      assert Claims(b, k, x);
    }
    if |Pinned(a)| < 7 {
      if Claims(b, reg, n) {
        assert !Claims(c, reg, n);
        assert c[reg] != b[reg];
      }
      forall k | k in Pinned(c) ensures k in Pinned(a) {
        assert k in Pinned(b) && k != reg;
      }
    }
  }

  /**
   * pop's unbinding on a tidy file: the file stays tidy, no claim is added,
   * nobody claims `index`, no register becomes held, and each register is kept
   * or, if it claimed `index`, freed.
   */
  lemma UnsetHolderTidy(rf: RegFile, index: nat)
    requires Tidy(rf)
    ensures var rf' := UnsetHolder(rf, index);
            && Tidy(rf')
            && NoNewClaims(rf, rf')
            && (forall k: Reg :: !Claims(rf', k, index))
            && Pinned(rf') <= Pinned(rf)
            && (forall k: Reg :: rf'[k] == rf[k] || (Claims(rf, k, index) && rf'[k] == None))
  {
    var rf' := UnsetHolder(rf, index);
    UnsetHolderClears(rf, index);
    forall k: Reg ensures SlotsOf(rf'[k]) == [] || (rf[k].Some? && rf'[k].Some? && rf'[k].value.value == rf[k].value.value) {
    }
    KeepsTidy(rf, rf');
    forall k: Reg | k in Pinned(rf') ensures k in Pinned(rf) {
    }
  }


  // ------------------------------------------------------------------ swap

  /**
   * swap's relabelling on a tidy file where `r1` is the only owner of `i` and
   * `r2` the only owner of `j` (possibly the same register): afterwards `r1` is
   * the only owner of `j` and `r2` the only owner of `i`, every other claim is as
   * it was, the file is tidy and the same registers are held.
   */
  lemma RelabelOwnership(rf: RegFile, r1: Reg, r2: Reg, i: nat, j: nat)
    requires Tidy(rf) && i != j && SoleOwner(rf, i, r1) && SoleOwner(rf, j, r2)
    ensures var rf' := Relabel(rf, r1, r2, i, j);
            && Tidy(rf')
            && SoleOwner(rf', j, r1) && SoleOwner(rf', i, r2)
            && (forall k: Reg, x: nat :: x != i && x != j ==> (Claims(rf', k, x) <==> Claims(rf, k, x)))
            && Pinned(rf') == Pinned(rf)
  {
    var rf' := Relabel(rf, r1, r2, i, j);
    assert SlotsOf(rf[r1]) != [] && SlotsOf(rf[r2]) != [];
    assert forall k: Reg :: k != r1 && k != r2 ==> rf'[k] == rf[k];
    RelabelSlots(rf, rf', r1, r2, i, j);
    ExchangedUnique(rf, rf', r1, r2, i, j);
  }

  /** Exchanging the sole owners of two slots, all other claims unchanged, keeps single ownership. */
  lemma ExchangedUnique(rf: RegFile, rf': RegFile, r1: Reg, r2: Reg, i: nat, j: nat)
    requires UniqueOwners(rf) && SoleOwner(rf', j, r1) && SoleOwner(rf', i, r2)
    requires forall k: Reg, x: nat :: x != i && x != j ==> (Claims(rf', k, x) <==> Claims(rf, k, x))
    ensures UniqueOwners(rf')
  {
    forall x: nat, k1: Reg, k2: Reg | Claims(rf', k1, x) && Claims(rf', k2, x) ensures k1 == k2 {
      if x != i && x != j {
        assert Claims(rf, k1, x) && Claims(rf, k2, x);
      }
    }
  }


  /** The claims after swap's relabelling, for the distinct and the shared register. */
  lemma RelabelSlots(rf: RegFile, rf': RegFile, r1: Reg, r2: Reg, i: nat, j: nat)
    requires rf' == Relabel(rf, r1, r2, i, j)
    requires UniqueOwners(rf) && i != j && SoleOwner(rf, i, r1) && SoleOwner(rf, j, r2)
    requires forall k: Reg :: k != r1 && k != r2 ==> rf'[k] == rf[k]
    ensures SoleOwner(rf', j, r1) && SoleOwner(rf', i, r2)
    ensures forall k: Reg, x: nat :: x != i && x != j ==> (Claims(rf', k, x) <==> Claims(rf, k, x))
  {
    forall k: Reg | k != r1 && k != r2 ensures !Claims(rf', k, i) && !Claims(rf', k, j) {
      assert !Claims(rf, k, i) && !Claims(rf, k, j);
    }
    forall k: Reg, x: nat | x != i && x != j ensures Claims(rf', k, x) <==> Claims(rf, k, x) {
      if k != r1 && k != r2 {
        assert rf'[k] == rf[k];
      }
    }
  }

  /**
   * swap(i, j) on a tidy file with fewer than 7 registers held: the register
   * got for `i` (the first to claim `i`, if any) becomes the only owner of `j`,
   * the register got for `j` the only owner of `i`; they differ unless the first
   * already claimed `j`.  No other claim is added, the file stays tidy and no
   * register becomes held.
   */
  lemma SwapOwnership(g: Gen, i: nat, j: nat)
    requires Tidy(g.regs) && |Pinned(g.regs)| < 7 && i != j
    ensures var h1 := GetBegin(g, i);
            var h2 := GetBegin(h1.g, j);
            var e := Swap(g, i, j);
            && Tidy(e.g.regs)
            && Pinned(e.g.regs) <= Pinned(g.regs)
            && SoleOwner(e.g.regs, j, h1.reg) && SoleOwner(e.g.regs, i, h2.reg)
            && (!Claims(g.regs, h1.reg, j) ==> h1.reg != h2.reg)
            && (forall k: Reg, x: nat :: x != i && x != j && Claims(e.g.regs, k, x) ==> Claims(g.regs, k, x))
            && (forall k: Reg :: FirstMatch(g.regs, HoldsSlot(i), k) ==> h1.reg == k)
  {
    var h1 := GetBegin(g, i);
    GetBeginEffects(g, i, 0);
    AddOneCard(Pinned(g.regs), h1.reg);
    SubsetCard(Pinned(h1.g.regs), Pinned(g.regs) + {h1.reg});
    var h2 := GetBegin(h1.g, j);
    SwapSecond(h1, j, h2);
    var rf := Relabel(h2.g.regs, h1.reg, h2.reg, i, j);
    RelabelOwnership(h2.g.regs, h1.reg, h2.reg, i, j);
    var e := Swap(g, i, j);
    assert e.g.regs == FreeReg(FreeReg(rf, h2.reg), h1.reg);
    ReleaseTwice(rf, e.g.regs, h2.reg, h1.reg);
  }

  /** swap's second get, on a tidy file where the first get's register `h1.reg` solely owns `i`. */
  lemma SwapSecond(h1: Held, j: nat, h2: Held)
    requires h2 == GetBegin(h1.g, j) && |Pinned(h1.g.regs)| < 8
    requires Tidy(h1.g.regs) && h1.g.regs[h1.reg].Some? && !h1.g.regs[h1.reg].value.weak && h1.g.regs[h1.reg].value.value.dataOffset.None?
    ensures Tidy(h2.g.regs)
    ensures Pinned(h2.g.regs) <= Pinned(h1.g.regs) + {h2.reg}
    ensures forall k: Reg, x: nat :: Claims(h2.g.regs, k, x) ==> Claims(h1.g.regs, k, x) || (k == h2.reg && x == j)
    ensures SoleOwner(h2.g.regs, j, h2.reg)
    ensures forall i: nat :: i != j && SoleOwner(h1.g.regs, i, h1.reg) ==> SoleOwner(h2.g.regs, i, h1.reg)
    ensures !Claims(h1.g.regs, h1.reg, j) ==> h1.reg != h2.reg
  {
    var r1 := h1.reg;
    GetBeginEffects(h1.g, j, r1);
    if Claims(h1.g.regs, r1, j) {
      assert FirstMatch(h1.g.regs, HoldsSlot(j), r1) by {
        forall k: Reg | k < r1 ensures !Matches(h1.g.regs[k], HoldsSlot(j)) {
          assert !Claims(h1.g.regs, k, j);
        }
      }
      assert h2.g.regs == AllocateReg(h1.g.regs, r1);
      forall i: nat | i != j && SoleOwner(h1.g.regs, i, r1) ensures SoleOwner(h2.g.regs, i, r1) {
        forall k: Reg | k != r1 ensures !Claims(h2.g.regs, k, i) {
          assert !Claims(h1.g.regs, k, i);
        }
      }
    } else {
      forall i: nat | i != j && SoleOwner(h1.g.regs, i, r1) ensures SoleOwner(h2.g.regs, i, r1) {
        forall k: Reg | k != r1 ensures !Claims(h2.g.regs, k, i) {
          assert !Claims(h1.g.regs, k, i);
        }
      }
    }
  }

  /** Two releases keep the claims and the tidiness, and drop both registers from the held ones. */
  lemma ReleaseTwice(rf: RegFile, rf': RegFile, a: Reg, b: Reg)
    requires rf' == FreeReg(FreeReg(rf, a), b)
    ensures Pinned(rf') == Pinned(rf) - {a, b}
    ensures forall k: Reg, x: nat :: Claims(rf', k, x) <==> Claims(rf, k, x)
    ensures Tidy(rf) ==> Tidy(rf')
  {
    PinnedEffects(rf, a, Ref(None, None));
    PinnedEffects(FreeReg(rf, a), b, Ref(None, None));
    FlagsKeep(rf, a, None, Some(true));
    FlagsKeep(FreeReg(rf, a), b, None, Some(true));
    KeepsTrans(rf, FreeReg(rf, a), rf');
    KeepsTidy(rf, rf');
    assert forall k: Reg :: SlotsOf(rf'[k]) == SlotsOf(rf[k]);
  }

  /** A sole owner is the first register claiming the slot, so findRegister returns it. */
  lemma SoleFirst(rf: RegFile, i: nat, r: Reg)
    requires SoleOwner(rf, i, r)
    ensures FirstMatch(rf, HoldsSlot(i), r)
  {
    forall k: Reg | k < r ensures !Matches(rf[k], HoldsSlot(i)) {
      assert !Claims(rf, k, i);
    }
  }

  /**
   * insert's loop on a tidy file with fewer than 7 registers held, where `reg`
   * is the only owner of `from`: swapping down to `index` leaves `reg` the only
   * owner of `index` (of `from` when there is nothing to swap), adds no claim on
   * a slot outside index..from, keeps the file tidy and makes no register held.
   */
  lemma {:induction false} SwapDownOwnership(g: Gen, from: nat, index: nat, reg: Reg)
    requires Tidy(g.regs) && |Pinned(g.regs)| < 7 && SoleOwner(g.regs, from, reg)
    ensures var e := SwapDown(g, from, index);
            && Tidy(e.g.regs)
            && Pinned(e.g.regs) <= Pinned(g.regs)
            && SoleOwner(e.g.regs, if index <= from then index else from, reg)
            && (forall k: Reg, x: nat :: (x < index || x > from) && Claims(e.g.regs, k, x) ==> Claims(g.regs, k, x))
    decreases from
  {
    if from > index {
      var s := Swap(g, from, Below(from));
      SwapOwnership(g, from, Below(from));
      SoleFirst(g.regs, from, reg);
      SubsetCard(Pinned(s.g.regs), Pinned(g.regs));
      SwapDownOwnership(s.g, Below(from), index, reg);
    }
  }

  /**
   * set(index, reg) on a tidy file, where `reg` mirrors no data cell: the file
   * stays tidy, `reg` is the only owner of `index`, every other claim is as it
   * was, and at most `reg` becomes held.
   */
  lemma SetFixedTidy(g: Gen, index: nat, reg: Reg)
    requires Tidy(g.regs) && (g.regs[reg].None? || g.regs[reg].value.value.dataOffset.None?)
    ensures var rf := SetFixed(g, index, reg).g.regs;
            && Tidy(rf)
            && SoleOwner(rf, index, reg)
            && (forall k: Reg, j: nat :: Claims(rf, k, j) <==> (k == reg && j == index) || (j != index && Claims(g.regs, k, j)))
            && Pinned(rf) <= Pinned(g.regs) + {reg}
            && rf[reg].Some? && rf[reg].value.value.dataOffset.None?
  {
    SetFixedOwnership(g, index, reg);
    var rf := SetFixed(g, index, reg).g.regs;
    var prev := FindRegister(g.regs, StackUse(index));
    FindRegisterCases(g.regs, StackUse(index), prev);
    forall k: Reg | k != reg
      ensures rf[k] == g.regs[k] || rf[k] == None
           || (g.regs[k].Some? && SlotsOf(g.regs[k]) != [] && rf[k] == Some(g.regs[k].value.(value := WithSlots(g.regs[k], Delete(SlotsOf(g.regs[k]), index)))))
    {
    }
    forall k: Reg | SlotsOf(rf[k]) != [] ensures rf[k].Some? && rf[k].value.value.dataOffset.None? {
      if k != reg && rf[k] != g.regs[k] {
        assert SlotsOf(g.regs[k]) != [];
      }
    }
    forall k: Reg | k in Pinned(rf) && k != reg ensures k in Pinned(g.regs) {
    }
  }

  /**
   * insert(index, reg) on a tidy file with fewer than 6 registers held, where
   * `reg` mirrors no data cell: `reg` ends the only owner of `index` (of the new
   * top slot when `index` is past it), the file is tidy, at most `reg` becomes
   * held, and no slot below `index` gains a claimant.
   */
  lemma InsertOwnership(g: Gen, index: nat, reg: Reg)
    requires Tidy(g.regs) && |Pinned(g.regs)| < 6
    requires g.regs[reg].None? || g.regs[reg].value.value.dataOffset.None?
    ensures var e := InsertFixed(g, index, reg);
            && Tidy(e.g.regs)
            && SoleOwner(e.g.regs, if index <= |g.stack| then index else |g.stack|, reg)
            && Pinned(e.g.regs) <= Pinned(g.regs) + {reg}
            && (forall k: Reg, x: nat :: x < index && x < |g.stack| && Claims(e.g.regs, k, x) ==> Claims(g.regs, k, x))
  {
    var g1 := g.(stack := g.stack + [NextSlot(g.stack)]);
    var p := PushFixed(g, reg);
    assert p == SetFixed(g1, |g.stack|, reg);
    SetFixedTidy(g1, |g.stack|, reg);
    AddOneCard(Pinned(g.regs), reg);
    SubsetCard(Pinned(p.g.regs), Pinned(g.regs) + {reg});
    var s := SwapDown(p.g, TopIndex(p.g.stack), index);
    SwapDownOwnership(p.g, TopIndex(p.g.stack), index, reg);
    var e := InsertFixed(g, index, reg);
    assert e.g == s.g;
    forall k: Reg, x: nat | x < index && x < |g.stack| && Claims(e.g.regs, k, x) ensures Claims(g.regs, k, x) {
      assert Claims(p.g.regs, k, x);
    }
  }
  /**
   * insert(index, callback) after the callback, on a tidy file where `reg` is
   * the only owner of the pushed top slot, and fewer than 7 registers other
   * than `reg` are held: the file stays tidy, `reg` ends the
   * only owner of `index` (of the top slot when `index` is past it), `reg` is
   * no longer held, and no slot below `index` gains a claimant.
   */
  lemma InsertEndOwnership(g: Gen, reg: Reg, index: nat)
    requires Tidy(g.regs) && |Pinned(g.regs) - {reg}| < 7
    requires |g.stack| > 0 && SoleOwner(g.regs, |g.stack| - 1, reg)
    ensures var e := InsertEnd(g, reg, index);
            && Tidy(e.g.regs)
            && SoleOwner(e.g.regs, if index < |g.stack| then index else |g.stack| - 1, reg)
            && Pinned(e.g.regs) <= Pinned(g.regs) - {reg}
            && (forall k: Reg, x: nat :: x < index && x < |g.stack| - 1 && Claims(e.g.regs, k, x) ==> Claims(g.regs, k, x))
  {
    var rf := FreeReg(g.regs, reg);
    PinnedEffects(g.regs, reg, Ref(None, None));
    FlagsKeep(g.regs, reg, None, Some(true));
    KeepsTidy(g.regs, rf);
    assert forall k: Reg, x: nat :: Claims(rf, k, x) <==> Claims(g.regs, k, x);
    var g1 := Release(g, reg);
    assert g1.regs == rf;
    assert SoleOwner(rf, |g.stack| - 1, reg);
    SwapDownOwnership(g1, TopIndex(g1.stack), index, reg);
  }
  /**
   * The whole of insert(index, callback) on a tidy file: push(callback)'s
   * register, once the callback has emitted its chunks, ends the only owner
   * of `index` (of the new top slot when `index` is past it), and is no
   * longer held.
   */
  lemma InsertCallbackOwnership(g: Gen, index: nat)
    requires Tidy(g.regs) && |Pinned(g.regs)| < 7
    ensures var h := PushBegin(g);
            var e := InsertEnd(h.g, h.reg, index);
            && Tidy(e.g.regs)
            && SoleOwner(e.g.regs, if index <= |g.stack| then index else |g.stack|, h.reg)
            && h.reg !in Pinned(e.g.regs)
            && e.g.stack == g.stack + [NextSlot(g.stack)]
  {
    var g1 := g.(stack := g.stack + [NextSlot(g.stack)]);
    var h := PushBegin(g);
    assert h == SetBegin(g1, |g.stack|);
    SetBeginEffects(g1, |g.stack|, h.reg);
    SubsetCard(Pinned(h.g.regs) - {h.reg}, Pinned(g.regs));
    InsertEndOwnership(h.g, h.reg, index);
  }



  // ------------------------------------------------------ copy, replace, add

  /**
   * copy(index) on a tidy file with fewer than 7 registers held, where no
   * register claims a slot past the stack: the final ADD moves the register got
   * for `index` (its first claimant, if any) into a different register, which
   * is then the only owner of the new top slot, while the first stays the only
   * owner of `index`.  The file stays tidy, no register becomes held and no
   * other slot gains a claimant.
   */
  lemma CopyOwnership(g: Gen, index: nat)
    requires Tidy(g.regs) && |Pinned(g.regs)| < 7 && index < |g.stack| && ClaimsBelow(g.regs, |g.stack|)
    ensures var n := |g.stack|;
            var e := CopySlot(g, index);
            && (exists r1: Reg, r2: Reg ::
                  && e.chunks[|e.chunks| - 1] == AddImm(r1, r2, 0) && r1 != r2
                  && SoleOwner(e.g.regs, n, r1) && SoleOwner(e.g.regs, index, r2)
                  && (forall k: Reg :: FirstMatch(g.regs, HoldsSlot(index), k) ==> r2 == k))
            && Tidy(e.g.regs) && ClaimsBelow(e.g.regs, n + 1)
            && Pinned(e.g.regs) <= Pinned(g.regs)
            && (forall k: Reg, x: nat :: x != index && x != n && Claims(e.g.regs, k, x) ==> Claims(g.regs, k, x))
  {
    var n := |g.stack|;
    var h2 := GetBegin(g, index);
    var h1 := PushBegin(h2.g);
    CopyPushed(g, index, h2, h1);
    var rf := FreeReg(FreeReg(h1.g.regs, h1.reg), h2.reg);
    ReleaseTwice(h1.g.regs, rf, h1.reg, h2.reg);
    var e := CopySlot(g, index);
    assert e.g.regs == rf;
    assert e.chunks[|e.chunks| - 1] == AddImm(h1.reg, h2.reg, 0);
  }

  /** copy's get and push, before the two releases. */
  lemma CopyPushed(g: Gen, index: nat, h2: Held, h1: Held)
    requires Tidy(g.regs) && |Pinned(g.regs)| < 7 && index < |g.stack| && ClaimsBelow(g.regs, |g.stack|)
    requires h2 == GetBegin(g, index) && h1 == PushBegin(h2.g)
    ensures Tidy(h1.g.regs) && h1.reg != h2.reg
    ensures SoleOwner(h1.g.regs, |g.stack|, h1.reg) && SoleOwner(h1.g.regs, index, h2.reg)
    ensures Pinned(h1.g.regs) <= Pinned(g.regs) + {h1.reg, h2.reg}
    ensures forall k: Reg, x: nat :: Claims(h1.g.regs, k, x) ==> Claims(g.regs, k, x) || (k == h1.reg && x == |g.stack|) || (k == h2.reg && x == index)
    ensures forall k: Reg :: FirstMatch(g.regs, HoldsSlot(index), k) ==> h2.reg == k
  {
    var n := |g.stack|;
    GetBeginEffects(g, index, 0);
    AddOneCard(Pinned(g.regs), h2.reg);
    SubsetCard(Pinned(h2.g.regs), Pinned(g.regs) + {h2.reg});
    var g1 := h2.g.(stack := h2.g.stack + [NextSlot(h2.g.stack)]);
    assert h1 == SetBegin(g1, n);
    assert !Claims(h2.g.regs, h2.reg, n);
    SetBeginEffects(g1, n, h2.reg);
    forall k: Reg | k != h2.reg ensures !Claims(h1.g.regs, k, index) {
      assert !Claims(h2.g.regs, k, index);
    }
  }

  /**
   * replace(index) on a tidy file with fewer than 7 registers held, where
   * `index` is below the top slot and no register claims a slot past the stack:
   * the final ADD moves the popped top's register into a different register,
   * which is then the only owner of `index`; the popped register ends unbound and
   * nobody claims the old top slot.  The file stays tidy, no register becomes
   * held and every claim is on the shortened stack.
   */
  lemma ReplaceOwnership(g: Gen, index: nat)
    requires Tidy(g.regs) && |Pinned(g.regs)| < 7 && index + 1 < |g.stack| && ClaimsBelow(g.regs, |g.stack|)
    ensures var top := |g.stack| - 1;
            var e := ReplaceSlot(g, index);
            && (exists r1: Reg, r2: Reg ::
                  && e.chunks[|e.chunks| - 1] == AddImm(r1, r2, 0) && r1 != r2
                  && SoleOwner(e.g.regs, index, r1) && e.g.regs[r2] == None)
            && Unclaimed(e.g.regs, top)
            && Tidy(e.g.regs) && ClaimsBelow(e.g.regs, top)
            && Pinned(e.g.regs) <= Pinned(g.regs)
  {
    var h1 := SetBegin(g, index);
    var h2 := PopBegin(h1.g);
    var e := ReplaceSlot(g, index);
    ReplaceHeldFirst(g, index, h1, h2);
    ReplaceLast(g, index, h1, h2, e);
    ReplaceReleased(g, index, h1, h2, e.g.regs);
  }

  /** The popped register is the first to claim the old top slot. */
  lemma ReplaceHeldFirst(g: Gen, index: nat, h1: Held, h2: Held)
    requires Tidy(g.regs) && |Pinned(g.regs)| < 7 && index + 1 < |g.stack| && ClaimsBelow(g.regs, |g.stack|)
    requires h1 == SetBegin(g, index) && h2 == PopBegin(h1.g)
    ensures FirstMatch(h2.g.regs, HoldsSlot(|g.stack| - 1), h2.reg)
  {
    ReplaceHeld(g, index, |g.stack| - 1, h1, h2);
  }

  /** replace's register file after the pop and the releases. */
  lemma ReplaceReleased(g: Gen, index: nat, h1: Held, h2: Held, rf': RegFile)
    requires Tidy(g.regs) && |Pinned(g.regs)| < 7 && index + 1 < |g.stack| && ClaimsBelow(g.regs, |g.stack|)
    requires h1 == SetBegin(g, index) && h2 == PopBegin(h1.g)
    requires rf' == FreeReg(UnsetReg(FreeReg(h2.g.regs, h2.reg), h2.reg), h1.reg)
    ensures h1.reg != h2.reg && Tidy(rf') && SoleOwner(rf', index, h1.reg) && rf'[h2.reg] == None
    ensures Unclaimed(rf', |g.stack| - 1)
    ensures ClaimsBelow(rf', |g.stack| - 1)
    ensures Pinned(rf') <= Pinned(g.regs)
  {
    var top := |g.stack| - 1;
    ReplaceHeld(g, index, top, h1, h2);
    ReplaceRegs(g.regs, h2.g.regs, h1.reg, h2.reg, index, top, rf');
  }

  /**
   * replace's last chunk moves the popped register into the set one, and its
   * register file is the pop's with the popped register unbound and both released.
   */
  lemma ReplaceLast(g: Gen, index: nat, h1: Held, h2: Held, e: Emit)
    requires |g.stack| > 0
    requires h1 == SetBegin(g, index) && h2 == PopBegin(h1.g) && e == ReplaceSlot(g, index)
    requires FirstMatch(h2.g.regs, HoldsSlot(|g.stack| - 1), h2.reg)
    ensures e.chunks[|e.chunks| - 1] == AddImm(h1.reg, h2.reg, 0)
    ensures e.g.regs == FreeReg(UnsetReg(FreeReg(h2.g.regs, h2.reg), h2.reg), h1.reg)
  {
    assert e.g.regs == FreeReg(PopEnd(h2.g, h2.reg, |g.stack| - 1).regs, h1.reg);
  }

  /** The register file after replace's pop and its two releases, from `rf` at the pop's callback. */
  lemma ReplaceRegs(rf0: RegFile, rf: RegFile, r1: Reg, r2: Reg, index: nat, top: nat, rf': RegFile)
    requires Tidy(rf) && r1 != r2 && index < top && SoleOwner(rf, index, r1) && SoleOwner(rf, top, r2)
    requires ClaimsBelow(rf0, top + 1) && Pinned(rf) <= Pinned(rf0) + {r1, r2}
    requires forall k: Reg, x: nat :: Claims(rf, k, x) ==> x == top || (k == r1 && x == index) || (k != r1 && Claims(rf0, k, x))
    requires rf' == FreeReg(UnsetReg(FreeReg(rf, r2), r2), r1)
    ensures Tidy(rf') && SoleOwner(rf', index, r1) && rf'[r2] == None
    ensures Unclaimed(rf', top)
    ensures ClaimsBelow(rf', top)
    ensures Pinned(rf') <= Pinned(rf0)
  {
    var a := FreeReg(rf, r2);
    var b := UnsetReg(a, r2);
    PinnedEffects(rf, r2, Ref(None, None));
    PinnedEffects(a, r2, Ref(None, None));
    PinnedEffects(b, r1, Ref(None, None));
    FlagsKeep(rf, r2, None, Some(true));
    FlagsKeep(b, r1, None, Some(true));
    assert Keeps(a, b);
    KeepsTrans(rf, a, b);
    KeepsTrans(rf, b, rf');
    KeepsTidy(rf, rf');
    assert Claims(rf', r1, index);
    forall k: Reg | k != r1 ensures !Claims(rf', k, index) {
      assert !Claims(rf, k, index);
    }
    forall k: Reg ensures !Claims(rf', k, top) {
      assert k != r2 ==> !Claims(rf, k, top);
    }
    forall k: Reg, x: nat | Claims(rf', k, x) ensures x < top {
      assert Claims(rf, k, x);
    }
  }

  /** replace's set and pop up to the pop's callback. */
  lemma ReplaceHeld(g: Gen, index: nat, top: nat, h1: Held, h2: Held)
    requires Tidy(g.regs) && |Pinned(g.regs)| < 7 && index < top && top + 1 == |g.stack| && ClaimsBelow(g.regs, |g.stack|)
    requires h1 == SetBegin(g, index) && h2 == PopBegin(h1.g)
    ensures Tidy(h2.g.regs) && h1.reg != h2.reg
    ensures SoleOwner(h2.g.regs, index, h1.reg) && SoleOwner(h2.g.regs, top, h2.reg)
    ensures Pinned(h2.g.regs) <= Pinned(g.regs) + {h1.reg, h2.reg}
    ensures forall k: Reg, x: nat :: Claims(h2.g.regs, k, x) ==> x == top || (k == h1.reg && x == index) || (k != h1.reg && Claims(g.regs, k, x))
    ensures FirstMatch(h2.g.regs, HoldsSlot(top), h2.reg)
  {
    SetBeginEffects(g, index, 0);
    AddOneCard(Pinned(g.regs), h1.reg);
    SubsetCard(Pinned(h1.g.regs), Pinned(g.regs) + {h1.reg});
    var g1 := h1.g.(stack := h1.g.stack[..top]);
    assert h2 == GetBegin(g1, top);
    GetBeginEffects(g1, top, h1.reg);
    forall k: Reg | k != h1.reg ensures !Claims(h2.g.regs, k, index) {
      assert !Claims(h1.g.regs, k, index);
    }
    SoleFirst(h2.g.regs, top, h2.reg);
  }

  /** No register claims both `i` and `j`. */
  ghost predicate Apart(rf: RegFile, i: nat, j: nat) {
    forall k: Reg :: !(Claims(rf, k, i) && Claims(rf, k, j))
  }

  /** No register claims slot `i`. */
  ghost predicate Unclaimed(rf: RegFile, i: nat) {
    forall k: Reg :: !Claims(rf, k, i)
  }

  /**
   * add() on a tidy file with fewer than 6 registers held, where no register
   * claims both of the top two slots and none claims a slot past the stack: the
   * final ADD writes into the register popped first, from the register popped
   * second (which the push of the new slot hands out again, as it already owns
   * that index).  Both end unbound, and so no register claims the new top slot:
   * the pop's unbinding of whatever claims its index, done after the push, drops
   * the sum.  The file stays tidy and no register becomes held.
   */
  lemma AddTopOwnership(g: Gen)
    requires |g.stack| >= 2 && Tidy(g.regs) && |Pinned(g.regs)| < 6 && ClaimsBelow(g.regs, |g.stack|)
    requires Apart(g.regs, |g.stack| - 1, |g.stack| - 2)
    ensures var e := AddTop(g);
            && (exists r1: Reg, r2: Reg ::
                  && e.chunks[|e.chunks| - 1] == AddRegs(r1, r2, r2) && r1 != r2
                  && e.g.regs[r1] == None && e.g.regs[r2] == None)
            && Unclaimed(e.g.regs, |g.stack| - 2)
            && Tidy(e.g.regs) && ClaimsBelow(e.g.regs, |g.stack| - 2)
            && Pinned(e.g.regs) <= Pinned(g.regs)
  {
    var h1 := PopBegin(g);
    var h2 := PopBegin(h1.g);
    var h3 := PushBegin(h2.g);
    var e := AddTop(g);
    AddHeldFirst(g, h1, h2, h3);
    AddLast(g, h1, h2, h3, e);
    AddReleased(g, h1, h2, h3, e.g.regs);
  }

  /** add's two pops, each of a slot no other held register claims. */
  lemma AddPopped(g: Gen, h1: Held, h2: Held)
    requires |g.stack| >= 2 && Tidy(g.regs) && |Pinned(g.regs)| < 6
    requires Apart(g.regs, |g.stack| - 1, |g.stack| - 2)
    requires h1 == PopBegin(g) && h2 == PopBegin(h1.g)
    ensures Tidy(h2.g.regs) && h1.reg != h2.reg
    ensures SoleOwner(h2.g.regs, |g.stack| - 1, h1.reg) && SoleOwner(h2.g.regs, |g.stack| - 2, h2.reg)
    ensures Spared(h2.g.regs, h1.reg) && Avoids(h2.g.regs, h1.reg, StackUse(|g.stack| - 2))
    ensures Pinned(h2.g.regs) <= Pinned(g.regs) + {h1.reg, h2.reg}
    ensures forall k: Reg, x: nat :: Claims(h2.g.regs, k, x) ==> Claims(g.regs, k, x) || k == h1.reg || k == h2.reg
    ensures |h2.g.stack| + 2 == |g.stack|
  {
    var n := |g.stack|;
    var top := n - 1;
    var below := n - 2;
    var g0 := g.(stack := g.stack[..top]);
    assert h1 == GetBegin(g0, top);
    GetBeginEffects(g0, top, 0);
    assert !Claims(h1.g.regs, h1.reg, below) by {
      if exists k: Reg :: Claims(g.regs, k, top) {
        var k: Reg :| Claims(g.regs, k, top);
        SoleFirst(g.regs, top, k);
      }
    }
    AddOneCard(Pinned(g.regs), h1.reg);
    SubsetCard(Pinned(h1.g.regs), Pinned(g.regs) + {h1.reg});
    var g1 := h1.g.(stack := h1.g.stack[..below]);
    assert h2 == GetBegin(g1, below);
    GetBeginEffects(g1, below, h1.reg);
    forall k: Reg | k != h1.reg ensures !Claims(h2.g.regs, k, top) {
      assert !Claims(h1.g.regs, k, top);
    }
  }

  /**
   * push on a tidy file where `r2` owns the new slot's index and the held `r1`
   * owns the next one: push hands out `r2` again, bound to that index alone.
   */
  lemma PushOwned(g: Gen, h: Held, r1: Reg, r2: Reg)
    requires h == PushBegin(g) && Tidy(g.regs) && r1 != r2 && |Pinned(g.regs)| < 8
    requires SoleOwner(g.regs, |g.stack|, r2) && SoleOwner(g.regs, |g.stack| + 1, r1)
    requires Spared(g.regs, r1) && Avoids(g.regs, r1, StackUse(|g.stack|))
    ensures Tidy(h.g.regs) && h.reg == r2
    ensures SoleOwner(h.g.regs, |g.stack| + 1, r1) && SoleOwner(h.g.regs, |g.stack|, r2)
    ensures Pinned(h.g.regs) <= Pinned(g.regs) + {r2}
    ensures forall k: Reg, x: nat :: Claims(h.g.regs, k, x) ==> Claims(g.regs, k, x) || k == r2
  {
    var m := |g.stack|;
    var next := m + 1;
    SoleFirst(g.regs, m, r2);
    var g2 := g.(stack := g.stack + [NextSlot(g.stack)]);
    assert h == SetBegin(g2, m);
    SetBeginEffects(g2, m, r1);
    forall k: Reg | k != r1 ensures !Claims(h.g.regs, k, next) {
      assert !Claims(g.regs, k, next);
    }
  }

  /** add's push hands out the register the second pop holds, which owns the new slot's index. */
  lemma AddPushed(g: Gen, h1: Held, h2: Held, h3: Held)
    requires |g.stack| >= 2 && Tidy(g.regs) && |Pinned(g.regs)| < 6
    requires Apart(g.regs, |g.stack| - 1, |g.stack| - 2)
    requires h1 == PopBegin(g) && h2 == PopBegin(h1.g) && h3 == PushBegin(h2.g)
    ensures Tidy(h3.g.regs) && h1.reg != h2.reg && h3.reg == h2.reg
    ensures SoleOwner(h3.g.regs, |g.stack| - 1, h1.reg) && SoleOwner(h3.g.regs, |g.stack| - 2, h2.reg)
    ensures Pinned(h3.g.regs) <= Pinned(g.regs) + {h1.reg, h2.reg}
    ensures forall k: Reg, x: nat :: Claims(h3.g.regs, k, x) ==> Claims(g.regs, k, x) || k == h1.reg || k == h2.reg
  {
    AddPopped(g, h1, h2);
    AddOneCard(Pinned(g.regs), h1.reg);
    AddOneCard(Pinned(g.regs) + {h1.reg}, h2.reg);
    assert Pinned(g.regs) + {h1.reg} + {h2.reg} == Pinned(g.regs) + {h1.reg, h2.reg};
    SubsetCard(Pinned(h2.g.regs), Pinned(g.regs) + {h1.reg, h2.reg});
    PushOwned(h2.g, h3, h1.reg, h2.reg);
  }

  /** The pops' registers are the first to claim their slots when add's callbacks end. */
  lemma AddHeldFirst(g: Gen, h1: Held, h2: Held, h3: Held)
    requires |g.stack| >= 2 && Tidy(g.regs) && |Pinned(g.regs)| < 6
    requires Apart(g.regs, |g.stack| - 1, |g.stack| - 2)
    requires h1 == PopBegin(g) && h2 == PopBegin(h1.g) && h3 == PushBegin(h2.g)
    ensures h3.reg == h2.reg && h1.reg != h2.reg
    ensures FirstMatch(FreeReg(h3.g.regs, h2.reg), HoldsSlot(|g.stack| - 2), h2.reg)
    ensures FirstMatch(UnsetReg(FreeReg(FreeReg(h3.g.regs, h2.reg), h2.reg), h2.reg), HoldsSlot(|g.stack| - 1), h1.reg)
  {
    AddPushed(g, h1, h2, h3);
    AddFirsts(h3.g.regs, h1.reg, h2.reg, |g.stack| - 2);
  }

  /** The owners of slots m and m + 1 after add's push, through the releases and the inner pop's unbinding. */
  lemma AddFirsts(rf: RegFile, r1: Reg, r2: Reg, m: nat)
    requires r1 != r2 && SoleOwner(rf, m + 1, r1) && SoleOwner(rf, m, r2)
    ensures FirstMatch(FreeReg(rf, r2), HoldsSlot(m), r2)
    ensures FirstMatch(UnsetReg(FreeReg(FreeReg(rf, r2), r2), r2), HoldsSlot(m + 1), r1)
  {
    var next := m + 1;
    var a := FreeReg(rf, r2);
    FlagsKeep(rf, r2, None, Some(true));
    assert forall k: Reg :: SlotsOf(a[k]) == SlotsOf(rf[k]);
    forall k: Reg | k != r2 ensures !Claims(a, k, m) {
      assert !Claims(rf, k, m);
    }
    SoleFirst(a, m, r2);
    var b := UnsetReg(FreeReg(a, r2), r2);
    FlagsKeep(a, r2, None, Some(true));
    assert forall k: Reg :: k != r2 ==> SlotsOf(b[k]) == SlotsOf(rf[k]);
    forall k: Reg | k != r1 ensures !Claims(b, k, next) {
      assert !Claims(rf, k, next);
    }
    SoleFirst(b, next, r1);
  }

  /** add's last chunk and its register file, written out from the file at the push's callback. */
  lemma AddLast(g: Gen, h1: Held, h2: Held, h3: Held, e: Emit)
    requires |g.stack| >= 2
    requires h1 == PopBegin(g) && h2 == PopBegin(h1.g) && h3 == PushBegin(h2.g) && e == AddTop(g)
    requires h3.reg == h2.reg
    requires FirstMatch(FreeReg(h3.g.regs, h2.reg), HoldsSlot(|g.stack| - 2), h2.reg)
    requires FirstMatch(UnsetReg(FreeReg(FreeReg(h3.g.regs, h2.reg), h2.reg), h2.reg), HoldsSlot(|g.stack| - 1), h1.reg)
    ensures e.chunks[|e.chunks| - 1] == AddRegs(h1.reg, h2.reg, h2.reg)
    ensures e.g.regs == UnsetReg(FreeReg(UnsetReg(FreeReg(FreeReg(h3.g.regs, h2.reg), h2.reg), h2.reg), h1.reg), h1.reg)
  {
    var n := |g.stack|;
    var inner := AddInner(h1.g, h1.reg);
    assert TopIndex(h1.g.stack) == n - 2;
    var g3 := PopEnd(Release(h3.g, h3.reg), h2.reg, n - 2);
    assert inner.g == g3;
    assert g3.regs == UnsetReg(FreeReg(FreeReg(h3.g.regs, h2.reg), h2.reg), h2.reg);
    assert e.g == PopEnd(g3, h1.reg, n - 1);
  }

  /** add's register file after both pops end. */
  lemma AddReleased(g: Gen, h1: Held, h2: Held, h3: Held, rf': RegFile)
    requires |g.stack| >= 2 && Tidy(g.regs) && |Pinned(g.regs)| < 6 && ClaimsBelow(g.regs, |g.stack|)
    requires Apart(g.regs, |g.stack| - 1, |g.stack| - 2)
    requires h1 == PopBegin(g) && h2 == PopBegin(h1.g) && h3 == PushBegin(h2.g)
    requires rf' == UnsetReg(FreeReg(UnsetReg(FreeReg(FreeReg(h3.g.regs, h2.reg), h2.reg), h2.reg), h1.reg), h1.reg)
    ensures rf'[h1.reg] == None && rf'[h2.reg] == None
    ensures Unclaimed(rf', |g.stack| - 2)
    ensures Tidy(rf') && ClaimsBelow(rf', |g.stack| - 2)
    ensures Pinned(rf') <= Pinned(g.regs)
  {
    AddPushed(g, h1, h2, h3);
    AddRegsFinal(g.regs, h3.g.regs, h1.reg, h2.reg, |g.stack| - 2, rf');
  }

  /** Freeing and unbinding the two owners of the top slots. */
  lemma AddRegsFinal(rf0: RegFile, rf: RegFile, r1: Reg, r2: Reg, m: nat, rf': RegFile)
    requires Tidy(rf) && r1 != r2 && SoleOwner(rf, m + 1, r1) && SoleOwner(rf, m, r2)
    requires ClaimsBelow(rf0, m + 2) && Pinned(rf) <= Pinned(rf0) + {r1, r2}
    requires forall k: Reg, x: nat :: Claims(rf, k, x) ==> Claims(rf0, k, x) || k == r1 || k == r2
    requires rf' == UnsetReg(FreeReg(UnsetReg(FreeReg(FreeReg(rf, r2), r2), r2), r1), r1)
    ensures rf'[r1] == None && rf'[r2] == None
    ensures Unclaimed(rf', m)
    ensures Tidy(rf') && ClaimsBelow(rf', m)
    ensures Pinned(rf') <= Pinned(rf0)
  {
    var next := m + 1;
    assert forall k: Reg :: k != r1 && k != r2 ==> rf'[k] == rf[k];
    forall k: Reg, x: nat | Claims(rf', k, x) ensures Claims(rf, k, x) && k != r1 && k != r2 {
    }
    forall k: Reg, x: nat | Claims(rf', k, x) ensures x < m {
      assert Claims(rf0, k, x);
      assert x != next && x != m by {
        assert !Claims(rf, k, next) && !Claims(rf, k, m);
      }
    }
    forall k: Reg | k in Pinned(rf') ensures k in Pinned(rf0) {
      assert k in Pinned(rf);
    }
  }

  // ---------------------------------------------------------------- return

  /**
   * return() on a tidy file with fewer than 7 registers held: it first emits
   * exactly what get(0, R0) emits, and ends with a JUMP through the register the
   * pop got for the top slot, which is then unbound, so that nobody claims the
   * popped slot.  When after the get R0 owns slot 0, is held and does not claim
   * the top slot, the pop does not take R0, and R0 still owns slot 0 at the end.
   * The file stays tidy.
   */
  lemma ReturnOwnership(g: Gen)
    requires |g.stack| >= 1 && Tidy(g.regs) && |Pinned(g.regs)| < 7
    ensures var top := |g.stack| - 1;
            var got := GetFixed(g, 0, R0);
            var e := Return(g);
            && got.chunks <= e.chunks
            && (exists r: Reg ::
                  && e.chunks[|e.chunks| - 1] == Jump(r) && e.g.regs[r] == None
                  && (Claims(got.g.regs, R0, 0) && Avoids(got.g.regs, R0, StackUse(top)) ==> r != R0 && Claims(e.g.regs, R0, 0)))
            && Unclaimed(e.g.regs, top)
            && Tidy(e.g.regs)
  {
    var top := |g.stack| - 1;
    var got := GetFixed(g, 0, R0);
    var h := PopBegin(got.g);
    var e := Return(g);
    ReturnPopped(g, top, got, h);
    ReturnLast(g, top, got, h, e);
    PopEndOwnership(h.g, h.reg, top);
  }

  /** return's get and pop up to the pop's callback. */
  lemma ReturnPopped(g: Gen, top: nat, got: Emit, h: Held)
    requires |g.stack| >= 1 && top + 1 == |g.stack| && Tidy(g.regs) && |Pinned(g.regs)| < 7
    requires got == GetFixed(g, 0, R0) && h == PopBegin(got.g)
    ensures Tidy(h.g.regs) && FirstMatch(h.g.regs, HoldsSlot(top), h.reg)
    ensures Claims(got.g.regs, R0, 0) && Avoids(got.g.regs, R0, StackUse(top)) ==> h.reg != R0 && h.g.regs[R0] == got.g.regs[R0]
  {
    GetFixedOwnership(g, 0, R0);
    AddOneCard(Pinned(g.regs), R0);
    SubsetCard(Pinned(got.g.regs), Pinned(g.regs) + {R0});
    var g1 := got.g.(stack := got.g.stack[..top]);
    assert h == GetBegin(g1, top);
    GetBeginEffects(g1, top, R0);
    SoleFirst(h.g.regs, top, h.reg);
  }

  /** return's chunks and register file, written out from the pop's callback. */
  lemma ReturnLast(g: Gen, top: nat, got: Emit, h: Held, e: Emit)
    requires |g.stack| >= 1 && top + 1 == |g.stack|
    requires got == GetFixed(g, 0, R0) && h == PopBegin(got.g) && e == Return(g)
    requires FirstMatch(h.g.regs, HoldsSlot(top), h.reg)
    ensures e.chunks == got.chunks + h.chunks + [Jump(h.reg)]
    ensures e.g == PopEnd(h.g, h.reg, top)
    ensures e.g.regs == UnsetReg(FreeReg(h.g.regs, h.reg), h.reg)
  {
  }
}
