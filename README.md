# A verified model of the stack-to-register code generator, the named scope and the lazy sequence library

This project models three parts of the `gidra5/parser` TypeScript code base in Dafny
and proves properties of the model.

- **The instruction factory** (`InstructionFactory`, ts/src/compiler/instructionsFactory.ts).
  It compiles a stack machine onto 8 registers. Its state is:
  - a symbolic operand stack of `{offset, size}` slots;
  - a register file of 8 entries, each free or bound to a data cell and/or a set of stack
    slot indices, with a `stale` (not yet written back) flag and a `weak` (reusable) flag;
  - a stack of saved frames;
  - the data segment that `pushData` appends to.

  The operations emit instruction chunks. They are push, pop, get, set, insert, swap,
  copy, replace, add, call, return, entry, dataGet, dataSet, writeBack, pushStackFrame,
  popStackFrame, updateStackBase, join and split.
- **The named scope** (`Scope`, ts/src/scope.ts). It is a list of values plus a map from
  names to positions in that list.
- **The lazy sequence library** (`Iterator`, ts/src/iterator.ts). Each lazy sequence is
  described by what one traversal yields from a finite source.

## Files

| File | Module | What it holds |
|---|---|---|
| wrappers.dfy | `Wrappers` | `Option`, used for JavaScript's `undefined` and `null` results. |
| registers.dfy | `Registers` | The register file. It has value-level functions for `set`, `update`, `unset`, `stale`, `synced`, `allocate`, `free` and `find`. The class `RegisterState` keeps the 8 entries in an array and changes them in place. |
| codegen.dfy | `Codegen` | A functional specification of every factory operation, on a value `Gen`. |
| codegen_frames.dfy | `CodegenFrames` | What writeBack, the register choice and the frame-base reads leave alone: no register becomes held, values are kept or lose their slots, only stale registers are stored, and the exact STORE_REG list of a register's slot stores. |
| codegen_owners.dfy | `CodegenOwnership` | Which register owns which stack slot after get, set, pop, swap, insert, copy, replace, add and return, and that no slot gets two owners. |
| codegen_props.dfy | `CodegenProperties` | Lemmas about the specification: slot ownership, what get, writeBack and swap emit and change, frame round trips, the immediate boundary, and that split is undone by join. |
| factory.dfy | `Factory` | The class `InstructionFactory`. Its methods mutate the fields step by step, as the source does. Each method is proved to return the chunks, and leave the state, that the matching `Codegen` function gives for the old state. |
| scope.dfy | `NamedScope` | The class `Scope` and the lemma that removing a name keeps every other name resolving to the same value. |
| iterator.dfy | `LazySeq` | Traversal models of the generators. Some generators keep state across traversals: `take`'s count, `skip`'s count, `range`'s start and `cached`'s buffer. Those are classes with that state as fields. `zip` and `zipLongest` keep their sources' open iterators too, but only their first traversal is modelled. The rest are functions or methods on `seq`. |

### How callback operations are modelled

In the source, `get`, `set`, `dataGet`, `dataSet`, `push`, `pop` and `insert` take either
a register or a callback `(reg) => chunks`.

- The register form is a function or method named `...Fixed`.
- The callback form is split where the callback runs:
  - `...Begin` does everything up to and including `allocate(reg)`. It returns the chosen
    register and the chunks so far.
  - The caller then emits the callback's chunks inline.
  - `Release` (`free(reg)`) does what follows the callback. For pop it is `PopEnd`, and for
    insert it is `InsertEnd` (the free, then the swap loop). insert's own Begin half is
    `PushBegin`, since insert starts with `push(callback)`.

Every callback the factory itself passes is inlined in this way. Examples are the
`STORE_REG` in writeBack, the `LOAD_REG` in get and the `ADD`s in copy, replace, add and
updateStackBase.

### The collaborators that are not part of this model

These files are not part of this model, so their behaviour is taken from how the factory
uses them:

- **ts/src/compiler/registers.js.** It is modelled as 8 entries, each `null` or
  `{value, stale, weak}`.
  - `set` binds afresh, stale and not weak.
  - `update` replaces the value and keeps the flags. On a free register it acts as `set`.
  - `stale`, `synced`, `allocate` and `free` change one flag. `allocate` clears `weak` and
    `free` sets it. They do nothing on a free register.
  - `find(pred)` returns the lowest-numbered matching register, or `null`.
  - `clear` frees every register.
- **The stack's Scope variant.** It is a sequence of slots with `size`, `get({index})`,
  `push`, `removeByIndex` and `drop`. `updateNames` changes nothing here, because no stack
  slot has a name.
- **vm/utils.js.** `signExtend(x, 5)` is the 5-bit two's-complement reading of `x`.
  `Register.R_R0` and `Register.R_R1` are registers 0 and 1.
- **chunks.js.** A chunk is a record holding an opcode and the fields it was given.

## Model

| member | source | states |
|---|---|---|
| Registers.Delete | ts/src/compiler/instructionsFactory.ts:111 | Removing a slot index from a slot set. The index is gone, every other member stays, and the set does not grow. |
| Registers.Insert | ts/src/compiler/instructionsFactory.ts:186 | Adding a slot index to a slot set. The members are exactly the old ones plus the index. |
| Registers.SetReg | ts/src/compiler/instructionsFactory.ts:106 | `registers.set` binds the register to the value as stale and held. Every other register is untouched. |
| Registers.UpdateReg | ts/src/compiler/instructionsFactory.ts:114 | `registers.update` replaces the value and keeps both flags. A free register becomes bound as by `set`. Nothing else changes. |
| Registers.UnsetReg | ts/src/compiler/instructionsFactory.ts:113 | `registers.unset` frees exactly that register. |
| Registers.WithFlags | ts/src/compiler/instructionsFactory.ts:124-125 | The flag setters change only the named flags of the named register. They leave a free register free. |
| Registers.FindFromSpec | ts/src/compiler/instructionsFactory.ts:43-46 | `registers.find` returns the lowest-numbered matching register. `null` means that no register matches. |
| Registers.StaleSetEffects | ts/src/compiler/instructionsFactory.ts:106 | `set` adds the register to the stale set and `synced` removes it. `allocate` and `free` leave the stale set as it is. |
| Registers.SomeUnpinned | ts/src/compiler/instructionsFactory.ts:37-39 | While fewer than 8 registers are held, some register is free or weak. This is the guarantee the comment on `findRegister` relies on. |
| Registers.RegisterState.constructor | ts/src/compiler/instructionsFactory.ts:18 | A new register file has all 8 registers free. |
| Registers.RegisterState.Get | ts/src/compiler/instructionsFactory.ts:104 | `registers.get(reg)` reads the register's current entry. |
| Registers.RegisterState.Set | ts/src/compiler/instructionsFactory.ts:106 | In place, the new register file is `SetReg` of the old one. |
| Registers.RegisterState.Update | ts/src/compiler/instructionsFactory.ts:114 | In place, the new register file is `UpdateReg` of the old one. |
| Registers.RegisterState.Unset | ts/src/compiler/instructionsFactory.ts:113 | In place, the new register file is `UnsetReg` of the old one. |
| Registers.RegisterState.SetFlags | ts/src/compiler/instructionsFactory.ts:124-125 | In place, the new register file is `WithFlags` of the old one. |
| Registers.RegisterState.Stale | ts/src/compiler/instructionsFactory.ts:124 | Sets only the stale flag of the register. |
| Registers.RegisterState.Synced | ts/src/compiler/instructionsFactory.ts:125 | Clears only the stale flag of the register. |
| Registers.RegisterState.Allocate | ts/src/compiler/instructionsFactory.ts:163 | Marks the register held (not weak). |
| Registers.RegisterState.Free | ts/src/compiler/instructionsFactory.ts:165 | Marks the register reusable (weak). |
| Registers.RegisterState.Clear | ts/src/compiler/instructionsFactory.ts:395 | The loop leaves every register free. |
| Registers.RegisterState.Find | ts/src/compiler/instructionsFactory.ts:43-50 | The scan returns the lowest-numbered match, the same answer as the value-level search. |
| Codegen.AppendAssoc | ts/src/compiler/instructionsFactory.ts:116 | Chunk lists pushed one after another concatenate associatively. |
| Codegen.FindRegisterCases | ts/src/compiler/instructionsFactory.ts:42-55 | findRegister case by case. For data or a stack slot, it gives the first register bound to it if one exists. Otherwise it gives the first free register, and null only when none is free. With no use case, it gives the first free register, else the first weak one, else null. |
| Codegen.FindAnyAvailable | ts/src/compiler/instructionsFactory.ts:37-40 | While fewer than 8 registers are held, `findRegister()` finds a free or weak register. The model's register-0 fallback is then never taken, and the register found is not held. |
| Codegen.Release | ts/src/compiler/instructionsFactory.ts:165 | Freeing a register after a callback changes only the register file and keeps the stale set. |
| Codegen.WithSlots | ts/src/compiler/instructionsFactory.ts:114 | An entry's value with a new slot set keeps its data cell. |
| Codegen.WriteBack | ts/src/compiler/instructionsFactory.ts:372-389 | writeBack changes only the registers. With no filter, no register is stale afterwards. With a filter, that register is not stale afterwards. No register becomes stale. |
| Codegen.WriteBackFrom | ts/src/compiler/instructionsFactory.ts:373-388 | The remaining visits from register `i` on. Once every stale register is at `i` or above, no filter leaves none stale. A filter at or above `i` ends up synced. A filter below `i` leaves nothing to do. |
| Codegen.Flush | ts/src/compiler/instructionsFactory.ts:374-387 | The visit of one register. It never adds a stale register. It removes the visited register from the stale set unless the filter names another register, in which case it emits and changes nothing. |
| Codegen.StoreSlots | ts/src/compiler/instructionsFactory.ts:381-386 | The per-index stores change only the registers and never add a stale register. The STORE_REG list itself is stated by `CodegenProperties.StoreSlotsStores`. |
| Codegen.Choose | ts/src/compiler/instructionsFactory.ts:323-329 | The callback forms take the use case's findRegister answer untouched when there is one. Otherwise they take `findRegister()`'s register, after writing back only that register, which leaves it synced. |
| Codegen.DataGetBegin | ts/src/compiler/instructionsFactory.ts:323-338 | Before its callback, dataGet holds a register that is bound to the data cell. It never adds a stale register. |
| Codegen.DataGetFixed | ts/src/compiler/instructionsFactory.ts:310-321 | dataGet(index, reg) leaves `reg` bound to the cell and synced. |
| Codegen.DataSetBegin | ts/src/compiler/instructionsFactory.ts:356-365 | dataSet's register is bound to the cell only, stale and held, when its callback runs. |
| Codegen.DataSetFixed | ts/src/compiler/instructionsFactory.ts:347-354 | dataSet(index, reg) leaves `reg` bound to the cell only, stale. |
| Codegen.LoadSlot | ts/src/compiler/instructionsFactory.ts:127-132 | The load through the frame base ends with a LOAD_REG into `reg` at the slot's offset. It changes only the registers. |
| Codegen.TakeOver | ts/src/compiler/instructionsFactory.ts:108-125 | The move path emits exactly one register move. The previous owner no longer claims the slot. When the two registers differ, `reg` inherits the previous owner's stale flag. |
| Codegen.GetFixed | ts/src/compiler/instructionsFactory.ts:100-139 | get(index, reg) changes only the register file. Its case analysis is in the `CodegenProperties.GetFixed...` lemmas. |
| Codegen.Fill | ts/src/compiler/instructionsFactory.ts:104-136 | What get(index, reg) does after its write-back changes only the register file. |
| Codegen.GetBegin | ts/src/compiler/instructionsFactory.ts:141-163 | Before its callback, get holds a register that claims the slot. |
| Codegen.SetFixed | ts/src/compiler/instructionsFactory.ts:171-190 | set(index, reg) emits nothing and leaves `reg` claiming the slot. The full ownership effect is in `CodegenProperties.SetFixedOwnership`. |
| Codegen.SetBegin | ts/src/compiler/instructionsFactory.ts:192-201 | set's register is bound to that slot alone, stale and held, when its callback runs. |
| Codegen.PushFixed | ts/src/compiler/instructionsFactory.ts:81-86 | push(reg) appends the slot right after the old top, or at offset 0 on an empty stack. It emits no chunks. |
| Codegen.PushBegin | ts/src/compiler/instructionsFactory.ts:81-86 | push(callback) appends the same new slot before its callback runs. |
| Codegen.UnsetHolder | ts/src/compiler/instructionsFactory.ts:92-93 | After the read, pop unbinds exactly the first register that claims the slot. If none claims it, nothing changes. |
| Codegen.PopFixed | ts/src/compiler/instructionsFactory.ts:88-95 | pop(reg) removes the last slot. The frames and the data segment are untouched. Its chunks and the unbinding of the slot's claimant are stated by `CodegenOwnership.PopFixedOwnership`. |
| Codegen.PopBegin | ts/src/compiler/instructionsFactory.ts:88-91 | pop(callback) has removed the last slot by the time its callback runs. |
| Codegen.PopEnd | ts/src/compiler/instructionsFactory.ts:92-94 | What follows pop's callback: `reg` is freed, then the first register claiming the popped index is unbound. When no register claims that index, only the free happens. Only the register file changes. |
| Codegen.Relabel | ts/src/compiler/instructionsFactory.ts:224-233 | swap's callback. The register held for `i` now claims `j` and not `i`, and the one held for `j` claims `i` and not `j`. Their other slots are kept, both are stale, and every other register is unchanged. |
| Codegen.Swap | ts/src/compiler/instructionsFactory.ts:218-239 | swap changes only the register file. Its chunks and relabelling are in `CodegenProperties.SwapRelabels`. |
| Codegen.SwapDown | ts/src/compiler/instructionsFactory.ts:211-213 | The adjacent swaps of insert's loop change only the register file. |
| Codegen.InsertFixed | ts/src/compiler/instructionsFactory.ts:208-216 | insert(index, reg) grows the stack by the pushed slot. The swaps move values between registers, not slots. Who owns which slot afterwards is stated by `CodegenOwnership.InsertOwnership`. |
| Codegen.InsertEnd | ts/src/compiler/instructionsFactory.ts:208-216 | What insert(index, callback) does after its callback: the register is freed and the new slot is swapped down to `index`. Only the registers change. When `index` is at or past the top slot, nothing is emitted and only the free happens. |
| Codegen.CopySlot | ts/src/compiler/instructionsFactory.ts:241-243 | copy(index) pushes one new slot and ends with an ADD. Which registers that ADD joins, and who owns the copy, are stated by `CodegenOwnership.CopyOwnership`. |
| Codegen.ReplaceSlot | ts/src/compiler/instructionsFactory.ts:245-247 | replace(index) removes the top slot and ends with an ADD. Which registers that ADD joins, and who owns the result, are stated by `CodegenOwnership.ReplaceOwnership`. |
| Codegen.AddInner | ts/src/compiler/instructionsFactory.ts:250 | Inside add's first pop: the second pop and the push leave the popped slot replaced by a fresh one. The last chunk adds into the first pop's register. |
| Codegen.AddTop | ts/src/compiler/instructionsFactory.ts:249-251 | add() replaces the top two slots by one new slot and ends with an ADD. Its registers and the fate of the sum are stated by `CodegenOwnership.AddTopOwnership`. |
| Codegen.SignExtend5 | ts/src/compiler/instructionsFactory.ts:407 | `signExtend(x, 5)` lies in -16..15 and agrees with `x` modulo 32. |
| Codegen.ImmediateRange | ts/src/compiler/instructionsFactory.ts:406-407 | `signExtend(d & 0x1f, 5) == d` holds exactly for -16 <= d <= 15. |
| Codegen.UpdateStackBase | ts/src/compiler/instructionsFactory.ts:404-415 | updateStackBase leaves the stack and the frames alone. It appends `d` to the data segment exactly when `d` is non-zero and does not fit the immediate. |
| Codegen.PushStackFrame | ts/src/compiler/instructionsFactory.ts:391-397 | pushStackFrame saves the current stack as the new top frame and installs an empty stack. The data segment gains the old size exactly when that size does not fit the immediate field. The chunks are in `CodegenProperties.PushStackFrameCases`. |
| Codegen.PopStackFrame | ts/src/compiler/instructionsFactory.ts:399-402 | popStackFrame restores the top saved stack and removes it from the frames. The data segment gains minus its size exactly when that delta does not fit the immediate field. The chunks are in `CodegenProperties.PopStackFrameCases`. |
| Codegen.CallSetup | ts/src/compiler/instructionsFactory.ts:254-262 | The first part of call() grows the stack by the inserted return-address slot. Its first chunk is the first chunk of whatever insert emitted, followed by LOAD_EFFECTIVE_ADDRESS. When insert emitted nothing, that first chunk is the LOAD_EFFECTIVE_ADDRESS itself. |
| Codegen.CallJump | ts/src/compiler/instructionsFactory.ts:264-272 | The pop of the callee address removes the top slot, then drops three more. The frames are as before. |
| Codegen.Call | ts/src/compiler/instructionsFactory.ts:253-282 | call() patches chunk 0's value to the number of chunks emitted up to the patch. That chunk is the return-address LOAD_EFFECTIVE_ADDRESS only when insert emitted nothing, and this quirk is kept. The first `size - 3` slots are kept and the stack shrinks by two. |
| Codegen.CallFinish | ts/src/compiler/instructionsFactory.ts:274-281 | The end of call(): the chunks are the patched list, and R0 is pushed as the result slot. |
| Codegen.Patch | ts/src/compiler/instructionsFactory.ts:274 | Only chunk 0 changes, and its value becomes the list's length. |
| Codegen.Return | ts/src/compiler/instructionsFactory.ts:288-292 | return() starts with exactly the chunks of get(0, R0), removes the top slot and ends with a JUMP. The JUMP's register and R0's ownership of slot 0 are stated by `CodegenOwnership.ReturnOwnership`. |
| Codegen.EntryFrame | ts/src/compiler/instructionsFactory.ts:294-307 | entry pushes the return-address, argument and closure slots, all at offset 0. It binds R0 to slot 0 and R1 to slot 1, leaves the other registers alone and emits nothing. |
| Codegen.Join | ts/src/compiler/instructionsFactory.ts:60-68 | join(index, count) replaces the slots from `index` (at most `count`) by one slot. The new slot keeps the first slot's offset and sums their sizes. The rest of the stack is kept around it. |
| Codegen.Split | ts/src/compiler/instructionsFactory.ts:70-79 | split(index, k) turns the slot into sizes k and size - k, at offsets o and o + k, and keeps the rest. |
| CodegenProperties.FirstMatchUnique | ts/src/compiler/instructionsFactory.ts:43-46 | The first register matching a query is unique. |
| CodegenProperties.SplitJoinRoundTrip | ts/src/compiler/instructionsFactory.ts:60-79 | split(index, k) followed by join(index, 2) restores the original stack. |
| CodegenProperties.SetFixedOwnership | ts/src/compiler/instructionsFactory.ts:170-190 | After set(index, reg), `reg` claims the slot, the previous owner no longer does, and every other claim is unchanged. If no slot had two owners before, `reg` is the slot's only owner and still no slot has two. |
| CodegenProperties.PushFixedOwnership | ts/src/compiler/instructionsFactory.ts:81-86 | push(reg) emits nothing, appends the next slot, and makes `reg` the new slot's only owner. It keeps every slot single-owned. |
| CodegenProperties.GetFixedClaimed | ts/src/compiler/instructionsFactory.ts:100-104 | get(index, reg) first writes back only `reg`. If `reg` then claims the slot, nothing more is emitted and `reg` is synced. |
| CodegenProperties.GetFixedMove | ts/src/compiler/instructionsFactory.ts:105-125 | When another register is the first to claim the slot, get emits exactly one register move from it. That register loses the slot and is unbound if it has none left. `reg` claims only the slot and inherits the other register's stale flag. The rest is unchanged. |
| CodegenProperties.GetFixedSelfMove | ts/src/compiler/instructionsFactory.ts:104-125 | The quirk, kept faithfully. When no register claims the slot and `reg` is the first free one, findRegister gives `reg` itself. The move path then runs on `reg`: it emits a move of `reg` onto itself and leaves `reg` unbound. |
| CodegenProperties.GetFixedLoad | ts/src/compiler/instructionsFactory.ts:126-135 | When no register claims the slot and `reg` is not the first free one, get loads through the frame base. It ends with a LOAD_REG of `reg` at the slot's offset. While fewer than 7 registers are held, `reg` ends bound to exactly that slot, synced and held. Otherwise `reg` claims at most that slot and is synced if bound. |
| CodegenProperties.WriteBackSkips | ts/src/compiler/instructionsFactory.ts:376 | With a filter, the registers before it are skipped without effect. |
| CodegenProperties.WriteBackOnly | ts/src/compiler/instructionsFactory.ts:372-389 | writeBack(r) does exactly what visiting `r` alone does. |
| CodegenProperties.WriteBackClean | ts/src/compiler/instructionsFactory.ts:374-375 | With no stale register, writeBack emits nothing and changes nothing. |
| CodegenProperties.StoreSlotsStores | ts/src/compiler/instructionsFactory.ts:381-386 | For a register that is no longer stale, the STORE_REGs of that register carry exactly the indices of its slot set, one each, in the set's order. Every other STORE_REG is of a register that was stale. |
| CodegenProperties.FlushCases | ts/src/compiler/instructionsFactory.ts:374-387 | A register that is not stale produces nothing. A stale data-bound register emits exactly one STORE at its cell and is synced. A stale stack-bound register's STORE_REGs carry exactly its slot indices, in order, and any other STORE_REG is of a stale register. A visited stale register is synced afterwards. |
| CodegenProperties.UnsetHolderClears | ts/src/compiler/instructionsFactory.ts:92-93 | When at most one register claims the slot, none claims it after pop. That register is freed and every other one is unchanged. |
| CodegenProperties.SwapRelabels | ts/src/compiler/instructionsFactory.ts:218-239 | swap emits only its two gets' chunks. The register that held `i` claims `j` and not `i`, and vice versa. Both are stale, and no other register changes. |
| CodegenProperties.FrameRoundTrip | ts/src/compiler/instructionsFactory.ts:391-402 | popStackFrame after pushStackFrame restores the stack and the saved frames. |
| CodegenProperties.PushEmptyFrame | ts/src/compiler/instructionsFactory.ts:391-397 | Saving an empty stack clears the registers and emits nothing, because the frame base does not move. |
| CodegenProperties.UpdateStackBaseCases | ts/src/compiler/instructionsFactory.ts:404-415 | A delta of 0 emits nothing. A delta in -16..15 keeps the data segment and ends with one ADD-immediate of d on a register bound to the frame-base cell. Any other delta is appended to the data segment and ends with a register-register ADD. |
| CodegenProperties.PushStackFrameCases | ts/src/compiler/instructionsFactory.ts:391-397 | After pushStackFrame no register claims a stack slot. An empty stack emits nothing and leaves every register free. For a size n in 1..15 the only chunk is ADD R0, R0, #n. For a larger n, with a non-empty data segment, the chunks are LOAD R0 from the new cell holding n, then ADD R0, R1, R0 with R1 bound to the frame base. |
| CodegenProperties.PushLoaded | ts/src/compiler/instructionsFactory.ts:412-414 | The data-segment branch of updateStackBase on cleared registers: R0 gets the delta, R1 the frame base, and no register claims a slot. |
| CodegenProperties.GetOnEmpty | ts/src/compiler/instructionsFactory.ts:323-338 | dataGet on cleared registers takes R0, emits one LOAD of the cell, and leaves R0 bound to the cell, synced and held. |
| CodegenProperties.SetAfterLoad | ts/src/compiler/instructionsFactory.ts:356-365 | dataSet of the frame-base cell, when only R0 is bound and to another cell, takes R1 and emits nothing. |
| CodegenProperties.PopStackFrameCases | ts/src/compiler/instructionsFactory.ts:399-402 | popStackFrame with a saved frame of m slots: nothing for m == 0. For m in 1..16, it ends with an ADD-immediate of -m on a register bound to the frame-base cell. For a larger m, -m is appended to the data segment and the last chunk is an ADD. |
| CodegenProperties.FrameDataRoundTrip | ts/src/compiler/instructionsFactory.ts:391-415 | A push and pop of a frame of n slots leave the data segment with `Spilled(n)` and then `Spilled(-n)` appended: n only when n > 15, -n only when n > 16, nothing otherwise. |
| Codegen.Spilled | ts/src/compiler/instructionsFactory.ts:404-415 | What updateStackBase(d) adds to the data segment: nothing exactly when -16 <= d <= 15, and otherwise the single value d. |
| CodegenProperties.FrameDeltasCancel | ts/src/compiler/instructionsFactory.ts:391-415 | For 1 <= n <= 15 the round trip advances the frame base with ADD #n and retreats it with an ADD of #-n, so the two deltas cancel. |
| CodegenFrames.Offsets | ts/src/compiler/instructionsFactory.ts:381-386 | The slot indices as the `value` fields of their stores, position by position. |
| CodegenFrames.StoredSlotsAppend | ts/src/compiler/instructionsFactory.ts:381-386 | The stores of a register in two chunk lists one after the other are the stores of the first, then those of the second. |
| CodegenFrames.StoredSlotsNone | ts/src/compiler/instructionsFactory.ts:372-389 | A chunk list that stores only registers of a set stores no register outside it. |
| CodegenFrames.WriteBackFromEffects | ts/src/compiler/instructionsFactory.ts:372-389 | writeBack from register `i` on: no register becomes held, each register keeps its value or loses all its slots, only stale registers get a STORE_REG, and a held register that does not mirror the frame base and is not written back is left as it was. |
| CodegenFrames.FlushEffects | ts/src/compiler/instructionsFactory.ts:374-387 | The same four facts for the visit of one register. |
| CodegenFrames.FlushSlotsEffects | ts/src/compiler/instructionsFactory.ts:378-386 | The same four facts for the slot-store branch of that visit. |
| CodegenFrames.StoreSlotsEffects | ts/src/compiler/instructionsFactory.ts:381-386 | The same facts for the slot stores. When the stored register is not stale, its STORE_REGs carry exactly its slot indices, in order. |
| CodegenFrames.StoreStepRegs | ts/src/compiler/instructionsFactory.ts:381-386 | One store step, inside dataGet(0), keeps what the list before it kept. |
| CodegenFrames.StoreStepChunks | ts/src/compiler/instructionsFactory.ts:381-386 | One store step adds exactly one STORE_REG of the register, at the head of the remaining indices. |
| CodegenFrames.ChooseEffects | ts/src/compiler/instructionsFactory.ts:323-329 | The register choice behind the callback forms: no register becomes held, values are kept or lose their slots, only stale registers are stored, and a held register that the use case does not ask for is neither picked nor changed. |
| CodegenFrames.DataGetBeginEffects | ts/src/compiler/instructionsFactory.ts:323-338 | dataGet up to its callback: the same facts, and only the returned register can become held. |
| CodegenFrames.LoadSlotEffects | ts/src/compiler/instructionsFactory.ts:127-132 | A stack load through the frame base: the same facts, and a held register that does not mirror the frame base is left as it was. |
| CodegenFrames.KeepsTrans | ts/src/compiler/instructionsFactory.ts:372-389 | Keeping values composes over successive steps. |
| CodegenFrames.FlagsKeep | ts/src/compiler/instructionsFactory.ts:124-125 | Changing flags keeps every value. |
| CodegenFrames.RebindEffects | ts/src/compiler/instructionsFactory.ts:332-338 | Binding a register afresh to a data cell, synced and held, keeps every other register and adds no slot claim. |
| CodegenOwnership.KeepsTidy | ts/src/compiler/instructionsFactory.ts:372-389 | Keeping values adds no slot claim, and keeps the file tidy: no slot has two owners and no slot owner mirrors a data cell. |
| CodegenOwnership.GetBeginEffects | ts/src/compiler/instructionsFactory.ts:141-163 | get(index, callback) up to the callback: only the handed-out register can become held, and it is the only new claim, on the slot. A first claimant is handed out as it is, with no chunks. On a tidy file the result is tidy and the handed-out register is the slot's only owner. When nobody claimed the slot, that register is bound to the slot alone. |
| CodegenOwnership.GetBeginLoad | ts/src/compiler/instructionsFactory.ts:149-163 | The load path of that prefix: the handed-out register is bound to the slot alone, and only it can become held. |
| CodegenOwnership.LoadBind | ts/src/compiler/instructionsFactory.ts:149-163 | Binding the chosen register to the slot alone, synced and held, adds only its claim on the slot and keeps the file tidy. |
| CodegenOwnership.SetBeginEffects | ts/src/compiler/instructionsFactory.ts:192-201 | set(index, callback) up to the callback: the handed-out register claims the slot and nothing else, every other claim is as before, a first claimant is handed out with no chunks, and on a tidy file it is the slot's only owner. |
| CodegenOwnership.BindSlot | ts/src/compiler/instructionsFactory.ts:199-201 | Binding a register to one slot alone, held: only its own claims change, and it becomes the only owner when nobody else claimed the slot. |
| CodegenOwnership.FillOwnership | ts/src/compiler/instructionsFactory.ts:104-136 | get(index, reg) after its write-back, on a tidy file: the result is tidy, no claim is added except `reg`'s on the slot, and no other register claims it. While fewer than 7 registers are held, `reg` claims the slot, or is unbound in the self-move quirk. |
| CodegenOwnership.MoveOwnership | ts/src/compiler/instructionsFactory.ts:105-125 | The move path: the first claimant hands its slot to `reg` and keeps its other slots. |
| CodegenOwnership.UnbindOwnership | ts/src/compiler/instructionsFactory.ts:104-125 | The self-move path: `reg` ends unbound and nothing else changes. |
| CodegenOwnership.LoadOwnership | ts/src/compiler/instructionsFactory.ts:126-135 | The load path: `reg` claims at most the slot, which nobody claimed before. |
| CodegenOwnership.ClaimsUnique | ts/src/compiler/instructionsFactory.ts:100-139 | Adding one claim on a slot nobody else claims keeps every slot single-owned. |
| CodegenOwnership.GetFixedOwnership | ts/src/compiler/instructionsFactory.ts:100-139 | get(index, reg) on a tidy file keeps it tidy, adds no claim except `reg`'s on the slot, and leaves no other register claiming it. While fewer than 7 registers are held, `reg` claims the slot or is unbound by the self-move. |
| CodegenOwnership.PopEndOwnership | ts/src/compiler/instructionsFactory.ts:92-94 | pop(callback) after the callback, on a tidy file: nobody claims the popped index, `reg` is no longer held, and the slot's owner is unbound while every other register only has `reg`'s flag changed. The file stays tidy. |
| CodegenOwnership.PopFixedOwnership | ts/src/compiler/instructionsFactory.ts:88-95 | pop(reg) emits exactly the chunks of get(top, reg) on the shortened stack. On a tidy file nobody claims the popped slot afterwards and no claim is added. While fewer than 7 registers are held, `reg` ends unbound. |
| CodegenOwnership.RelabelOwnership | ts/src/compiler/instructionsFactory.ts:224-233 | swap's relabelling: the only owner of `i` becomes the only owner of `j` and vice versa. Every other claim and the held registers are unchanged, and the file stays tidy. |
| CodegenOwnership.RelabelSlots | ts/src/compiler/instructionsFactory.ts:224-233 | The claims after the relabelling, for two distinct registers and for one shared register. |
| CodegenOwnership.SwapOwnership | ts/src/compiler/instructionsFactory.ts:218-239 | swap(i, j) on a tidy file: the register got for `i` becomes the only owner of `j`, and the one got for `j` the only owner of `i`. They differ unless the first already claimed `j`. No other claim is added and no register becomes held. |
| CodegenOwnership.SwapSecond | ts/src/compiler/instructionsFactory.ts:221-222 | swap's second get keeps the first get's register and its sole claim on `i`. |
| CodegenOwnership.ReleaseTwice | ts/src/compiler/instructionsFactory.ts:221-235 | Freeing swap's two registers keeps every claim and releases both. |
| CodegenOwnership.SoleFirst | ts/src/compiler/instructionsFactory.ts:43-46 | A slot's only owner is the register findRegister returns for it. |
| CodegenOwnership.SwapDownOwnership | ts/src/compiler/instructionsFactory.ts:211-213 | insert's swap loop moves the only owner of `from` down to `index`, adds no claim outside index..from, and keeps the file tidy. |
| CodegenOwnership.SetFixedTidy | ts/src/compiler/instructionsFactory.ts:171-190 | set(index, reg) on a tidy file, with `reg` mirroring no data cell: `reg` is the only owner of `index`, every other claim is exactly as before, and the file stays tidy. |
| CodegenOwnership.InsertOwnership | ts/src/compiler/instructionsFactory.ts:208-216 | insert(index, reg) on a tidy file leaves `reg` the only owner of `index` (of the new top slot when `index` is past it). No slot below `index` gains a claimant, at most `reg` becomes held, and the file stays tidy. |
| CodegenOwnership.InsertEndOwnership | ts/src/compiler/instructionsFactory.ts:208-216 | After the callback, on a tidy file where the register is the only owner of the pushed top slot: the file stays tidy, and the register ends the only owner of `index` (of the top slot when `index` is past it). It is no longer held, and no slot below `index` gains a claimant. |
| CodegenOwnership.InsertCallbackOwnership | ts/src/compiler/instructionsFactory.ts:208-216 | The whole of insert(index, callback) on a tidy file: the stack grows by the pushed slot, and the register that push hands to the callback ends the only owner of `index` (of the new top slot when `index` is past it), no longer held. |
| CodegenOwnership.CopyOwnership | ts/src/compiler/instructionsFactory.ts:241-243 | copy(index) ends with ADD r1, r2, #0 for two different registers: r2 is the register got for `index` (its first claimant, if any) and stays its only owner, and r1 is the only owner of the new top slot. No other slot gains a claimant. |
| CodegenOwnership.CopyPushed | ts/src/compiler/instructionsFactory.ts:241-243 | copy's get and push, before the releases: two different registers, each the only owner of its slot. |
| CodegenOwnership.ReplaceOwnership | ts/src/compiler/instructionsFactory.ts:245-247 | replace(index) ends with ADD r1, r2, #0 for two different registers: r1 is the only owner of `index`, and r2, the popped top's register, ends unbound. Nobody claims the old top slot. |
| CodegenOwnership.AddTopOwnership | ts/src/compiler/instructionsFactory.ts:249-251 | add() ends with ADD r1, r2, r2: the push hands out the second pop's register again, because it already claims the new slot's index. Both registers end unbound and nobody claims the new top slot, because the first pop unbinds that index's claimant after the push. The sum is therefore left unowned, as written. |
| CodegenOwnership.PushOwned | ts/src/compiler/instructionsFactory.ts:250 | Inside add, the push hands out the register that the second pop got, since it claims the pushed index. |
| CodegenOwnership.ReturnOwnership | ts/src/compiler/instructionsFactory.ts:288-292 | return() starts with exactly the chunks of get(0, R0) and ends with a JUMP through the register the pop got for the top slot, which ends unbound. Nobody claims the popped slot. When R0 owns slot 0 after the get and does not claim the top slot, the JUMP is not through R0, and R0 still owns slot 0. |
| Factory.InstructionFactory.constructor | ts/src/compiler/instructionsFactory.ts:17-23 | A new factory has every register free, an empty stack and no saved frames. Data cell 0, the frame base, must already exist. |
| Factory.InstructionFactory.PushData | ts/src/compiler/instructionsFactory.ts:21-23 | pushData appends the words and returns the offset of the first. That offset is never the frame-base cell 0, and the factory stays valid. |
| Factory.InstructionFactory.FindRegister | ts/src/compiler/instructionsFactory.ts:42-55 | The three register searches give findRegister's answer. |
| Factory.InstructionFactory.FindAny | ts/src/compiler/instructionsFactory.ts:144 | `findRegister()` where the source relies on a register. |
| Factory.InstructionFactory.Release | ts/src/compiler/instructionsFactory.ts:165 | In place, as `Codegen.Release`. |
| Factory.InstructionFactory.Choose | ts/src/compiler/instructionsFactory.ts:141-147 | In place, as `Codegen.Choose`. |
| Factory.InstructionFactory.WriteBack | ts/src/compiler/instructionsFactory.ts:372-389 | The loop over the 8 registers returns the chunks, and leaves the registers, that `Codegen.WriteBack` gives. |
| Factory.InstructionFactory.Flush | ts/src/compiler/instructionsFactory.ts:374-387 | In place, as `Codegen.Flush`. |
| Factory.InstructionFactory.StoreSlots | ts/src/compiler/instructionsFactory.ts:381-386 | The loop over the slot set gives the result of `Codegen.StoreSlots`. |
| Factory.InstructionFactory.DataGetBegin | ts/src/compiler/instructionsFactory.ts:323-338 | In place, as `Codegen.DataGetBegin`. |
| Factory.InstructionFactory.DataGetFixed | ts/src/compiler/instructionsFactory.ts:310-321 | In place, as `Codegen.DataGetFixed`. |
| Factory.InstructionFactory.DataSetBegin | ts/src/compiler/instructionsFactory.ts:356-365 | In place, as `Codegen.DataSetBegin`. |
| Factory.InstructionFactory.DataSetFixed | ts/src/compiler/instructionsFactory.ts:347-354 | In place, as `Codegen.DataSetFixed`. |
| Factory.InstructionFactory.GetFixed | ts/src/compiler/instructionsFactory.ts:100-139 | In place, as `Codegen.GetFixed`. The slot set is edited on the register file. |
| Factory.InstructionFactory.TakeOver | ts/src/compiler/instructionsFactory.ts:108-125 | In place, as `Codegen.TakeOver`. |
| Factory.InstructionFactory.LoadSlot | ts/src/compiler/instructionsFactory.ts:127-132 | In place, as `Codegen.LoadSlot`. |
| Factory.InstructionFactory.GetBegin | ts/src/compiler/instructionsFactory.ts:141-163 | In place, as `Codegen.GetBegin`. |
| Factory.InstructionFactory.SetFixed | ts/src/compiler/instructionsFactory.ts:171-190 | In place, as `Codegen.SetFixed`, including the case where the previous owner is `reg` itself. |
| Factory.InstructionFactory.SetBegin | ts/src/compiler/instructionsFactory.ts:192-201 | In place, as `Codegen.SetBegin`. |
| Factory.InstructionFactory.PushFixed | ts/src/compiler/instructionsFactory.ts:81-86 | In place, as `Codegen.PushFixed`. |
| Factory.InstructionFactory.PushBegin | ts/src/compiler/instructionsFactory.ts:81-86 | In place, as `Codegen.PushBegin`. |
| Factory.InstructionFactory.PopFixed | ts/src/compiler/instructionsFactory.ts:88-95 | In place, as `Codegen.PopFixed`. |
| Factory.InstructionFactory.PopBegin | ts/src/compiler/instructionsFactory.ts:88-91 | In place, as `Codegen.PopBegin`. |
| Factory.InstructionFactory.PopEnd | ts/src/compiler/instructionsFactory.ts:92-94 | In place, as `Codegen.PopEnd`. |
| Factory.InstructionFactory.UnsetHolder | ts/src/compiler/instructionsFactory.ts:92-93 | In place, as `Codegen.UnsetHolder`. |
| Factory.InstructionFactory.Swap | ts/src/compiler/instructionsFactory.ts:218-239 | In place, as `Codegen.Swap`. The slot sets are edited on the register file. |
| Factory.InstructionFactory.InsertFixed | ts/src/compiler/instructionsFactory.ts:208-216 | The swap loop gives the result of `Codegen.InsertFixed`. |
| Factory.InstructionFactory.InsertEnd | ts/src/compiler/instructionsFactory.ts:208-216 | The free and the swap loop give the result of `Codegen.InsertEnd`. |
| Factory.InstructionFactory.Copy | ts/src/compiler/instructionsFactory.ts:241-243 | In place, as `Codegen.CopySlot`. |
| Factory.InstructionFactory.Replace | ts/src/compiler/instructionsFactory.ts:245-247 | In place, as `Codegen.ReplaceSlot`. |
| Factory.InstructionFactory.Add | ts/src/compiler/instructionsFactory.ts:249-251 | In place, as `Codegen.AddTop`. |
| Factory.InstructionFactory.UpdateStackBase | ts/src/compiler/instructionsFactory.ts:404-415 | In place, as `Codegen.UpdateStackBase`. |
| Factory.InstructionFactory.PushStackFrame | ts/src/compiler/instructionsFactory.ts:391-397 | In place, as `Codegen.PushStackFrame`. |
| Factory.InstructionFactory.PopStackFrame | ts/src/compiler/instructionsFactory.ts:399-402 | In place, as `Codegen.PopStackFrame`. |
| Factory.InstructionFactory.CallSetup | ts/src/compiler/instructionsFactory.ts:254-262 | In place, as `Codegen.CallSetup`. |
| Factory.InstructionFactory.CallJump | ts/src/compiler/instructionsFactory.ts:264-272 | In place, as `Codegen.CallJump`. |
| Factory.InstructionFactory.CallFinish | ts/src/compiler/instructionsFactory.ts:274-281 | In place, as `Codegen.CallFinish`. |
| Factory.InstructionFactory.Call | ts/src/compiler/instructionsFactory.ts:253-282 | In place, as `Codegen.Call`. |
| Factory.InstructionFactory.Return | ts/src/compiler/instructionsFactory.ts:288-292 | In place, as `Codegen.Return`. |
| Factory.InstructionFactory.Entry | ts/src/compiler/instructionsFactory.ts:294-307 | In place, as `Codegen.EntryFrame`. |
| Factory.InstructionFactory.Join | ts/src/compiler/instructionsFactory.ts:60-68 | The stack becomes `Codegen.Join` of the old one, and nothing else changes. |
| Factory.InstructionFactory.Split | ts/src/compiler/instructionsFactory.ts:70-79 | The stack becomes `Codegen.Split` of the old one, and nothing else changes. |
| NamedScope.Reindexed | ts/src/scope.ts:58-60 | After the splice, every index above the removed one moves down by one and the others stay. |
| NamedScope.RemoveKeepsOtherNames | ts/src/scope.ts:54-62 | Removing a name from a well-formed scope keeps it well formed, and every other name resolves to the value it had. |
| NamedScope.Scope.constructor | ts/src/scope.ts:7-13 | The record's values are stored in key order, and each key maps to its value's position. |
| NamedScope.Scope.GetByName | ts/src/scope.ts:19-23 | In a well-formed scope, a value is defined exactly for present names, and it is the value at the name's index. |
| NamedScope.Scope.GetByIndex | ts/src/scope.ts:26-28 | A value is defined exactly for positions inside the list. |
| NamedScope.Scope.GetByLevel | ts/src/scope.ts:31-33 | Level `l` reads position `length - l`, so it is defined for 1..length. |
| NamedScope.Scope.GetLevel | ts/src/scope.ts:35-38 | Defined exactly for present names, and `getByLevel(getLevel(name)) == getByName(name)`. |
| NamedScope.Scope.GetIndex | ts/src/scope.ts:40-42 | Defined exactly for present names, and `getByIndex(getIndex(name)) == getByName(name)`. |
| NamedScope.Scope.Push | ts/src/scope.ts:44-46 | push appends the value, returns the previous length and leaves the names alone. |
| NamedScope.Scope.Add | ts/src/scope.ts:48-52 | add appends the value and binds the name to its index. Afterwards `getByName(name)` is the value and `getIndex(name)` is the returned index. A well-formed scope stays well formed, whether or not the name was bound. |
| NamedScope.Scope.RemoveByName | ts/src/scope.ts:54-62 | An absent name changes nothing and returns undefined. A present name is deleted and the later indices shift down. The value at its index is returned and spliced out. In a well-formed scope every other name still resolves to the same value. |
| NamedScope.Scope.Append | ts/src/scope.ts:65-69 | append mutates and returns the receiver. The lists are concatenated, and the argument's names override with their own, unshifted indices. |
| NamedScope.Scope.Merge | ts/src/scope.ts:72-77 | merge returns a new scope with the concatenated lists and the argument's names taking priority, unshifted. |
| NamedScope.Scope.Copy | ts/src/scope.ts:79-84 | copy returns a new scope, with its own list and map, that is equal to this one. |
| LazySeq.Filter | ts/src/iterator.ts:115-123 | filter yields only items of the source that satisfy the predicate, and all of them. Each passing item occurs as often as in the source. It is shorter when some item fails. |
| LazySeq.FilterSingle | ts/src/iterator.ts:119-121 | One item is yielded exactly when it passes the predicate. |
| LazySeq.FilterAppend | ts/src/iterator.ts:119-121 | filter keeps the source's order: filtering a concatenation gives the filtered parts, concatenated. |
| LazySeq.Map | ts/src/iterator.ts:125-131 | map yields `f` of each item, position by position. |
| LazySeq.TakeWhile | ts/src/iterator.ts:152-161 | takeWhile yields the longest prefix whose items all satisfy the predicate. The next item, if any, fails it. |
| LazySeq.SkipWhile | ts/src/iterator.ts:163-173 | skipWhile yields what takeWhile leaves, so the two together give the source back. Its first item fails the predicate. |
| LazySeq.Take.constructor | ts/src/iterator.ts:175-177 | take captures the source and the count that its generator will decrement. |
| LazySeq.Take.Traverse | ts/src/iterator.ts:177-184 | One traversal yields the first min(count, n) items. The captured count goes down by as many. |
| LazySeq.TakeTwice | ts/src/iterator.ts:175-186 | A second traversal of the same take starts from the reduced count. When 0 < count <= n it yields nothing. |
| LazySeq.Skip.constructor | ts/src/iterator.ts:188-191 | skip(count > 0) captures the source and the count that its generator will decrement. |
| LazySeq.Skip.Traverse | ts/src/iterator.ts:191-196 | One traversal drops the first `count` items, yielding nothing when count exceeds the length. The count goes down by the number dropped. |
| LazySeq.SkipOnce | ts/src/iterator.ts:188-198 | skip(count) yields the receiver itself for count <= 0, `s[count..]` for 0 < count <= n, and nothing beyond that. |
| LazySeq.Append | ts/src/iterator.ts:204-211 | append yields the receiver's items, then the arguments. |
| LazySeq.Prepend | ts/src/iterator.ts:213-220 | prepend yields the arguments, then the receiver's items. |
| LazySeq.FlattenSnoc | ts/src/iterator.ts:236-240 | Adding a chunk at the end adds its items at the end of the concatenation. |
| LazySeq.Chunks | ts/src/iterator.ts:233-243 | For size > 0 the chunks concatenate to the source. They are non-empty, and of length `size` except possibly the last. A size <= 0 yields nothing. |
| LazySeq.MinLength | ts/src/iterator.ts:282 | The length of the shortest source. |
| LazySeq.MaxLength | ts/src/iterator.ts:297 | The length of the longest source, or 0 with none. |
| LazySeq.Zip | ts/src/iterator.ts:276-287 | zip yields as many tuples as the shortest source has items. Tuple `i` holds item `i` of every source. |
| LazySeq.ZipLongest | ts/src/iterator.ts:289-302 | zipLongest yields as many tuples as the longest source has items. Exhausted sources give undefined. |
| LazySeq.RangeValuesSpec | ts/src/iterator.ts:406-414 | range yields `start + i*step` for each i, every value inside the bound (`< end` for a positive step, `> end` otherwise), and stops at the first value outside it. |
| LazySeq.Range.constructor | ts/src/iterator.ts:406 | range captures start, end and step. |
| LazySeq.Range.Traverse | ts/src/iterator.ts:407-412 | One traversal yields the range's values and advances the captured start past them. A second traversal yields nothing. |
| LazySeq.Natural | ts/src/iterator.ts:416-418 | natural(end) yields 0, 1, ..., end - 1, which is nothing for end <= 0. |
| LazySeq.NaturalLength | ts/src/iterator.ts:416-418 | A step-1 range from `start` to `end` has `end - start` values. |
| LazySeq.Without | ts/src/iterator.ts:352 | The `!==` filter drops every occurrence of `x`, and is shorter when `x` occurs. Every other item is kept with its multiplicity. |
| LazySeq.WithoutAppend | ts/src/iterator.ts:352 | The `!==` filter keeps order: it distributes over concatenation, and keeps a single item exactly when it is not `x`. |
| LazySeq.PermutationsAreArrangements | ts/src/iterator.ts:347-358 | Every array permutation yields has length `size`, draws only on the items and repeats no element. |
| LazySeq.PermutationsFromAreArrangements | ts/src/iterator.ts:351-355 | The loop over the items yields only such arrangements. |
| LazySeq.PermutationsOfNegativeSize | ts/src/iterator.ts:347-358 | A negative size yields nothing. |
| LazySeq.PermutationsFromOfNegativeSize | ts/src/iterator.ts:351-355 | The loop yields nothing for a negative size. |
| LazySeq.PermutationsOfSizeZero | ts/src/iterator.ts:348-350 | Size 0 yields exactly the empty array. Every size greater than the number of items yields nothing. |
| LazySeq.PermutationsFromOfSizeZero | ts/src/iterator.ts:351-355 | At size 0 the loop adds nothing after the empty array. |
| LazySeq.Cached.constructor | ts/src/iterator.ts:63-66 | A new cache has an empty buffer and has not yet seen the end. |
| LazySeq.Cached.Traverse | ts/src/iterator.ts:67-86 | Every traversal yields exactly the source's items in order. The buffer only grows, and each item is pulled from the source once, only by the first traversal that reaches it. |
| LazySeq.Accumulate | ts/src/iterator.ts:97-113 | accumulate yields the initial value, then each running result of the reducer. |
| LazySeq.Last | ts/src/iterator.ts:710-714 | last() is the final item, or undefined for an empty sequence. |
| LazySeq.Count | ts/src/iterator.ts:552-554 | count() is the number of items. |
| LazySeq.CountedTo | ts/src/iterator.ts:552-554 | The running count that starts at 0 and adds 1 per item is k after k items, so the last value is the length. |
| LazySeq.IsEmpty | ts/src/iterator.ts:556-558 | isEmpty() holds exactly for an empty sequence. |
| LazySeq.Nth | ts/src/iterator.ts:702-704 | nth(n) is item `n` for 0 < n < length and undefined for n >= length. For n <= 0, skip returns its receiver, so nth gives the head. |
| LazySeq.Head | ts/src/iterator.ts:706-708 | head() is the first item, or undefined. |
| LazySeq.Find | ts/src/iterator.ts:746-748 | find(pred) is undefined exactly when no item satisfies `pred`. Otherwise it is the first item that does. |
| LazySeq.FilterHead | ts/src/iterator.ts:746-748 | The filtered sequence is empty exactly when no item passes. Otherwise its head is the first item that passes. |

## Left out

- `copyAdapter` and `[CopySymbol]` (ts/src/compiler/instructionsFactory.ts:25-35) are not modelled. They deep-copy the factory through the copy utility, which is not part of this model.
- `yield` (ts/src/compiler/instructionsFactory.ts:284-286) is not modelled separately. It is `call` under another name.
- The `console.dir` in `call` is I/O and is omitted.
- How chunks are encoded into machine words and executed is omitted. Chunks are records of an opcode and its fields.
- `pushChunks` is never called by the modelled operations, so it is omitted.
- `pushData` is modelled as appending to a data segment held by the factory. It returns the offset of the first word.
- Every callback argument of get, set, dataGet, dataSet, push, pop and insert is one the factory itself passes, and it is inlined. Arbitrary caller callbacks are modelled only by the Begin/End split: the caller emits its chunks between the two halves, and such a callback must not change the factory state.
- Codegen.FindAny: where the source calls `findRegister()` and gets `null` (all 8 registers held), it goes on with `null` as a register, which is undefined behaviour. The model takes register 0 there. `Codegen.FindAnyAvailable` shows this does not happen while fewer than 8 registers are held.
- Codegen.PopFixed, Codegen.PopBegin, Codegen.CallJump, Codegen.Return (and their Factory methods): pop on an empty stack is excluded by a precondition. The source would then read index -1, which the stack Scope variant does not define.
- Codegen.ReplaceSlot, Codegen.AddInner, Codegen.AddTop (and Factory.InstructionFactory.Replace and Add): the same pop-on-empty case is excluded. replace pops once, so it needs one slot. add pops twice, so it needs two, and its inner part needs one.
- Codegen.Join, Codegen.Split (and their Factory methods): a negative index, or one past the stack, is excluded. The `nat` type of `index` rules out the negative one, which the source's `slice`, `splice` and `get` would accept. The source would then read a missing entry (`entries[0]` of an empty slice, or `.value` of undefined) and fail.
- Codegen.StoreSlots: its own contract states only the frame and stale-set effects. The exact STORE_REG list is proved separately, in CodegenProperties.StoreSlotsStores and CodegenFrames.StoreSlotsEffects.
- Codegen.PopFixed: its own contract states only the stack, frames and data. The chunks and the unbinding are in CodegenOwnership.PopFixedOwnership, which assumes a tidy register file.
- Codegen.InsertFixed: its own contract states only the stack. CodegenOwnership.InsertOwnership states who owns `index` afterwards. It does not state which register holds each slot that moved up by one.
- Codegen.CopySlot: its own contract states only the stack and the final ADD's opcode. Its registers and owners are in CodegenOwnership.CopyOwnership, under that lemma's preconditions.
- Codegen.ReplaceSlot: its own contract states only the stack and the final ADD's opcode. Its registers and owners are in CodegenOwnership.ReplaceOwnership, under that lemma's preconditions.
- Codegen.AddTop: its own contract states only the stack and the final ADD's opcode. Its registers, and that the sum is left unowned, are in CodegenOwnership.AddTopOwnership, under that lemma's preconditions.
- Codegen.Return: its own contract states the get(0, R0) prefix, the stack and the final JUMP's opcode. The JUMP's register and R0's ownership of slot 0 are in CodegenOwnership.ReturnOwnership.
- CodegenOwnership.GetFixedOwnership, PopFixedOwnership, SwapOwnership, SwapDownOwnership, InsertOwnership, InsertEndOwnership, InsertCallbackOwnership, CopyOwnership, ReplaceOwnership, AddTopOwnership, ReturnOwnership: these assume a tidy register file (no slot with two owners, no slot owner that mirrors a data cell). They also assume that fewer than 6 or 7 registers are held, in line with the comment on `findRegister` that at most 3 registers are in use at once.
- CodegenOwnership.CopyOwnership, ReplaceOwnership, AddTopOwnership: these also assume that no register claims a slot past the stack. AddTopOwnership further assumes that no register claims both of the top two slots. ReplaceOwnership assumes `index` is below the top slot. Replacing the top slot with itself is not covered.
- CodegenProperties.PushStackFrameCases: the registers are not `Empty` after a non-zero push. updateStackBase binds a register to the frame-base cell after the clear, so the lemma states instead that no register claims a slot. The data-segment case is stated only for a non-empty data segment, which Factory.InstructionFactory.Valid guarantees.
- Codegen.Call and Factory.InstructionFactory.Call: a stack of fewer than 3 slots is excluded, because call's `insert(size - 3)` is not defined for it.
- Codegen.PopStackFrame: popping with no saved frame is excluded. The source would set the stack to `undefined`.
- Codegen.Join: `count >= 1` is required, because with `count <= 0` the source reads a missing first entry.
- The frame base is a data cell, so its value is not modelled, only the instructions that change it. Emitted chunks are not executed, so nothing is stated about run-time register contents.
- The ADD in updateStackBase's immediate branch works on a frame base that was never loaded. That branch (ts/src/compiler/instructionsFactory.ts:410) runs `dataSet(0, …)`, and dataSet (346-368) binds a register to cell 0 without a LOAD. This is how the source is written, and `CodegenProperties.UpdateStackBaseCases` states it as written. It is not a slip in the model.
- The iterator library is modelled over finite, array-backed sources. Infinite generators (`repeat`, `cycle`, `natural()` without a bound) are left out.
- `random`, `randomItems` and `sample` use `Math.random` and are left out.
- `avg`, `sum`, `mult`, `max` and `min` are floating-point aggregates and are left out.
- `toObject`, `toMap` and `toSet` wrap JavaScript built-ins and are left out.
- `flat`, `roundRobin`, `subsets`, `subslices`, `product`, `power` and the other operations not named above are left out.
- LazySeq.Range.Traverse: a step of 0 with start > end never ends and is excluded by a precondition.
- LazySeq.Skip.constructor: it is modelled only for count > 0. For count <= 0 the source returns its receiver, which is what `LazySeq.SkipOnce` states.
- LazySeq.Accumulate: only the form with an initial value is modelled. Without one, the source takes the head and skips it, and `count` always passes 0.
- LazySeq.Chunks: it is modelled on the array source that `consumable()` shares between the takes. The laziness of each chunk is not modelled.
- LazySeq.Zip: the case of no source at all is excluded. The source would then loop forever yielding empty tuples.
- LazySeq.Zip, LazySeq.ZipLongest: only the first traversal is modelled. Both open their sources' iterators when they are called (ts/src/iterator.ts:278, 293), so a second traversal would go on where the first stopped.
- NamedScope.Scope.constructor: a JavaScript record is given as its entries in enumeration order, with no key twice. Integer-like keys, which JavaScript enumerates first, are not modelled.
- NamedScope.Scope.constructor: ts/src/scope.ts:8-12 builds one `enumerate()` iterator from the `iterator-js` package and traverses it twice, once for the values and once for the names. That package is not part of this model. The model assumes that its enumerate can be traversed again. The bundled ts/src/iterator.ts would not allow that: its `enumerate` is a `zip` (iterator.ts:659-661), and `zip` opens its sources once, when it is called (iterator.ts:277-287). Under that reading the second traversal yields nothing, and `names` would be empty for any non-empty record.
- NamedScope.Scope.GetByName, GetLevel, GetIndex, RemoveByName: names are assumed not to be keys inherited from `Object.prototype`, such as `"toString"` or `"constructor"`. The source tests `name in this.names` on a plain object, and that test is true for such keys. getLevel would then return NaN, getIndex a function, and removeByName would splice out the first value without reindexing.
- The scope's `iter()` is left out. It spreads values into objects.
- Strings are `seq<char>`. Dafny's integers are unbounded, which matches the source's integers within their safe range. 32-bit truncation is modelled only where it matters, in the `& 0x1f` of updateStackBase.
- JavaScript numbers that are not integers are left out. Counts, sizes, steps and range bounds in ts/src/iterator.ts, and indices and sizes in the factory and the scope, are modelled as integers. A fractional `take` count, `range` step or `chunks` size is not covered.
