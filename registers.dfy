/**
 * The register file the code generator works against: 8 slots, each free or
 * holding a `{value, stale, weak}` entry.  The value says what memory the
 * register mirrors; `stale` means its content has not been written back yet;
 * `weak` means it is not held by an operation in progress, so it may be
 * reused.  The value-level functions give each operation's effect; the class
 * RegisterState keeps the 8 slots in an array and applies them in place.
 */
module Registers {
  import opened Wrappers

  /** One of the 8 general registers. */
  type Reg = r: nat | r < 8

  /** Register.R_R0: the return-address and result register of the calling convention. */
  const R0: Reg := 0
  /** Register.R_R1: the argument and callee-address register of the calling convention. */
  const R1: Reg := 1

  /**
   * What a register mirrors: a data-segment cell, a set of stack-slot indices
   * (kept in insertion order, as a JavaScript Set iterates), or both.
   */
  datatype Ref = Ref(dataOffset: Option<nat>, stackOffset: Option<seq<nat>>)

  /** A bound register. */
  datatype Entry = Entry(value: Ref, stale: bool, weak: bool)

  /** The state of all 8 registers; None is a free register. */
  type RegFile = rf: seq<Option<Entry>> | |rf| == 8
    witness [None, None, None, None, None, None, None, None]

  /** A register file with every register free. */
  const Empty: RegFile := [None, None, None, None, None, None, None, None]

  /** The stack-slot indices of an entry, none for a free register or one that mirrors none. */
  function SlotsOf(e: Option<Entry>): seq<nat> {
    if e.Some? && e.value.value.stackOffset.Some? then e.value.value.stackOffset.value else []
  }

  /** `s` without `x` (Set.delete). */
  function Delete(s: seq<nat>, x: nat): (r: seq<nat>)
    ensures x !in r && forall y :: y in r <==> y in s && y != x
    ensures |r| <= |s|
  {
    if s == [] then [] else if s[0] == x then Delete(s[1..], x) else [s[0]] + Delete(s[1..], x)
  }

  /** `s` with `x` added at the end unless already present (Set.add). */
  function Insert(s: seq<nat>, x: nat): (r: seq<nat>)
    ensures forall y :: y in r <==> y in s || y == x
  {
    if x in s then s else s + [x]
  }

  // ------------------------------------------------------------ operations

  /** set(reg, value): binds the register afresh; it is stale and held. */
  function SetReg(rf: RegFile, r: Reg, v: Ref): (rf': RegFile)
    ensures rf'[r] == Some(Entry(v, true, false))
    ensures forall k: Reg :: k != r ==> rf'[k] == rf[k]
  {
    rf[r := Some(Entry(v, true, false))]
  }

  /** update(reg, value): replaces the value and keeps the flags; on a free register it acts as set. */
  function UpdateReg(rf: RegFile, r: Reg, v: Ref): (rf': RegFile)
    ensures rf'[r].Some? && rf'[r].value.value == v
    ensures rf[r].Some? ==> rf'[r].value.stale == rf[r].value.stale && rf'[r].value.weak == rf[r].value.weak
    ensures rf[r].None? ==> rf'[r] == Some(Entry(v, true, false))
    ensures forall k: Reg :: k != r ==> rf'[k] == rf[k]
  {
    rf[r := if rf[r].Some? then Some(rf[r].value.(value := v)) else Some(Entry(v, true, false))]
  }

  /** unset(reg): frees the register. */
  function UnsetReg(rf: RegFile, r: Reg): (rf': RegFile)
    ensures rf'[r] == None && forall k: Reg :: k != r ==> rf'[k] == rf[k]
  {
    rf[r := None]
  }

  /** Changes the flags of a bound register; a free register stays free. */
  function WithFlags(rf: RegFile, r: Reg, stale: Option<bool>, weak: Option<bool>): (rf': RegFile)
    ensures rf[r].None? ==> rf' == rf
    ensures rf[r].Some? ==> rf'[r] == Some(Entry(rf[r].value.value, stale.GetOr(rf[r].value.stale), weak.GetOr(rf[r].value.weak)))
    ensures forall k: Reg :: k != r ==> rf'[k] == rf[k]
  {
    if rf[r].None? then rf
    else rf[r := Some(Entry(rf[r].value.value, stale.GetOr(rf[r].value.stale), weak.GetOr(rf[r].value.weak)))]
  }

  /** stale(reg): the register's content is newer than memory. */
  function MarkStale(rf: RegFile, r: Reg): RegFile {
    WithFlags(rf, r, Some(true), None)
  }

  /** synced(reg): the register's content equals memory. */
  function MarkSynced(rf: RegFile, r: Reg): RegFile {
    WithFlags(rf, r, Some(false), None)
  }

  /** allocate(reg): the register is held by an operation and must not be reused. */
  function AllocateReg(rf: RegFile, r: Reg): RegFile {
    WithFlags(rf, r, None, Some(false))
  }

  /** free(reg): the register may be reused. */
  function FreeReg(rf: RegFile, r: Reg): RegFile {
    WithFlags(rf, r, None, Some(true))
  }

  // ------------------------------------------------------------------ find

  /** The predicates the generator searches the register file with. */
  datatype Query = IsFree | IsWeak | HoldsData(offset: nat) | HoldsSlot(index: nat)

  predicate Matches(e: Option<Entry>, q: Query) {
    match q
    case IsFree => e.None?
    case IsWeak => e.Some? && e.value.weak
    case HoldsData(d) => e.Some? && e.value.value.dataOffset == Some(d)
    case HoldsSlot(i) => i in SlotsOf(e)
  }

  /** find(pred): the lowest-numbered register from `from` on whose slot matches, or null. */
  function FindFrom(rf: RegFile, q: Query, from: nat): Option<Reg>
    requires from <= 8
    decreases 8 - from
  {
    if from == 8 then None
    else if Matches(rf[from], q) then Some(from)
    else FindFrom(rf, q, from + 1)
  }

  /** What find promises: a register it returns matches and none before it does; null means none matches. */
  lemma {:induction false} FindFromSpec(rf: RegFile, q: Query, from: nat, r: Option<Reg>)
    requires from <= 8 && r == FindFrom(rf, q, from)
    ensures r.Some? ==> from <= r.value && Matches(rf[r.value], q)
    ensures r.Some? ==> forall k :: from <= k < r.value ==> !Matches(rf[k], q)
    ensures r.None? ==> forall k :: from <= k < 8 ==> !Matches(rf[k], q)
    decreases 8 - from
  {
    if from < 8 && !Matches(rf[from], q) {
      FindFromSpec(rf, q, from + 1, r);
    }
  }

  function FindReg(rf: RegFile, q: Query): Option<Reg> {
    FindFrom(rf, q, 0)
  }

  // ----------------------------------------------------- pinned and stale sets

  /** The registers held by an operation in progress (bound and not weak). */
  function Pinned(rf: RegFile): set<nat> {
    set r: nat | r < 8 && rf[r].Some? && !rf[r].value.weak
  }

  /** The registers whose content has not been written back. */
  function StaleSet(rf: RegFile): set<nat> {
    set r: nat | r < 8 && rf[r].Some? && rf[r].value.stale
  }

  /** How each operation changes the set of stale registers. */
  lemma StaleSetEffects(rf: RegFile, r: Reg, v: Ref)
    ensures StaleSet(SetReg(rf, r, v)) == StaleSet(rf) + {r}
    ensures StaleSet(MarkSynced(rf, r)) == StaleSet(rf) - {r}
    ensures StaleSet(AllocateReg(rf, r)) == StaleSet(rf)
    ensures StaleSet(FreeReg(rf, r)) == StaleSet(rf)
  {
  }

  /** How each operation changes the set of held registers. */
  lemma PinnedEffects(rf: RegFile, r: Reg, v: Ref)
    ensures Pinned(SetReg(rf, r, v)) == Pinned(rf) + {r}
    ensures Pinned(UpdateReg(rf, r, v)) <= Pinned(rf) + {r}
    ensures Pinned(UnsetReg(rf, r)) == Pinned(rf) - {r}
    ensures Pinned(MarkSynced(rf, r)) == Pinned(rf)
    ensures Pinned(MarkStale(rf, r)) == Pinned(rf)
    ensures Pinned(AllocateReg(rf, r)) <= Pinned(rf) + {r}
    ensures Pinned(FreeReg(rf, r)) == Pinned(rf) - {r}
  {
  }

  /** Adding one element grows a set by at most one. */
  lemma AddOneCard(a: set<nat>, x: nat)
    ensures |a + {x}| <= |a| + 1
  {
    if x in a {
      assert a + {x} == a;
    }
  }

  lemma {:induction false} SubsetCard(a: set<nat>, b: set<nat>)
    requires a <= b
    ensures |a| <= |b|
  {
    assert b == a + (b - a);
  }

  /** Fewer than 8 held registers leave one that is free or weak. */
  lemma {:induction false} SomeUnpinned(rf: RegFile)
    requires |Pinned(rf)| < 8
    ensures FindReg(rf, IsFree).Some? || FindReg(rf, IsWeak).Some?
  {
    var all: set<nat> := {0, 1, 2, 3, 4, 5, 6, 7};
    if forall r: nat :: r < 8 ==> r in Pinned(rf) {
      assert all <= Pinned(rf);
      SubsetCard(all, Pinned(rf));
      assert false;
    }
    var r: nat :| r < 8 && r !in Pinned(rf);
    assert rf[r].None? || rf[r].value.weak;
    FindFromSpec(rf, IsFree, 0, FindReg(rf, IsFree));
    FindFromSpec(rf, IsWeak, 0, FindReg(rf, IsWeak));
  }

  // ----------------------------------------------------------- the object

  /** RegisterState: the 8 slots kept in an array that the operations change in place. */
  class RegisterState {
    const state: array<Option<Entry>>

    ghost predicate Valid()
      reads this
    {
      state.Length == 8
    }

    /** The current slots as a value. */
    function Value(): (rf: RegFile)
      requires Valid()
      reads this, state
    {
      state[..]
    }

    constructor ()
      ensures Valid() && fresh(state) && Value() == Empty
    {
      state := new Option<Entry>[8](_ => None);
    }

    function Get(r: Reg): (e: Option<Entry>)
      requires Valid()
      reads this, state
      ensures e == Value()[r]
    {
      state[r]
    }

    method Set(r: Reg, v: Ref)
      requires Valid()
      modifies state
      ensures Value() == SetReg(old(Value()), r, v)
    {
      state[r] := Some(Entry(v, true, false));
    }

    method Update(r: Reg, v: Ref)
      requires Valid()
      modifies state
      ensures Value() == UpdateReg(old(Value()), r, v)
    {
      state[r] := if state[r].Some? then Some(state[r].value.(value := v)) else Some(Entry(v, true, false));
    }

    method Unset(r: Reg)
      requires Valid()
      modifies state
      ensures Value() == UnsetReg(old(Value()), r)
    {
      state[r] := None;
    }

    method SetFlags(r: Reg, stale: Option<bool>, weak: Option<bool>)
      requires Valid()
      modifies state
      ensures Value() == WithFlags(old(Value()), r, stale, weak)
    {
      if state[r].Some? {
        var e := state[r].value;
        state[r] := Some(Entry(e.value, stale.GetOr(e.stale), weak.GetOr(e.weak)));
      }
    }

    method Stale(r: Reg)
      requires Valid()
      modifies state
      ensures Value() == MarkStale(old(Value()), r)
    {
      SetFlags(r, Some(true), None);
    }

    method Synced(r: Reg)
      requires Valid()
      modifies state
      ensures Value() == MarkSynced(old(Value()), r)
    {
      SetFlags(r, Some(false), None);
    }

    method Allocate(r: Reg)
      requires Valid()
      modifies state
      ensures Value() == AllocateReg(old(Value()), r)
    {
      SetFlags(r, None, Some(false));
    }

    method Free(r: Reg)
      requires Valid()
      modifies state
      ensures Value() == FreeReg(old(Value()), r)
    {
      SetFlags(r, None, Some(true));
    }

    /** clear(): frees every register. */
    method Clear()
      requires Valid()
      modifies state
      ensures Value() == Empty
    {
      var i := 0;
      while i < 8
        invariant 0 <= i <= 8
        invariant forall k :: 0 <= k < i ==> state[k] == None
      {
        state[i] := None;
        i := i + 1;
      }
    }

    /** find(pred): scans the slots in order. */
    method Find(q: Query) returns (r: Option<Reg>)
      requires Valid()
      ensures r == FindReg(Value(), q)
    {
      var i := 0;
      while i < 8
        invariant 0 <= i <= 8
        invariant FindFrom(Value(), q, i) == FindReg(Value(), q)
      {
        if Matches(state[i], q) {
          return Some(i);
        }
        i := i + 1;
      }
      return None;
    }
  }
}
