/**
 * The named scope: a list of values together with a map from names to
 * positions in that list.  Lookups are functions of the two fields; push,
 * add, removeByName and append change them in place; merge and copy build
 * a new scope.
 */
module NamedScope {
  import opened Wrappers

  /** A JavaScript record, given as its entries in enumeration order: no key twice. */
  predicate DistinctKeys<T>(entries: seq<(string, T)>) {
    forall i, j :: 0 <= i < j < |entries| ==> entries[i].0 != entries[j].0
  }

  /** Reading `scope[names[name]]`: undefined when the name is absent or its index is past the end. */
  function Lookup<T>(scope: seq<T>, names: map<string, nat>, name: string): Option<T> {
    if name in names && names[name] < |scope| then Some(scope[names[name]]) else None
  }

  /** The index map after position `index` was spliced out: every larger index moves down by one. */
  function Reindexed(names: map<string, nat>, index: nat): (r: map<string, nat>)
    ensures r.Keys == names.Keys
    ensures forall n :: n in names && names[n] < index ==> r[n] == names[n]
    ensures forall n :: n in names && names[n] > index ==> r[n] == names[n] - 1
  {
    map n | n in names :: if names[n] > index then names[n] - 1 else names[n]
  }

  /** Every name points into the list, and no two names share a position. */
  predicate WellFormed<T>(scope: seq<T>, names: map<string, nat>) {
    && (forall n :: n in names ==> names[n] < |scope|)
    && (forall n, m :: n in names && m in names && n != m ==> names[n] != names[m])
  }

  /**
   * Removing a name from a well-formed scope keeps it well formed, and every
   * other name still resolves to the value it resolved to before.
   */
  lemma {:induction false} RemoveKeepsOtherNames<T>(scope: seq<T>, names: map<string, nat>, name: string)
    requires WellFormed(scope, names) && name in names
    ensures var i := names[name];
            var scope' := scope[..i] + scope[i + 1..];
            var names' := Reindexed(names - {name}, i);
            && WellFormed(scope', names')
            && names'.Keys == names.Keys - {name}
            && forall n :: n in names' ==> Lookup(scope', names', n) == Lookup(scope, names, n)
  {
    var i := names[name];
    var scope' := scope[..i] + scope[i + 1..];
    var names' := Reindexed(names - {name}, i);
    forall n | n in names'
      ensures names'[n] < |scope'| && scope'[names'[n]] == scope[names[n]]
    {
      assert names[n] != i;
      if names[n] < i {
        assert scope'[names[n]] == scope[..i][names[n]];
      } else {
        assert scope'[names[n] - 1] == scope[i + 1..][names[n] - 1 - i];
      }
    }
    forall n, m | n in names' && m in names' && n != m
      ensures names'[n] != names'[m]
    {
      assert names[n] != i && names[m] != i;
    }
  }

  class Scope<T> {
    var scope: seq<T>
    var names: map<string, nat>

    /** Stores the record's values in key order; each key maps to its value's position. */
    constructor (record: seq<(string, T)>)
      requires DistinctKeys(record)
      ensures |scope| == |record| && WellFormed(scope, names)
      ensures forall i :: 0 <= i < |record| ==> record[i].0 in names && names[record[i].0] == i
      ensures forall i :: 0 <= i < |record| ==> scope[i] == record[i].1
      ensures forall n :: n in names ==> exists i :: 0 <= i < |record| && record[i].0 == n
    {
      scope := seq(|record|, i requires 0 <= i < |record| => record[i].1);
      names := map i | 0 <= i < |record| :: record[i].0 := i;
    }

    /** The value stored under `name`, or undefined. */
    function GetByName(name: string): (r: Option<T>)
      reads this
      ensures WellFormed(scope, names) ==> (r.Some? <==> name in names)
      ensures r.Some? ==> name in names && r == GetByIndex(names[name])
    {
      Lookup(scope, names, name)
    }

    /** The value at position `index` (0 is the value pushed first), or undefined. */
    function GetByIndex(index: int): (r: Option<T>)
      reads this
      ensures r.Some? <==> 0 <= index < |scope|
      ensures r.Some? ==> r.value in scope
    {
      if 0 <= index < |scope| then Some(scope[index]) else None
    }

    /** The value `level` positions from the end: level 1 is the value pushed last. */
    function GetByLevel(level: int): (r: Option<T>)
      reads this
      ensures r == GetByIndex(|scope| - level)
      ensures r.Some? <==> 1 <= level <= |scope|
    {
      if 0 <= |scope| - level < |scope| then Some(scope[|scope| - level]) else None
    }

    /** The level of `name`; looking that level up gives the name's value back. */
    function GetLevel(name: string): (r: Option<int>)
      reads this
      ensures r.Some? <==> name in names
      ensures r.Some? ==> GetByLevel(r.value) == GetByName(name)
    {
      if name in names then Some(|scope| - names[name]) else None
    }

    /** The position stored under `name`; reading that position gives the name's value. */
    function GetIndex(name: string): (r: Option<nat>)
      reads this
      ensures r.Some? <==> name in names
      ensures r.Some? ==> GetByIndex(r.value) == GetByName(name)
    {
      if name in names then Some(names[name]) else None
    }

    /** Appends `value` and returns its position, the previous length. */
    method Push(value: T) returns (index: nat)
      modifies this
      ensures index == |old(scope)| && scope == old(scope) + [value]
      ensures names == old(names)
      ensures GetByIndex(index) == Some(value)
    {
      index := |scope|;
      scope := scope + [value];
    }

    /** Appends `value` under `name`; any earlier binding of `name` is overwritten. */
    method Add(name: string, value: T) returns (index: nat)
      modifies this
      ensures index == |old(scope)| && scope == old(scope) + [value]
      ensures names == old(names)[name := index]
      ensures GetByName(name) == Some(value) && GetIndex(name) == Some(index)
      ensures old(WellFormed(scope, names)) ==> WellFormed(scope, names)
    {
      index := Push(value);
      names := names[name := index];
    }

    /**
     * Deletes `name` and its value and shifts every later position down by one.
     * An absent name returns undefined and changes nothing.  A present name whose
     * stored position is past the end returns undefined and leaves the list as it is,
     * but the names are still re-indexed.
     */
    method RemoveByName(name: string) returns (r: Option<T>)
      modifies this
      ensures name !in old(names) ==> r == None && scope == old(scope) && names == old(names)
      ensures name in old(names) ==>
                var i := old(names)[name];
                && names == Reindexed(old(names) - {name}, i)
                && r == old(GetByName(name))
                && scope == (if i < |old(scope)| then old(scope)[..i] + old(scope)[i + 1..] else old(scope))
      ensures old(WellFormed(scope, names)) ==>
                && WellFormed(scope, names)
                && names.Keys == old(names).Keys - {name}
                && forall n :: n in names ==> GetByName(n) == old(GetByName(n))
    {
      if name !in names {
        return None;
      }
      var index := names[name];
      if WellFormed(scope, names) {
        RemoveKeepsOtherNames(scope, names, name);
      }
      names := Reindexed(names - {name}, index);
      if index < |scope| {
        r := Some(scope[index]);
        scope := scope[..index] + scope[index + 1..];
      } else {
        r := None;
      }
    }

    /**
     * Appends the other scope's values to this one and copies its names over this
     * one's.  The copied names keep their positions in the other scope: they are
     * not shifted by this scope's length.  Returns this scope.
     */
    method Append(other: Scope<T>) returns (r: Scope<T>)
      modifies this
      ensures r == this
      ensures scope == old(scope) + old(other.scope)
      ensures names == old(names) + old(other.names)
      ensures forall n :: n in old(other.names) ==> GetIndex(n) == Some(old(other.names)[n])
    {
      scope := scope + other.scope;
      names := names + other.names;
      r := this;
    }

    /** A new scope with both lists concatenated and the other scope's names taking priority. */
    method Merge(other: Scope<T>) returns (r: Scope<T>)
      ensures fresh(r)
      ensures r.scope == scope + other.scope
      ensures r.names == names + other.names
    {
      r := Copy();
      r.scope := r.scope + other.scope;
      r.names := r.names + other.names;
    }

    /** A new scope equal to this one, whose list and map are its own. */
    method Copy() returns (r: Scope<T>)
      ensures fresh(r)
      ensures r.scope == scope && r.names == names
    {
      r := new Scope([]);
      r.scope := scope;
      r.names := names;
    }
  }
}
