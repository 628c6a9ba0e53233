/**
 * The lazy sequence library.  A lazy sequence over an array-backed source is
 * modelled by what one full traversal yields.  Generators whose bodies keep
 * state between traversals (the captured count of take and skip, the captured
 * start of range, the buffer of cached) are classes whose fields are that
 * state, with a Traverse method; generators whose bodies only loop over their
 * source are functions or methods on `seq`.  zip and zipLongest also hold
 * their sources' open iterators, but only their first traversal is modelled.
 */
module LazySeq {
  import opened Wrappers

  // ---------------------------------------------------------------- filter, map

  /** The items of `s` that satisfy `p`, in order (filter). */
  function Filter<T>(s: seq<T>, p: T -> bool): (r: seq<T>)
    ensures |r| <= |s|
    ensures forall x :: x in r ==> x in s && p(x)
    ensures forall x :: x in s && p(x) ==> x in r
    ensures (exists i :: 0 <= i < |s| && !p(s[i])) ==> |r| < |s|
    ensures forall x :: x in s ==> multiset(r)[x] == if p(x) then multiset(s)[x] else 0
  {
    if s == [] then []
    else if p(s[0]) then
      assert s == [s[0]] + s[1..];
      [s[0]] + Filter(s[1..], p)
    else
      assert s == [s[0]] + s[1..];
      Filter(s[1..], p)
  }

  /** filter of a single item keeps it exactly when it passes. */
  lemma FilterSingle<T>(x: T, p: T -> bool)
    ensures Filter([x], p) == if p(x) then [x] else []
  {
  }

  /** filter runs over its source in order: filtering a concatenation concatenates the filtered parts. */
  lemma {:induction false} FilterAppend<T>(a: seq<T>, b: seq<T>, p: T -> bool)
    ensures Filter(a + b, p) == Filter(a, p) + Filter(b, p)
  {
    if a != [] {
      assert (a + b)[1..] == a[1..] + b;
      FilterAppend(a[1..], b, p);
    } else {
      assert a + b == b;
    }
  }

  /** Each item of `s` passed through `f` (map). */
  function Map<T, U>(s: seq<T>, f: T -> U): (r: seq<U>)
    ensures |r| == |s|
    ensures forall i :: 0 <= i < |s| ==> r[i] == f(s[i])
  {
    if s == [] then [] else [f(s[0])] + Map(s[1..], f)
  }

  // ---------------------------------------------------- takeWhile, skipWhile

  /** The longest prefix of `s` whose items all satisfy `p` (takeWhile). */
  function TakeWhile<T>(s: seq<T>, p: T -> bool): (r: seq<T>)
    ensures |r| <= |s| && r == s[..|r|]
    ensures forall i :: 0 <= i < |r| ==> p(r[i])
    ensures |r| < |s| ==> !p(s[|r|])
  {
    if s == [] || !p(s[0]) then [] else [s[0]] + TakeWhile(s[1..], p)
  }

  /**
   * The rest of `s` from the first item that fails `p` on (skipWhile): what
   * takeWhile leaves over, so that the two together give `s` back.
   */
  method SkipWhile<T>(s: seq<T>, p: T -> bool) returns (out: seq<T>)
    ensures TakeWhile(s, p) + out == s
    ensures out != [] ==> !p(out[0])
  {
    var started := false;
    out := [];
    var i := 0;
    while i < |s|
      invariant 0 <= i <= |s|
      invariant !started ==> out == [] && i <= |TakeWhile(s, p)|
      invariant !started ==> forall k :: 0 <= k < i ==> p(s[k])
      invariant started ==> |TakeWhile(s, p)| < i && out == s[|TakeWhile(s, p)|..i]
    {
      if !started && !p(s[i]) {
        started := true;
      }
      if started {
        out := out + [s[i]];
      }
      i := i + 1;
    }
    assert !started ==> TakeWhile(s, p) == s;
  }

  // ------------------------------------------------------------ take, skip

  /** How many items take(count) yields from a source of length n. */
  function Taken(count: int, n: nat): (k: nat)
    ensures k <= n
    ensures count <= 0 ==> k == 0
    ensures count > 0 ==> k == if count < n then count else n
  {
    if count <= 0 then 0 else if count < n then count else n
  }

  /** take(count): its generator decrements the captured `count`, which later traversals see. */
  class Take<T> {
    const source: seq<T>
    var count: int

    constructor (source: seq<T>, count: int)
      ensures this.source == source && this.count == count
    {
      this.source := source;
      this.count := count;
    }

    /** One full traversal: the first `count` items, and `count` goes down by as many. */
    method Traverse() returns (out: seq<T>)
      modifies this
      ensures out == source[..Taken(old(count), |source|)]
      ensures count == old(count) - |out|
    {
      out := [];
      if count <= 0 {
        return;
      }
      var i := 0;
      while i < |source|
        invariant 0 <= i <= |source|
        invariant out == source[..i]
        invariant count == old(count) - i && count > 0
      {
        out := out + [source[i]];
        count := count - 1;
        i := i + 1;
        if count <= 0 {
          return;
        }
      }
    }
  }

  /**
   * Traversing the same take(count) twice: the second traversal starts from the
   * count the first one left behind.
   */
  method TakeTwice<T>(s: seq<T>, count: int) returns (first: seq<T>, second: seq<T>)
    ensures first == s[..Taken(count, |s|)]
    ensures second == s[..Taken(count - |first|, |s|)]
    ensures 0 < count <= |s| ==> second == []
  {
    var t := new Take(s, count);
    first := t.Traverse();
    second := t.Traverse();
  }

  /**
   * skip(count) for count > 0 (for count <= 0 skip returns its receiver): its
   * generator decrements the captured `count` while it drops items.
   */
  class Skip<T> {
    const source: seq<T>
    var count: nat

    constructor (source: seq<T>, count: nat)
      requires count > 0
      ensures this.source == source && this.count == count
    {
      this.source := source;
      this.count := count;
    }

    /** One full traversal: `source` without its first `count` items; `count` goes down by as many. */
    method Traverse() returns (out: seq<T>)
      modifies this
      ensures old(count) <= |source| ==> out == source[old(count)..] && count == 0
      ensures old(count) > |source| ==> out == [] && count == old(count) - |source|
    {
      out := [];
      var i := 0;
      while i < |source|
        invariant 0 <= i <= |source|
        invariant old(count) <= i ==> count == 0 && out == source[old(count)..i]
        invariant i < old(count) ==> count == old(count) - i && out == []
      {
        if count == 0 {
          out := out + [source[i]];
        } else {
          count := count - 1;
        }
        i := i + 1;
      }
    }
  }

  /** What one traversal of skip(count) yields, including count <= 0 (the receiver itself). */
  method SkipOnce<T>(s: seq<T>, count: int) returns (out: seq<T>)
    ensures count <= 0 ==> out == s
    ensures 0 < count <= |s| ==> out == s[count..]
    ensures count > |s| ==> out == []
  {
    if count <= 0 {
      return s;
    }
    var sk := new Skip(s, count);
    out := sk.Traverse();
  }

  // ------------------------------------------------------- append, prepend

  /** The receiver's items followed by `next` (append). */
  function Append<T>(s: seq<T>, next: seq<T>): (r: seq<T>)
    ensures |r| == |s| + |next| && r[..|s|] == s && r[|s|..] == next
  {
    s + next
  }

  /** `prev` followed by the receiver's items (prepend). */
  function Prepend<T>(s: seq<T>, prev: seq<T>): (r: seq<T>)
    ensures |r| == |prev| + |s| && r[..|prev|] == prev && r[|prev|..] == s
  {
    prev + s
  }

  // ------------------------------------------------------------------ chunks

  /** The items of all the chunks, in order. */
  function Flatten<T>(cs: seq<seq<T>>): seq<T> {
    if cs == [] then [] else cs[0] + Flatten(cs[1..])
  }

  lemma {:induction false} FlattenSnoc<T>(cs: seq<seq<T>>, c: seq<T>)
    ensures Flatten(cs + [c]) == Flatten(cs) + c
  {
    if cs != [] {
      assert (cs + [c])[1..] == cs[1..] + [c];
      FlattenSnoc(cs[1..], c);
    }
  }

  /**
   * chunks(size): repeatedly takes `size` items from one shared traversal of the
   * source until a take yields nothing.
   */
  method Chunks<T>(s: seq<T>, size: int) returns (cs: seq<seq<T>>)
    ensures size <= 0 ==> cs == []
    ensures size > 0 ==> Flatten(cs) == s
    ensures forall i :: 0 <= i < |cs| ==> 0 < |cs[i]| <= size
    ensures forall i :: 0 <= i < |cs| - 1 ==> |cs[i]| == size
  {
    cs := [];
    var pos := 0;
    while true
      invariant 0 <= pos <= |s|
      invariant size > 0 ==> Flatten(cs) == s[..pos]
      invariant size <= 0 ==> cs == []
      invariant forall i :: 0 <= i < |cs| ==> 0 < |cs[i]| <= size
      invariant forall i :: 0 <= i < |cs| - 1 ==> |cs[i]| == size
      invariant cs != [] && |cs[|cs| - 1]| < size ==> pos == |s|
      decreases |s| - pos
    {
      var t := new Take(s[pos..], size);
      var chunk := t.Traverse();
      if |chunk| == 0 {
        return;
      }
      FlattenSnoc(cs, chunk);
      assert s[..pos] + chunk == s[..pos + |chunk|];
      cs := cs + [chunk];
      pos := pos + |chunk|;
    }
  }

  // ------------------------------------------------------- zip, zipLongest

  /** The length of the shortest sequence in a non-empty list. */
  function MinLength<T>(ss: seq<seq<T>>): (n: nat)
    requires |ss| > 0
    ensures forall j :: 0 <= j < |ss| ==> n <= |ss[j]|
    ensures exists j :: 0 <= j < |ss| && n == |ss[j]|
  {
    if |ss| == 1 then |ss[0]|
    else var m := MinLength(ss[1..]); if |ss[0]| <= m then |ss[0]| else m
  }

  /** The length of the longest sequence, 0 for an empty list. */
  function MaxLength<T>(ss: seq<seq<T>>): (n: nat)
    ensures forall j :: 0 <= j < |ss| ==> |ss[j]| <= n
    ensures ss != [] ==> exists j :: 0 <= j < |ss| && n == |ss[j]|
    ensures ss == [] ==> n == 0
  {
    if ss == [] then 0
    else var m := MaxLength(ss[1..]); if |ss[0]| >= m then |ss[0]| else m
  }

  /**
   * zip over one or more sources: each round pulls one item from every source and
   * stops at the first round in which some source is exhausted.
   */
  method Zip<T>(ss: seq<seq<T>>) returns (out: seq<seq<T>>)
    requires |ss| > 0
    ensures |out| == MinLength(ss)
    ensures forall i, j :: 0 <= i < |out| && 0 <= j < |ss| ==> |out[i]| == |ss| && out[i][j] == ss[j][i]
  {
    out := [];
    var round := 0;
    while forall j :: 0 <= j < |ss| ==> round < |ss[j]|
      invariant round <= MinLength(ss) && |out| == round
      invariant forall i, j :: 0 <= i < round && 0 <= j < |ss| ==> |out[i]| == |ss| && out[i][j] == ss[j][i]
      decreases MinLength(ss) - round
    {
      var items := seq(|ss|, j requires 0 <= j < |ss| => ss[j][round]);
      out := out + [items];
      round := round + 1;
    }
  }

  /** The item at `i` of a source, or undefined once that source is exhausted. */
  function ItemAt<T>(s: seq<T>, i: nat): Option<T> {
    if i < |s| then Some(s[i]) else None
  }

  /**
   * zipLongest: each round pulls one item from every source, undefined from the
   * exhausted ones, and stops at the first round in which every source is exhausted.
   */
  method ZipLongest<T>(ss: seq<seq<T>>) returns (out: seq<seq<Option<T>>>)
    ensures |out| == MaxLength(ss)
    ensures forall i, j :: 0 <= i < |out| && 0 <= j < |ss| ==>
              |out[i]| == |ss| && out[i][j] == if i < |ss[j]| then Some(ss[j][i]) else None
  {
    out := [];
    var round := 0;
    while exists j :: 0 <= j < |ss| && round < |ss[j]|
      invariant round <= MaxLength(ss) && |out| == round
      invariant forall i, j :: 0 <= i < round && 0 <= j < |ss| ==>
                  |out[i]| == |ss| && out[i][j] == ItemAt(ss[j], i)
      decreases MaxLength(ss) - round
    {
      var items := seq(|ss|, j requires 0 <= j < |ss| => ItemAt(ss[j], round));
      out := out + [items];
      round := round + 1;
    }
  }

  // ------------------------------------------------------- range, natural

  /** Whether range's loop condition holds. */
  predicate InRange(value: int, end: int, step: int) {
    if step > 0 then value < end else value > end
  }

  /** What range(start, end, step) yields from the given start, for a finite range. */
  function RangeValues(start: int, end: int, step: int): seq<int>
    requires step != 0 || start <= end
    decreases if step > 0 then end - start else if step < 0 then start - end else 0
  {
    if InRange(start, end, step) then [start] + RangeValues(start + step, end, step) else []
  }

  /** The i-th value is start + i * step, every value is in range, and the next one would not be. */
  lemma {:induction false} RangeValuesSpec(start: int, end: int, step: int, r: seq<int>)
    requires (step != 0 || start <= end) && r == RangeValues(start, end, step)
    ensures forall i :: 0 <= i < |r| ==> r[i] == start + i * step && InRange(r[i], end, step)
    ensures !InRange(start + |r| * step, end, step)
    decreases if step > 0 then end - start else if step < 0 then start - end else 0
  {
    if InRange(start, end, step) {
      var t := RangeValues(start + step, end, step);
      RangeValuesSpec(start + step, end, step, t);
      forall i | 0 < i < |r|
        ensures r[i] == start + i * step
      {
        assert r[i] == t[i - 1];
        StepShift(start, step, i - 1);
      }
      StepShift(start, step, |t|);
    }
  }

  lemma StepShift(start: int, step: int, n: nat)
    ensures start + step + n * step == start + (n + 1) * step
  {
  }

  /** range(start, end, step): its generator advances the captured `start`. */
  class Range {
    var start: int
    const end: int
    const step: int

    constructor (start: int, end: int, step: int)
      ensures this.start == start && this.end == end && this.step == step
    {
      this.start := start;
      this.end := end;
      this.step := step;
    }

    /**
     * One full traversal.  A step of 0 with start > end never ends, so it is
     * not admitted.  Afterwards `start` has moved past `end`: a second
     * traversal of the same range yields nothing.
     */
    method Traverse() returns (out: seq<int>)
      requires step != 0 || start <= end
      modifies this
      ensures out == RangeValues(old(start), end, step)
      ensures start == old(start) + |out| * step
      ensures RangeValues(start, end, step) == []
    {
      out := [];
      while InRange(start, end, step)
        invariant step != 0 || start <= end
        invariant out + RangeValues(start, end, step) == RangeValues(old(start), end, step)
        invariant start == old(start) + |out| * step
        decreases if step > 0 then end - start else if step < 0 then start - end else 0
      {
        assert (|out| + 1) * step == |out| * step + step;
        out := out + [start];
        start := start + step;
      }
    }
  }

  /** natural(end) for a finite end: range(0, max(0, end)), which yields 0, 1, ..., end - 1. */
  method Natural(end: int) returns (r: Range)
    ensures fresh(r)
    ensures r.start == 0 && r.step == 1 && r.end == (if end > 0 then end else 0)
    ensures |RangeValues(r.start, r.end, r.step)| == r.end
    ensures forall i :: 0 <= i < r.end ==> RangeValues(r.start, r.end, r.step)[i] == i
  {
    r := new Range(0, if end > 0 then end else 0, 1);
    NaturalLength(0, r.end);
    RangeValuesSpec(0, r.end, 1, RangeValues(0, r.end, 1));
  }

  lemma {:induction false} NaturalLength(start: int, end: int)
    requires start <= end
    ensures |RangeValues(start, end, 1)| == end - start
    decreases end - start
  {
    if start < end {
      NaturalLength(start + 1, end);
    }
  }

  // ------------------------------------------------------------- permutation

  /** No item occurs twice. */
  ghost predicate Distinct<T>(s: seq<T>) {
    forall i, j :: 0 <= i < j < |s| ==> s[i] != s[j]
  }

  /** `items` with every occurrence of `x` removed (the `!==` filter). */
  function Without<T(==)>(items: seq<T>, x: T): (r: seq<T>)
    ensures x in items ==> |r| < |items|
    ensures forall y :: y in r ==> y in items && y != x
    ensures forall y :: y in items && y != x ==> y in r
    ensures forall y :: y in items ==> multiset(r)[y] == if y == x then 0 else multiset(items)[y]
  {
    var p := (y: T) => y != x;
    var r := Filter(items, p);
    assert x in items ==> exists i :: 0 <= i < |items| && !p(items[i]) by {
      if x in items {
        var i :| 0 <= i < |items| && items[i] == x;
        assert !p(items[i]);
      }
    }
    r
  }

  /** The `!==` filter keeps the order of the items: it distributes over concatenation, and keeps one item `y` exactly when `y != x`. */
  lemma WithoutAppend<T>(a: seq<T>, b: seq<T>, x: T)
    ensures Without(a + b, x) == Without(a, x) + Without(b, x)
    ensures forall y :: Without([y], x) == if y == x then [] else [y]
  {
    FilterAppend(a, b, (y: T) => y != x);
  }

  /**
   * permutation(items, size): nothing when size > |items|; the empty arrangement
   * when size is 0, followed by whatever the loop over the items yields.
   */
  function Permutations<T(==)>(items: seq<T>, size: int): seq<seq<T>>
    decreases |items|, |items| + 1
  {
    if size > |items| then []
    else (if size == 0 then [[]] else []) + PermutationsFrom(items, items, size)
  }

  /** The loop of permutation over the items in `xs`, each followed by arrangements of the rest. */
  function PermutationsFrom<T(==)>(items: seq<T>, xs: seq<T>, size: int): seq<seq<T>>
    requires forall x :: x in xs ==> x in items
    decreases |items|, |xs|
  {
    if xs == [] then []
    else
      var x := xs[0];
      assert !(x != x);
      Map(Permutations(Without(items, x), size - 1), (p: seq<T>) => [x] + p)
      + PermutationsFrom(items, xs[1..], size)
  }

  /** What a permutation must be: `size` items of the input, none repeated. */
  ghost predicate Arrangement<T>(p: seq<T>, items: seq<T>, size: int) {
    |p| == size && Distinct(p) && forall e :: e in p ==> e in items
  }

  /** Every array permutation yields has length `size`, draws on `items` and repeats no item. */
  lemma {:induction false} PermutationsAreArrangements<T>(items: seq<T>, size: int)
    ensures forall p :: p in Permutations(items, size) ==> Arrangement(p, items, size)
    decreases |items|, |items| + 1
  {
    if size <= |items| {
      PermutationsFromAreArrangements(items, items, size);
    }
  }

  lemma {:induction false} PermutationsFromAreArrangements<T>(items: seq<T>, xs: seq<T>, size: int)
    requires forall x :: x in xs ==> x in items
    ensures forall p :: p in PermutationsFrom(items, xs, size) ==> Arrangement(p, items, size)
    decreases |items|, |xs|
  {
    if xs != [] {
      var x := xs[0];
      assert !(x != x);
      var rest := Without(items, x);
      PermutationsAreArrangements(rest, size - 1);
      PermutationsFromAreArrangements(items, xs[1..], size);
      var mapped := Map(Permutations(rest, size - 1), (p: seq<T>) => [x] + p);
      forall q | q in mapped
        ensures Arrangement(q, items, size)
      {
        var k :| 0 <= k < |mapped| && mapped[k] == q;
        var p := Permutations(rest, size - 1)[k];
        assert q == [x] + p;
        assert p in Permutations(rest, size - 1);
        assert Arrangement(p, rest, size - 1);
        assert x !in p;
        forall i, j | 0 <= i < j < |q| ensures q[i] != q[j] {
          if i == 0 {
            assert q[j] == p[j - 1];
          } else {
            assert q[i] == p[i - 1] && q[j] == p[j - 1];
          }
        }
      }
    }
  }

  /** A negative size yields nothing: the recursion only goes further below 0. */
  lemma {:induction false} PermutationsOfNegativeSize<T>(items: seq<T>, size: int)
    requires size < 0
    ensures Permutations(items, size) == []
    decreases |items|, |items| + 1
  {
    PermutationsFromOfNegativeSize(items, items, size);
  }

  lemma {:induction false} PermutationsFromOfNegativeSize<T>(items: seq<T>, xs: seq<T>, size: int)
    requires size < 0
    requires forall x :: x in xs ==> x in items
    ensures PermutationsFrom(items, xs, size) == []
    decreases |items|, |xs|
  {
    if xs != [] {
      var x := xs[0];
      assert !(x != x);
      PermutationsOfNegativeSize(Without(items, x), size - 1);
      PermutationsFromOfNegativeSize(items, xs[1..], size);
    }
  }

  /** permutation(items, 0) yields exactly the empty arrangement; a size above |items| yields nothing. */
  lemma PermutationsOfSizeZero<T>(items: seq<T>)
    ensures Permutations(items, 0) == [[]]
    ensures forall size :: size > |items| ==> Permutations(items, size) == []
  {
    if items != [] {
      var x := items[0];
      assert !(x != x);
      PermutationsOfNegativeSize(Without(items, x), -1);
    }
    PermutationsFromOfNegativeSize(items, items, -1);
    assert forall x :: x in items ==> PermutationsFrom(items, [x], 0) == [] by {
      forall x | x in items ensures PermutationsFrom(items, [x], 0) == [] {
        assert !(x != x);
        PermutationsOfNegativeSize(Without(items, x), -1);
      }
    }
    PermutationsFromOfSizeZero(items, items);
  }

  lemma {:induction false} PermutationsFromOfSizeZero<T>(items: seq<T>, xs: seq<T>)
    requires forall x :: x in xs ==> x in items
    ensures PermutationsFrom(items, xs, 0) == []
    decreases |xs|
  {
    if xs != [] {
      var x := xs[0];
      assert !(x != x);
      PermutationsOfNegativeSize(Without(items, x), -1);
      PermutationsFromOfSizeZero(items, xs[1..]);
    }
  }

  // ------------------------------------------------------------------ cached

  /**
   * cached(): one underlying traversal of the source (`pulled` items read so
   * far, `consumed` once it reported done) shared by every traversal of the
   * result, and a buffer of the items read from it.
   */
  class Cached<T> {
    const source: seq<T>
    var pulled: nat
    var buffer: seq<T>
    var consumed: bool

    /** The buffer holds exactly the items pulled so far. */
    ghost predicate Valid()
      reads this
    {
      && pulled <= |source|
      && buffer == source[..pulled]
      && (consumed ==> pulled == |source|)
    }

    constructor (source: seq<T>)
      ensures Valid() && this.source == source && buffer == [] && !consumed
    {
      this.source := source;
      pulled := 0;
      buffer := [];
      consumed := false;
    }

    /**
     * One full traversal: every item of the source in order.  Items already in
     * the buffer are replayed; only the others are pulled, each once, and the
     * buffer only grows.
     */
    method Traverse() returns (out: seq<T>)
      requires Valid()
      modifies this
      ensures Valid()
      ensures out == source && buffer == source && consumed
      ensures old(buffer) <= buffer
      ensures pulled - old(pulled) == |source| - |old(buffer)|
    {
      out := [];
      var index := 0;
      while true
        invariant Valid() && old(buffer) <= buffer && old(pulled) <= pulled
        invariant index <= |buffer| && out == buffer[..index]
        decreases |source| - index, if consumed then 0 else 1
      {
        if index < |buffer| {
          out := out + [buffer[index]];
          index := index + 1;
          continue;
        }
        if consumed {
          break;
        }
        if pulled < |source| {
          var item := source[pulled];
          pulled := pulled + 1;
          buffer := buffer + [item];
          out := out + [item];
          index := index + 1;
        } else {
          consumed := true;
          break;
        }
      }
    }
  }

  // ---------------------------------------------- count, isEmpty, nth, head, last, find

  /** accumulate(reducer, initial): the initial value, then every running result. */
  method Accumulate<T, U>(s: seq<T>, reducer: (U, T) -> U, initial: U) returns (out: seq<U>)
    ensures |out| == |s| + 1 && out[0] == initial
    ensures forall i :: 0 <= i < |s| ==> out[i + 1] == reducer(out[i], s[i])
  {
    var acc := initial;
    out := [acc];
    var i := 0;
    while i < |s|
      invariant 0 <= i <= |s| && |out| == i + 1 && out[0] == initial && acc == out[i]
      invariant forall k :: 0 <= k < i ==> out[k + 1] == reducer(out[k], s[k])
    {
      acc := reducer(acc, s[i]);
      out := out + [acc];
      i := i + 1;
    }
  }

  /** last(): the final item, or undefined for an empty sequence. */
  method Last<T>(s: seq<T>) returns (item: Option<T>)
    ensures s == [] ==> item == None
    ensures s != [] ==> item == Some(s[|s| - 1])
  {
    item := None;
    var i := 0;
    while i < |s|
      invariant 0 <= i <= |s|
      invariant i == 0 ==> item == None
      invariant i > 0 ==> item == Some(s[i - 1])
    {
      item := Some(s[i]);
      i := i + 1;
    }
  }

  /** count(): reduces with `acc + 1` from 0, which is the number of items. */
  method Count<T>(s: seq<T>) returns (n: int)
    ensures n == |s|
  {
    var acc := Accumulate(s, (a: int, _: T) => a + 1, 0);
    CountedTo(acc, |s|);
    var last := Last(acc);
    n := last.GetOr(0);
  }

  /** A running count that starts at 0 and adds 1 per step holds k after k steps. */
  lemma {:induction false} CountedTo(acc: seq<int>, k: nat)
    requires |acc| > 0 && acc[0] == 0
    requires forall i :: 0 <= i < |acc| - 1 ==> acc[i + 1] == acc[i] + 1
    requires k < |acc|
    ensures acc[k] == k
  {
    if k > 0 {
      CountedTo(acc, k - 1);
    }
  }

  /** isEmpty(): whether take(1) counts to 0. */
  method IsEmpty<T>(s: seq<T>) returns (empty: bool)
    ensures empty <==> s == []
  {
    var t := new Take(s, 1);
    var first := t.Traverse();
    var n := Count(first);
    empty := n == 0;
  }

  /**
   * nth(n): skip(n), then take(1), then the array's last element.  A count
   * n <= 0 makes skip return its receiver, so every such n gives the head.
   */
  method Nth<T>(s: seq<T>, n: int) returns (item: Option<T>)
    ensures n <= 0 ==> item == (if s == [] then None else Some(s[0]))
    ensures 0 < n < |s| ==> item == Some(s[n])
    ensures n >= |s| ==> item == None
  {
    var rest := SkipOnce(s, n);
    var t := new Take(rest, 1);
    var arr := t.Traverse();
    item := if arr == [] then None else Some(arr[|arr| - 1]);
  }

  /** head(): nth(0). */
  method Head<T>(s: seq<T>) returns (item: Option<T>)
    ensures item == (if s == [] then None else Some(s[0]))
  {
    item := Nth(s, 0);
  }

  /** find(pred): the head of the filtered sequence, i.e. the first item satisfying `pred`. */
  method Find<T>(s: seq<T>, pred: T -> bool) returns (item: Option<T>)
    ensures item.None? <==> forall i :: 0 <= i < |s| ==> !pred(s[i])
    ensures item.Some? ==> exists i :: 0 <= i < |s| && s[i] == item.value && pred(s[i])
                                       && forall k :: 0 <= k < i ==> !pred(s[k])
  {
    FilterHead(s, pred);
    item := Head(Filter(s, pred));
  }

  /** The filtered sequence starts with the first item that satisfies the predicate. */
  lemma {:induction false} FilterHead<T>(s: seq<T>, p: T -> bool)
    ensures Filter(s, p) == [] <==> forall i :: 0 <= i < |s| ==> !p(s[i])
    ensures Filter(s, p) != [] ==> exists i :: 0 <= i < |s| && s[i] == Filter(s, p)[0] && p(s[i])
                                              && forall k :: 0 <= k < i ==> !p(s[k])
  {
    if s != [] && !p(s[0]) {
      var t := s[1..];
      assert Filter(s, p) == Filter(t, p);
      FilterHead(t, p);
      if Filter(t, p) != [] {
        var i :| 0 <= i < |t| && t[i] == Filter(t, p)[0] && p(t[i])
                 && forall k :: 0 <= k < i ==> !p(t[k]);
        assert s[i + 1] == t[i];
        forall k | 0 <= k < i + 1 ensures !p(s[k]) {
          if k > 0 { assert s[k] == t[k - 1]; }
        }
      } else {
        forall i | 0 <= i < |s| ensures !p(s[i]) {
          if i > 0 { assert s[i] == t[i - 1]; }
        }
      }
    }
  }
}
