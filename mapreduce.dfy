/**
 * The pieces of Hadoop's map/reduce contract that every stage relies on:
 * optional and failing values, the mapper's flat-map over its input records,
 * and the shuffle that hands each reducer the values emitted under one key.
 */
module MapReduce {

  datatype Option<+T> = None | Some(value: T)

  /** A reducer or parser either produces a value or stops with an error. */
  datatype Result<+T, +E> = Ok(value: T) | Err(error: E)

  /** Running a mapper over every input record, concatenating what it emits. */
  function FlatMap<A, P(!new)>(f: A -> seq<P>, xs: seq<A>): (out: seq<P>)
    ensures forall p :: p in out <==> exists i :: 0 <= i < |xs| && p in f(xs[i])
  {
    if xs == [] then []
    else
      var rest := FlatMap(f, xs[1..]);
      assert forall i :: 1 <= i < |xs| ==> xs[i] == xs[1..][i - 1];
      f(xs[0]) + rest
  }

  /**
   * The shuffle: the values emitted under key `k`, in the order in which
   * they were emitted.
   */
  function Group<K(==), V(!new)>(k: K, pairs: seq<(K, V)>): (vs: seq<V>)
    ensures |vs| <= |pairs|
    ensures forall v :: v in vs <==> (k, v) in pairs
  {
    if pairs == [] then []
    else if pairs[0].0 == k then [pairs[0].1] + Group(k, pairs[1..])
    else Group(k, pairs[1..])
  }

  /** Grouping distributes over the concatenation of two emission streams. */
  lemma {:induction false} GroupAppend<K, V(!new)>(k: K, a: seq<(K, V)>, b: seq<(K, V)>)
    ensures Group(k, a + b) == Group(k, a) + Group(k, b)
  {
    if a == [] {
      assert a + b == b;
    } else {
      assert (a + b)[1..] == a[1..] + b;
      GroupAppend(k, a[1..], b);
    }
  }

  /** A counter table as the reporter keeps it: a missing counter reads as 0. */
  function Count(counters: map<string, nat>, key: string): nat
  {
    if key in counters then counters[key] else 0
  }

  /** `Reporter.incrCounter(key, 1)`. */
  function Incr(counters: map<string, nat>, key: string): (m: map<string, nat>)
    ensures Count(m, key) == Count(counters, key) + 1
  {
    counters[key := Count(counters, key) + 1]
  }

  /** Bumping one counter leaves every other counter as it was. */
  lemma {:induction false} IncrOther(counters: map<string, nat>, key: string, other: string)
    requires other != key
    ensures Count(Incr(counters, key), other) == Count(counters, other)
  {
  }

  // ---------------------------------------------------------------------
  // Scans a reducer makes over the values of one key
  // ---------------------------------------------------------------------

  /** How many values satisfy `p`: a counter the reducer bumps on every match. */
  function CountWhere<T>(s: seq<T>, p: T -> bool): nat
  {
    if s == [] then 0 else CountWhere(s[..|s| - 1], p) + (if p(s[|s| - 1]) then 1 else 0)
  }

  /** The count is zero exactly when no value satisfies `p`. */
  lemma {:induction false} CountWhereZero<T>(s: seq<T>, p: T -> bool)
    ensures CountWhere(s, p) == 0 <==> forall i :: 0 <= i < |s| ==> !p(s[i])
  {
    if s != [] {
      CountWhereZero(s[..|s| - 1], p);
      assert s == s[..|s| - 1] + [s[|s| - 1]];
    }
  }

  /** The last value satisfying `p`: what a field overwritten on every match holds at the end. */
  function LastWhere<T>(s: seq<T>, p: T -> bool): Option<T>
  {
    if s == [] then None
    else if p(s[|s| - 1]) then Some(s[|s| - 1])
    else LastWhere(s[..|s| - 1], p)
  }

  /** A last match exists exactly when the count is positive, and it is a matching value of `s`. */
  lemma {:induction false} LastWhereFound<T>(s: seq<T>, p: T -> bool)
    ensures LastWhere(s, p).Some? <==> CountWhere(s, p) > 0
    ensures LastWhere(s, p).Some? ==> LastWhere(s, p).value in s && p(LastWhere(s, p).value)
  {
    if s != [] && !p(s[|s| - 1]) {
      LastWhereFound(s[..|s| - 1], p);
      assert s[..|s| - 1] <= s;
    }
  }

  /** The first value satisfying `p`: where a reducer that throws on such a value stops. */
  function FirstWhere<T>(s: seq<T>, p: T -> bool): Option<T>
  {
    if s == [] then None
    else
      var first := FirstWhere(s[..|s| - 1], p);
      if first.Some? then first
      else if p(s[|s| - 1]) then Some(s[|s| - 1])
      else None
  }

  /** No first match exactly when no value satisfies `p`; a first match is a matching value of `s`. */
  lemma {:induction false} FirstWhereFound<T>(s: seq<T>, p: T -> bool)
    ensures FirstWhere(s, p).None? <==> forall i :: 0 <= i < |s| ==> !p(s[i])
    ensures FirstWhere(s, p).Some? ==> FirstWhere(s, p).value in s && p(FirstWhere(s, p).value)
  {
    if s != [] {
      FirstWhereFound(s[..|s| - 1], p);
      assert s == s[..|s| - 1] + [s[|s| - 1]];
    }
  }

  /** Once a prefix holds a match, later values do not change which match comes first. */
  lemma {:induction false} FirstWhereExtends<T>(s: seq<T>, p: T -> bool, i: nat)
    requires i <= |s|
    requires FirstWhere(s[..i], p).Some?
    ensures FirstWhere(s, p) == FirstWhere(s[..i], p)
    decreases |s| - i
  {
    if i < |s| {
      var init := s[..|s| - 1];
      assert init[..i] == s[..i];
      FirstWhereExtends(init, p, i);
    } else {
      assert s[..i] == s;
    }
  }

  /** One more value: how each scan over a prefix extends to the next prefix. */
  lemma {:induction false} ScanStep<T>(s: seq<T>, p: T -> bool, i: nat)
    requires i < |s|
    ensures CountWhere(s[..i + 1], p) == CountWhere(s[..i], p) + (if p(s[i]) then 1 else 0)
    ensures LastWhere(s[..i + 1], p) == if p(s[i]) then Some(s[i]) else LastWhere(s[..i], p)
    ensures FirstWhere(s[..i + 1], p) ==
      if FirstWhere(s[..i], p).Some? then FirstWhere(s[..i], p) else if p(s[i]) then Some(s[i]) else None
  {
    assert s[..i + 1][..i] == s[..i];
  }
}
