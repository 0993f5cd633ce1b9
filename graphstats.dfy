/**
 * Contig length statistics (src/main/java/contrail/avro/GraphStats.java).
 *
 * The mapper turns each contig into a one-contig statistics record keyed by
 * the negated length bin; the reducer (also used as the combiner) adds up
 * the counts and sums of a bin and merges the bins' sorted length lists;
 * after the job, `computeN50Stats` walks the bins from the largest cutoff
 * down and reports the N50 length of every prefix of bins.
 * Only the integer statistics are modelled; coverage is floating point.
 */
module GraphStats {
  import opened MapReduce

  /** The integer fields of `GraphStatsData`. */
  datatype StatsData = StatsData(count: int, lengthSum: int, degreeSum: int, lengths: seq<int>)

  /** What the mapper reads from a node: sequence length and outgoing degree per strand. */
  datatype NodeFacts = NodeFacts(len: int, fdegree: int, rdegree: int)

  predicate Sorted(s: seq<int>)
  {
    forall i, j :: 0 <= i < j < |s| ==> s[i] <= s[j]
  }

  // ---------------------------------------------------------------------
  // mergeSortedLists
  // ---------------------------------------------------------------------

  /** The merge `mergeSortedLists` performs: the left head goes first only when strictly smaller. */
  function Merge(l: seq<int>, r: seq<int>): (m: seq<int>)
    ensures |m| == |l| + |r|
    decreases |l| + |r|
  {
    if l == [] then r
    else if r == [] then l
    else if l[0] < r[0] then [l[0]] + Merge(l[1..], r)
    else [r[0]] + Merge(l, r[1..])
  }

  /** The merge is a permutation of its two inputs together. */
  lemma {:induction false} MergePermutes(l: seq<int>, r: seq<int>)
    ensures multiset(Merge(l, r)) == multiset(l) + multiset(r)
    decreases |l| + |r|
  {
    if l != [] && r != [] {
      if l[0] < r[0] {
        assert l == [l[0]] + l[1..];
        MergePermutes(l[1..], r);
      } else {
        assert r == [r[0]] + r[1..];
        MergePermutes(l, r[1..]);
      }
    }
  }

  lemma {:induction false} SortedTail(x: int, s: seq<int>)
    requires Sorted([x] + s)
    ensures Sorted(s) && forall y :: y in s ==> x <= y
  {
    forall i, j | 0 <= i < j < |s|
      ensures s[i] <= s[j]
    {
      assert s[i] == ([x] + s)[i + 1] && s[j] == ([x] + s)[j + 1];
    }
    forall y | y in s
      ensures x <= y
    {
      var i :| 0 <= i < |s| && s[i] == y;
      assert ([x] + s)[0] == x && ([x] + s)[i + 1] == y;
    }
  }

  lemma {:induction false} SortedCons(x: int, s: seq<int>)
    requires Sorted(s)
    requires forall y :: y in s ==> x <= y
    ensures Sorted([x] + s)
  {
    forall i, j | 0 <= i < j < |[x] + s|
      ensures ([x] + s)[i] <= ([x] + s)[j]
    {
      assert ([x] + s)[j] == s[j - 1];
      assert s[j - 1] in s;
      if i > 0 {
        assert ([x] + s)[i] == s[i - 1];
      }
    }
  }

  lemma {:induction false} MergeMembers(l: seq<int>, r: seq<int>)
    ensures forall y :: y in Merge(l, r) ==> y in l || y in r
  {
    MergePermutes(l, r);
    forall y | y in Merge(l, r)
      ensures y in l || y in r
    {
      assert y in multiset(Merge(l, r));
    }
  }

  /** Merging two ascending lists gives an ascending list. */
  lemma {:induction false} MergeSorted(l: seq<int>, r: seq<int>)
    requires Sorted(l) && Sorted(r)
    ensures Sorted(Merge(l, r))
    decreases |l| + |r|
  {
    if l != [] && r != [] {
      assert l == [l[0]] + l[1..] && r == [r[0]] + r[1..];
      SortedTail(l[0], l[1..]);
      SortedTail(r[0], r[1..]);
      if l[0] < r[0] {
        MergeSorted(l[1..], r);
        MergeMembers(l[1..], r);
        SortedCons(l[0], Merge(l[1..], r));
      } else {
        MergeSorted(l, r[1..]);
        MergeMembers(l, r[1..]);
        SortedCons(r[0], Merge(l, r[1..]));
      }
    }
  }

  /** Which list each element of the merge was taken from (true: the left one). */
  function Sources(l: seq<int>, r: seq<int>): (c: seq<bool>)
    ensures |c| == |l| + |r|
    decreases |l| + |r|
  {
    if l == [] then seq(|r|, _ => false)
    else if r == [] then seq(|l|, _ => true)
    else if l[0] < r[0] then [true] + Sources(l[1..], r)
    else [false] + Sources(l, r[1..])
  }

  /** The elements of `m` whose source mark is `side`, in order. */
  function Pick(m: seq<int>, c: seq<bool>, side: bool): seq<int>
    requires |m| == |c|
  {
    if m == [] then [] else (if c[0] == side then [m[0]] else []) + Pick(m[1..], c[1..], side)
  }

  lemma {:induction false} PickConstant(m: seq<int>, c: seq<bool>, side: bool)
    requires |m| == |c|
    requires forall i :: 0 <= i < |c| ==> c[i] == side
    ensures Pick(m, c, side) == m && Pick(m, c, !side) == []
  {
    if m != [] {
      PickConstant(m[1..], c[1..], side);
    }
  }

  /**
   * The merge interleaves its inputs: the elements taken from each side,
   * read in order, are exactly that side's list.
   */
  lemma {:induction false} MergeInterleaves(l: seq<int>, r: seq<int>)
    ensures Pick(Merge(l, r), Sources(l, r), true) == l
    ensures Pick(Merge(l, r), Sources(l, r), false) == r
    decreases |l| + |r|
  {
    if l == [] {
      PickConstant(r, Sources(l, r), false);
    } else if r == [] {
      PickConstant(l, Sources(l, r), true);
    } else if l[0] < r[0] {
      MergeInterleaves(l[1..], r);
      assert l == [l[0]] + l[1..];
    } else {
      MergeInterleaves(l, r[1..]);
      assert r == [r[0]] + r[1..];
    }
  }

  /** On equal heads the right element comes out first. */
  lemma {:induction false} MergeTieTakesRight(l: seq<int>, r: seq<int>)
    requires l != [] && r != [] && l[0] == r[0]
    ensures Sources(l, r)[0] == false
  {
  }

  lemma {:induction false} MergeStep(l: seq<int>, r: seq<int>, i: nat, j: nat)
    requires i < |l| && j < |r|
    ensures l[i] < r[j] ==> Merge(l[i..], r[j..]) == [l[i]] + Merge(l[i + 1..], r[j..])
    ensures !(l[i] < r[j]) ==> Merge(l[i..], r[j..]) == [r[j]] + Merge(l[i..], r[j + 1..])
  {
    assert l[i..][0] == l[i] && l[i..][1..] == l[i + 1..];
    assert r[j..][0] == r[j] && r[j..][1..] == r[j + 1..];
  }

  /** `mergeSortedLists`: the two-index loop followed by the two tail copies. */
  method MergeSortedLists(left: seq<int>, right: seq<int>) returns (merged: seq<int>)
    ensures merged == Merge(left, right)
  {
    merged := [];
    var i, j := 0, 0;
    assert left[0..] == left && right[0..] == right;
    while i < |left| && j < |right|
      invariant 0 <= i <= |left| && 0 <= j <= |right|
      invariant merged + Merge(left[i..], right[j..]) == Merge(left, right)
      decreases |left| - i + |right| - j
    {
      MergeStep(left, right, i, j);
      if left[i] < right[j] {
        var rest := Merge(left[i + 1..], right[j..]);
        assert merged + ([left[i]] + rest) == (merged + [left[i]]) + rest;
        merged := merged + [left[i]];
        i := i + 1;
      } else {
        var rest := Merge(left[i..], right[j + 1..]);
        assert merged + ([right[j]] + rest) == (merged + [right[j]]) + rest;
        merged := merged + [right[j]];
        j := j + 1;
      }
    }
    if i < |left| {
      assert right[j..] == [];
      merged := CopyRest(merged, left, i);
    } else if j < |right| {
      assert left[i..] == [];
      merged := CopyRest(merged, right, j);
    } else {
      assert left[i..] == [] && right[j..] == [];
    }
  }

  /** One tail loop of `mergeSortedLists`: append what is left of `s` from index `from` on. */
  method CopyRest(acc: seq<int>, s: seq<int>, from: nat) returns (out: seq<int>)
    requires from <= |s|
    ensures out == acc + s[from..]
  {
    out := acc;
    var i := from;
    while i < |s|
      invariant from <= i <= |s|
      invariant out + s[i..] == acc + s[from..]
    {
      assert s[i..] == [s[i]] + s[i + 1..];
      out := out + [s[i]];
      i := i + 1;
    }
  }

  // ---------------------------------------------------------------------
  // GraphStatsMapper
  // ---------------------------------------------------------------------

  /** `ArrayList.get` or `set` with an index out of range. */
  datatype IndexError = IndexOutOfBounds(index: int)

  /**
   * `GraphStatsMapper`: `configure` makes one output record, reused for
   * every node, whose length list is empty; `map` overwrites its fields.
   */
  class GraphStatsMapper {
    var count: int
    var lengthSum: int
    var degreeSum: int
    var lengths: seq<int>
    /** The output key, `-1 * bin`. */
    var key: int

    constructor Configure()
      ensures count == 0 && lengthSum == 0 && degreeSum == 0 && lengths == [] && key == -1
    {
      count, lengthSum, degreeSum, lengths, key := 0, 0, 0, [], -1;
    }

    /**
     * `map` as written: `getLengths().set(0, len)` replaces the first length,
     * and throws when the list is empty, after `count` has been set.
     * `bin` is what `binLength` computes from the length.
     */
    method Map(n: NodeFacts, bin: int) returns (r: Result<(int, StatsData), IndexError>)
      modifies this
      ensures count == 1
      ensures old(lengths) == [] ==>
        r == Err(IndexOutOfBounds(0)) &&
        lengths == [] && lengthSum == old(lengthSum) && degreeSum == old(degreeSum) && key == old(key)
      ensures old(lengths) != [] ==>
        lengths == old(lengths)[0 := n.len] &&
        lengthSum == n.len && degreeSum == (n.fdegree + n.rdegree) * n.len && key == -bin &&
        r == Ok((key, StatsData(count, lengthSum, degreeSum, lengths)))
    {
      count := 1;
      if |lengths| == 0 {
        return Err(IndexOutOfBounds(0));
      }
      lengths := lengths[0 := n.len];
      lengthSum := n.len;
      degreeSum := (n.fdegree + n.rdegree) * n.len;
      key := -1 * bin;
      r := Ok((key, StatsData(count, lengthSum, degreeSum, lengths)));
    }
  }

  /** A freshly configured mapper fails on the very first node it sees. */
  method ConfigureThenMap(n: NodeFacts, bin: int) returns (r: Result<(int, StatsData), IndexError>)
    ensures r == Err(IndexOutOfBounds(0))
  {
    var mapper := new GraphStatsMapper.Configure();
    r := mapper.Map(n, bin);
  }

  /**
   * The record the mapper evidently means to emit: one contig with its
   * length, its degree-weighted length and a one-element length list,
   * keyed by the negated bin so that larger bins sort first.
   */
  function MapRecord(n: NodeFacts, bin: int): (p: (int, StatsData))
  {
    (-bin, StatsData(1, n.len, (n.fdegree + n.rdegree) * n.len, [n.len]))
  }

  // ---------------------------------------------------------------------
  // GraphStatsReducer
  // ---------------------------------------------------------------------

  const Zero := StatsData(0, 0, 0, [])

  /** One reducer step: add the counts and sums, merge the length lists. */
  function Add(t: StatsData, item: StatsData): StatsData
  {
    StatsData(t.count + item.count, t.lengthSum + item.lengthSum, t.degreeSum + item.degreeSum,
              Merge(t.lengths, item.lengths))
  }

  /** What the reducer accumulates over the values of one key, in arrival order. */
  function Totals(items: seq<StatsData>): StatsData
  {
    if items == [] then Zero else Add(Totals(items[..|items| - 1]), items[|items| - 1])
  }

  /** All the items' length lists are ascending (true of mapper and reducer outputs). */
  predicate AllSorted(items: seq<StatsData>)
  {
    forall i :: 0 <= i < |items| ==> Sorted(items[i].lengths)
  }

  /** The reducer's length list is ascending whenever its inputs' are. */
  lemma {:induction false} TotalsSorted(items: seq<StatsData>)
    requires AllSorted(items)
    ensures Sorted(Totals(items).lengths)
  {
    if items != [] {
      TotalsSorted(items[..|items| - 1]);
      MergeSorted(Totals(items[..|items| - 1]).lengths, items[|items| - 1].lengths);
    }
  }

  /** Accumulating a + b is accumulating a and b separately and adding the results. */
  lemma {:induction false} TotalsAppend(a: seq<StatsData>, b: seq<StatsData>)
    ensures Totals(a + b).count == Totals(a).count + Totals(b).count
    ensures Totals(a + b).lengthSum == Totals(a).lengthSum + Totals(b).lengthSum
    ensures Totals(a + b).degreeSum == Totals(a).degreeSum + Totals(b).degreeSum
    ensures multiset(Totals(a + b).lengths) == multiset(Totals(a).lengths) + multiset(Totals(b).lengths)
    decreases |b|
  {
    if b == [] {
      assert a + b == a;
    } else {
      var init := b[..|b| - 1];
      var last := b[|b| - 1];
      assert (a + b)[..|a + b| - 1] == a + init;
      assert (a + b)[|a + b| - 1] == last;
      TotalsAppend(a, init);
      MergePermutes(Totals(a + init).lengths, last.lengths);
      MergePermutes(Totals(init).lengths, last.lengths);
    }
  }

  lemma {:induction false} SortedHeadLeast(s: seq<int>, y: int)
    requires Sorted(s) && y in s
    ensures s[0] <= y
  {
    var i :| 0 <= i < |s| && s[i] == y;
  }

  lemma {:induction false} MultisetTail(s: seq<int>)
    requires s != []
    ensures multiset(s[1..]) == multiset(s) - multiset{s[0]}
  {
    assert s == [s[0]] + s[1..];
    assert multiset(s) == multiset{s[0]} + multiset(s[1..]);
  }

  /** Two ascending lists with the same elements are equal. */
  lemma {:induction false} SortedUnique(a: seq<int>, b: seq<int>)
    requires Sorted(a) && Sorted(b) && multiset(a) == multiset(b)
    ensures a == b
  {
    assert |a| == |multiset(a)| == |multiset(b)| == |b|;
    if a != [] {
      assert a[0] in multiset(b) && b[0] in multiset(a);
      SortedHeadLeast(b, a[0]);
      SortedHeadLeast(a, b[0]);
      assert a == [a[0]] + a[1..] && b == [b[0]] + b[1..];
      SortedTail(a[0], a[1..]);
      SortedTail(b[0], b[1..]);
      assert a[0] == b[0];
      MultisetTail(a);
      MultisetTail(b);
      SortedUnique(a[1..], b[1..]);
    }
  }

  /**
   * Using the reducer as a combiner changes nothing: reducing the combined
   * totals of two halves of a key's values gives the same record as
   * reducing all the values at once.
   */
  lemma {:induction false} CombinerTransparent(a: seq<StatsData>, b: seq<StatsData>)
    requires AllSorted(a + b)
    ensures Totals([Totals(a), Totals(b)]) == Totals(a + b)
  {
    assert a == (a + b)[..|a|] && b == (a + b)[|a|..];
    assert AllSorted(a) && AllSorted(b);
    TotalsSorted(a);
    TotalsSorted(b);
    TotalsSorted(a + b);
    TotalsAppend(a, b);
    TotalsOfPair(Totals(a), Totals(b));
    var merged := Merge(Totals(a).lengths, Totals(b).lengths);
    MergePermutes(Totals(a).lengths, Totals(b).lengths);
    MergeSorted(Totals(a).lengths, Totals(b).lengths);
    SortedUnique(merged, Totals(a + b).lengths);
    var whole := Totals(a + b);
    assert whole == StatsData(whole.count, whole.lengthSum, whole.degreeSum, merged);
    var combined := Totals([Totals(a), Totals(b)]);
    assert combined.count == whole.count;
    assert combined.lengthSum == whole.lengthSum;
    assert combined.degreeSum == whole.degreeSum;
    assert combined.lengths == merged;
  }

  /** Reducing two records adds their counts and sums and merges their length lists. */
  lemma {:induction false} TotalsOfPair(x: StatsData, y: StatsData)
    ensures Totals([x, y]) == StatsData(x.count + y.count, x.lengthSum + y.lengthSum,
                                        x.degreeSum + y.degreeSum, Merge(x.lengths, y.lengths))
  {
    var pair := [x, y];
    assert pair[..1] == [x] && [x][..0] == [];
    assert Totals([x]) == Add(Zero, x);
    assert Merge([], x.lengths) == x.lengths;
  }

  /** The records the corrected mapper emits for a list of nodes in one bin. */
  function MapRecords(nodes: seq<NodeFacts>, bin: int): (recs: seq<StatsData>)
    ensures |recs| == |nodes|
    ensures forall i :: 0 <= i < |recs| ==>
      recs[i] == StatsData(1, nodes[i].len, (nodes[i].fdegree + nodes[i].rdegree) * nodes[i].len, [nodes[i].len])
  {
    if nodes == [] then []
    else MapRecords(nodes[..|nodes| - 1], bin) + [MapRecord(nodes[|nodes| - 1], bin).1]
  }

  function Lens(nodes: seq<NodeFacts>): seq<int>
  {
    if nodes == [] then [] else Lens(nodes[..|nodes| - 1]) + [nodes[|nodes| - 1].len]
  }

  function SumLens(nodes: seq<NodeFacts>): int
  {
    if nodes == [] then 0 else SumLens(nodes[..|nodes| - 1]) + nodes[|nodes| - 1].len
  }

  /** The degree-weighted lengths `(fdegree + rdegree) * len` of the nodes, added up. */
  function SumDegreeLens(nodes: seq<NodeFacts>): int
  {
    if nodes == [] then 0
    else
      var n := nodes[|nodes| - 1];
      SumDegreeLens(nodes[..|nodes| - 1]) + (n.fdegree + n.rdegree) * n.len
  }

  /**
   * Map then reduce, for one bin: the count is the number of contigs, the
   * length sum is the sum of their lengths, the degree sum is the sum of
   * their degree-weighted lengths, and the length list is those lengths in
   * ascending order.
   */
  lemma {:induction false} ReduceOfMapped(nodes: seq<NodeFacts>, bin: int)
    ensures Totals(MapRecords(nodes, bin)).count == |nodes|
    ensures Totals(MapRecords(nodes, bin)).lengthSum == SumLens(nodes)
    ensures Totals(MapRecords(nodes, bin)).degreeSum == SumDegreeLens(nodes)
    ensures Sorted(Totals(MapRecords(nodes, bin)).lengths)
    ensures multiset(Totals(MapRecords(nodes, bin)).lengths) == multiset(Lens(nodes))
  {
    var recs := MapRecords(nodes, bin);
    assert AllSorted(recs);
    TotalsSorted(recs);
    if nodes != [] {
      var init := nodes[..|nodes| - 1];
      var last := nodes[|nodes| - 1];
      assert recs[..|recs| - 1] == MapRecords(init, bin);
      assert recs[|recs| - 1] == MapRecord(last, bin).1;
      ReduceOfMapped(init, bin);
      MergePermutes(Totals(MapRecords(init, bin)).lengths, [last.len]);
    }
  }

  /** `GraphStatsReducer`: `total` is reset for every key and then accumulates. */
  class GraphStatsReducer {
    var total: StatsData

    constructor Configure()
      ensures total == Zero
    {
      total := Zero;
    }

    method Reduce(bin: int, items: seq<StatsData>) returns (out: StatsData)
      modifies this
      ensures total == Totals(items) && out == total
    {
      total := Zero;
      var i := 0;
      while i < |items|
        invariant 0 <= i <= |items|
        invariant total == Totals(items[..i])
      {
        assert items[..i + 1][..i] == items[..i];
        var item := items[i];
        var merged := MergeSortedLists(total.lengths, item.lengths);
        total := StatsData(total.count + item.count, total.lengthSum + item.lengthSum,
                           total.degreeSum + item.degreeSum, merged);
        i := i + 1;
      }
      assert items[..i] == items;
      out := total;
    }
  }

  // ---------------------------------------------------------------------
  // computeN50Stats
  // ---------------------------------------------------------------------

  datatype N50Stats = N50Stats(
    n50Length: int,
    maxLength: int,
    minLength: int,
    lengthSum: int,
    numContigs: int,
    n50Index: int)

  /** Java's `long / 2`, which truncates toward zero. */
  function JavaHalf(x: int): int
  {
    if x >= 0 then x / 2 else -((-x) / 2)
  }

  function Sum(s: seq<int>): int
  {
    if s == [] then 0 else Sum(s[..|s| - 1]) + s[|s| - 1]
  }

  lemma {:induction false} SumAppend(a: seq<int>, b: seq<int>)
    ensures Sum(a + b) == Sum(a) + Sum(b)
    decreases |b|
  {
    if b == [] {
      assert a + b == a;
    } else {
      assert (a + b)[..|a + b| - 1] == a + b[..|b| - 1];
      SumAppend(a, b[..|b| - 1]);
    }
  }

  lemma {:induction false} SumNonNegative(s: seq<int>)
    ensures (forall x :: x in s ==> x >= 0) ==> Sum(s) >= 0
  {
    if s != [] && forall x :: x in s ==> x >= 0 {
      var init := s[..|s| - 1];
      assert s == init + [s[|s| - 1]];
      assert forall x :: x in init ==> x in s;
      SumNonNegative(init);
      assert s[|s| - 1] in s;
    }
  }

  /** With no negative element, a prefix sums to at most the whole. */
  lemma {:induction false} SumPrefixAtMost(c: seq<int>, n: nat)
    requires n <= |c|
    requires forall k :: 0 <= k < |c| ==> c[k] >= 0
    ensures Sum(c[..n]) <= Sum(c)
    decreases |c| - n
  {
    if n < |c| {
      assert c[..n + 1][..n] == c[..n];
      SumPrefixAtMost(c, n + 1);
    } else {
      assert c[..n] == c;
    }
  }

  /** All contig lengths of the bins, bin after bin, as `contigLengths` collects them. */
  function Concat(bins: seq<(int, StatsData)>): seq<int>
  {
    if bins == [] then [] else Concat(bins[..|bins| - 1]) + bins[|bins| - 1].1.lengths
  }

  function SumLengthSums(bins: seq<(int, StatsData)>): int
  {
    if bins == [] then 0 else SumLengthSums(bins[..|bins| - 1]) + bins[|bins| - 1].1.lengthSum
  }

  /** Every bin's length sum adds up its lengths, and no length is negative. */
  predicate WellFormed(bins: seq<(int, StatsData)>)
  {
    forall k :: 0 <= k < |bins| ==>
      Sum(bins[k].1.lengths) == bins[k].1.lengthSum && forall x :: x in bins[k].1.lengths ==> x >= 0
  }

  /**
   * What a record reports once the lengths `c`, adding up to `total`, have
   * been collected, given the N50 index of the record before: the totals,
   * the first contig at which the running sum reaches half the total when
   * the scan resumes at `prevIndex`, and the first and last collected
   * lengths as maximum and minimum.
   */
  predicate RecordHolds(c: seq<int>, total: int, s: N50Stats, prevIndex: int)
  {
    s.lengthSum == total &&
    s.numContigs == |c| &&
    0 <= s.n50Index < |c| &&
    s.n50Length == c[s.n50Index] &&
    s.maxLength == c[0] &&
    s.minLength == c[|c| - 1] &&
    Sum(c[..s.n50Index + 1]) >= JavaHalf(total) &&
    prevIndex <= s.n50Index &&
    (s.n50Index == prevIndex || Sum(c[..s.n50Index]) < JavaHalf(total))
  }

  /** Previous bins' N50 index as the scan sees it: -1 before the first bin. */
  function PrevIndex(outs: seq<N50Stats>, k: int): int
    requires 0 <= k <= |outs|
  {
    if k == 0 then -1 else outs[k - 1].n50Index
  }

  /**
   * One record per bin, each satisfying RecordHolds over the bins up to
   * and including its own, with the previous record's N50 index as where
   * its scan resumed.
   */
  predicate AllBinStatsHold(bins: seq<(int, StatsData)>, outs: seq<N50Stats>)
    requires |outs| == |bins|
    decreases |outs|
  {
    outs == [] ||
    (AllBinStatsHold(bins[..|bins| - 1], outs[..|outs| - 1]) &&
     RecordHolds(Concat(bins), SumLengthSums(bins), outs[|outs| - 1], PrevIndex(outs, |outs| - 1)))
  }

  /** AllBinStatsHold read at one bin: record k describes the bins up to and including k. */
  lemma {:induction false} AllBinStatsHoldAt(bins: seq<(int, StatsData)>, outs: seq<N50Stats>, k: nat)
    requires |outs| == |bins| && k < |bins|
    requires AllBinStatsHold(bins, outs)
    ensures RecordHolds(Concat(bins[..k + 1]), SumLengthSums(bins[..k + 1]), outs[k], PrevIndex(outs, k))
    decreases |bins|
  {
    var n := |bins|;
    if k == n - 1 {
      assert bins[..k + 1] == bins;
    } else {
      AllBinStatsHoldAt(bins[..n - 1], outs[..n - 1], k);
      assert bins[..n - 1][..k + 1] == bins[..k + 1];
      assert outs[..n - 1][k] == outs[k];
      assert PrevIndex(outs[..n - 1], k) == PrevIndex(outs, k);
    }
  }

  lemma {:induction false} ConcatStep(bins: seq<(int, StatsData)>, k: nat)
    requires k < |bins|
    ensures Concat(bins[..k + 1]) == Concat(bins[..k]) + bins[k].1.lengths
    ensures SumLengthSums(bins[..k + 1]) == SumLengthSums(bins[..k]) + bins[k].1.lengthSum
  {
    assert bins[..k + 1][..k] == bins[..k];
  }

  /** Reading one more bin leaves the lengths collected before it in place. */
  lemma {:induction false} ConcatPrefix(bins: seq<(int, StatsData)>, n: nat)
    requires bins != [] && n <= |Concat(bins[..|bins| - 1])|
    ensures |Concat(bins[..|bins| - 1])| <= |Concat(bins)|
    ensures Concat(bins)[..n] == Concat(bins[..|bins| - 1])[..n]
  {
    var a := Concat(bins[..|bins| - 1]);
    assert Concat(bins) == a + bins[|bins| - 1].1.lengths;
    assert (a + bins[|bins| - 1].1.lengths)[..n] == a[..n];
  }

  /** For well-formed bins the collected lengths add up to the running length sum, which is not negative. */
  lemma {:induction false} WellFormedTotals(bins: seq<(int, StatsData)>)
    ensures WellFormed(bins) ==>
      Sum(Concat(bins)) == SumLengthSums(bins) && SumLengthSums(bins) >= 0 &&
      forall x :: x in Concat(bins) ==> x >= 0
    decreases |bins|
  {
    if bins != [] && WellFormed(bins) {
      var p := bins[..|bins| - 1];
      assert WellFormed(p) by {
        forall k | 0 <= k < |p| ensures p[k] == bins[k] { }
      }
      WellFormedTotals(p);
      var c := Concat(p);
      var ls := bins[|bins| - 1].1.lengths;
      assert Sum(ls) == bins[|bins| - 1].1.lengthSum && forall x :: x in ls ==> x >= 0;
      SumAppend(c, ls);
      assert forall x :: x in c + ls ==> x in c || x in ls;
      SumNonNegative(c + ls);
    }
  }

  /**
   * The inner loop of `computeN50Stats` as a value: starting after index
   * `i`, where the running sum is `sum`, step forward until the running sum
   * reaches `half`; fail with the index one past the end when the list runs
   * out first.
   */
  function Scan(c: seq<int>, i: int, sum: int, half: int): (r: Result<(int, int), IndexError>)
    requires -1 <= i < |c|
    ensures r.Ok? ==> i <= r.value.0 < |c|
    decreases |c| - i
  {
    if sum >= half then Ok((i, sum))
    else if i + 1 >= |c| then Err(IndexOutOfBounds(i + 1))
    else Scan(c, i + 1, sum + c[i + 1], half)
  }

  /**
   * When `sum` is the running sum up to `i`, Scan stops at the first index
   * past `i` at which the running sum reaches `half`, reporting that sum;
   * it fails only when the whole list falls short of `half`.
   */
  lemma {:induction false} ScanFindsHalf(c: seq<int>, i: int, sum: int, half: int)
    requires -1 <= i < |c|
    requires sum == Sum(c[..i + 1])
    ensures var r := Scan(c, i, sum, half);
      r.Ok? ==>
        r.value.1 == Sum(c[..r.value.0 + 1]) && r.value.1 >= half &&
        (r.value.0 == i || Sum(c[..r.value.0]) < half)
    ensures var r := Scan(c, i, sum, half);
      r.Ok? && r.value.0 == i ==> r.value.1 == sum
    ensures var r := Scan(c, i, sum, half);
      r.Err? ==> r.error == IndexOutOfBounds(|c|) && Sum(c) < half
    ensures (forall k :: 0 <= k < |c| ==> c[k] >= 0) ==>
      (Scan(c, i, sum, half).Err? <==> Sum(c) < half)
    decreases |c| - i
  {
    if sum >= half {
      if forall k :: 0 <= k < |c| ==> c[k] >= 0 {
        SumPrefixAtMost(c, i + 1);
      }
    } else if i + 1 >= |c| {
      assert c[..i + 1] == c;
    } else {
      assert c[..i + 2][..i + 1] == c[..i + 1];
      ScanFindsHalf(c, i + 1, sum + c[i + 1], half);
    }
  }

  /** What `computeN50Stats` carries from bin to bin: the records so far, the N50 index and the running sum up to it. */
  datatype N50State = N50State(records: seq<N50Stats>, n50Index: int, n50Sum: int)

  /**
   * One bin of `computeN50Stats`, once `c` holds every length collected so
   * far and `total` their sum: resume the scan and append the record it
   * yields, or fail on the scan's error or on a lookup at a negative index.
   */
  function N50Step(st: N50State, c: seq<int>, total: int): (r: Result<N50State, IndexError>)
    requires -1 <= st.n50Index < |c|
    ensures r.Ok? ==> 0 <= r.value.n50Index < |c|
  {
    var scan := Scan(c, st.n50Index, st.n50Sum, JavaHalf(total));
    if scan.Err? then Err(scan.error)
    else
      var i := scan.value.0;
      if i < 0 then Err(IndexOutOfBounds(i))
      else Ok(N50State(st.records + [N50Stats(c[i], c[0], c[|c| - 1], total, |c|, i)], i, scan.value.1))
  }

  /** The state of `computeN50Stats` after the bins `bins` have been read, or the index error that ended it. */
  function N50Run(bins: seq<(int, StatsData)>): (r: Result<N50State, IndexError>)
    ensures r.Ok? ==> -1 <= r.value.n50Index < |Concat(bins)|
    decreases |bins|
  {
    if bins == [] then Ok(N50State([], -1, 0))
    else
      var prev := N50Run(bins[..|bins| - 1]);
      if prev.Err? then prev
      else N50Step(prev.value, Concat(bins), SumLengthSums(bins))
  }

  /** The records `computeN50Stats` returns, or its index error. */
  function N50(bins: seq<(int, StatsData)>): Result<seq<N50Stats>, IndexError>
  {
    match N50Run(bins)
    case Ok(st) => Ok(st.records)
    case Err(e) => Err(e)
  }

  /**
   * A successful step appends a record for the contig at which the running
   * sum first reaches half of `total`, searching from the previous N50 index.
   */
  lemma {:induction false} N50StepHolds(st: N50State, c: seq<int>, total: int)
    requires -1 <= st.n50Index < |c|
    requires st.n50Sum == Sum(c[..st.n50Index + 1])
    ensures var r := N50Step(st, c, total);
      r.Ok? ==>
        var i := r.value.n50Index;
        r.value.records == st.records + [N50Stats(c[i], c[0], c[|c| - 1], total, |c|, i)] &&
        st.n50Index <= i && r.value.n50Sum == Sum(c[..i + 1]) &&
        Sum(c[..i + 1]) >= JavaHalf(total) &&
        (i == st.n50Index || Sum(c[..i]) < JavaHalf(total))
  {
    ScanFindsHalf(c, st.n50Index, st.n50Sum, JavaHalf(total));
  }

  /**
   * A step fails only when all lengths collected so far fall short of half
   * of `total`, or when no contig has been scanned yet and the sum before
   * the first one already reaches it.
   */
  lemma {:induction false} N50StepFails(st: N50State, c: seq<int>, total: int)
    requires -1 <= st.n50Index < |c|
    requires st.n50Sum == Sum(c[..st.n50Index + 1])
    ensures N50Step(st, c, total).Err? ==>
      Sum(c) < JavaHalf(total) || (st.n50Index == -1 && st.n50Sum >= JavaHalf(total))
  {
    var scan := Scan(c, st.n50Index, st.n50Sum, JavaHalf(total));
    ScanFindsHalf(c, st.n50Index, st.n50Sum, JavaHalf(total));
    if scan.Ok? && scan.value.0 < 0 {
      assert scan.value.0 == st.n50Index;
    }
  }

  /** Once a prefix of the bins ends in an error, reading more bins keeps that error. */
  lemma {:induction false} N50RunErrSticks(bins: seq<(int, StatsData)>, n: nat)
    requires n <= |bins|
    ensures N50Run(bins[..n]).Err? ==> N50Run(bins) == N50Run(bins[..n])
    decreases |bins| - n
  {
    if n < |bins| && N50Run(bins[..n]).Err? {
      assert bins[..n + 1][..n] == bins[..n];
      assert N50Run(bins[..n + 1]) == N50Run(bins[..n]);
      N50RunErrSticks(bins, n + 1);
    }
    if n == |bins| {
      assert bins[..n] == bins;
    }
  }

  lemma {:induction false} AllBinStatsHoldExtend(bins: seq<(int, StatsData)>, outs: seq<N50Stats>, s: N50Stats)
    requires |outs| + 1 == |bins|
    requires AllBinStatsHold(bins[..|outs|], outs)
    requires RecordHolds(Concat(bins), SumLengthSums(bins), s, PrevIndex(outs, |outs|))
    ensures AllBinStatsHold(bins, outs + [s])
  {
    var outs' := outs + [s];
    assert outs'[..|outs|] == outs;
    assert outs'[|outs|] == s && PrevIndex(outs', |outs|) == PrevIndex(outs, |outs|);
  }

  /** A successful step over the whole of `bins` extends the records for all but its last bin. */
  lemma {:induction false} N50StepSound(bins: seq<(int, StatsData)>, st: N50State, st': N50State)
    requires bins != []
    requires |st.records| == |bins| - 1 && AllBinStatsHold(bins[..|bins| - 1], st.records)
    requires st.n50Index == PrevIndex(st.records, |st.records|)
    requires -1 <= st.n50Index < |Concat(bins[..|bins| - 1])|
    requires st.n50Sum == Sum(Concat(bins[..|bins| - 1])[..st.n50Index + 1])
    requires N50Step(st, Concat(bins), SumLengthSums(bins)) == Ok(st')
    ensures |st'.records| == |bins| && AllBinStatsHold(bins, st'.records)
    ensures st'.n50Index == PrevIndex(st'.records, |bins|)
  {
    ConcatPrefix(bins, st.n50Index + 1);
    N50StepRecord(st, Concat(bins), SumLengthSums(bins), st');
    var stats := st'.records[|st.records|];
    assert st'.records == st.records + [stats];
    AllBinStatsHoldExtend(bins, st.records, stats);
  }

  /** A successful step appends one record, which satisfies RecordHolds from the previous N50 index. */
  lemma {:induction false} N50StepRecord(st: N50State, c: seq<int>, total: int, st': N50State)
    requires -1 <= st.n50Index < |c|
    requires st.n50Sum == Sum(c[..st.n50Index + 1])
    requires N50Step(st, c, total) == Ok(st')
    ensures |st'.records| == |st.records| + 1 && st'.records[..|st.records|] == st.records
    ensures RecordHolds(c, total, st'.records[|st.records|], st.n50Index)
    ensures st'.n50Index == st'.records[|st.records|].n50Index
  {
    N50StepHolds(st, c, total);
    var i := st'.n50Index;
    assert st'.records == st.records + [N50Stats(c[i], c[0], c[|c| - 1], total, |c|, i)];
  }

  /** After a successful step the carried sum is the running sum up to the new N50 index. */
  lemma {:induction false} N50StepSum(bins: seq<(int, StatsData)>, st: N50State, st': N50State)
    requires bins != []
    requires -1 <= st.n50Index < |Concat(bins[..|bins| - 1])|
    requires st.n50Sum == Sum(Concat(bins[..|bins| - 1])[..st.n50Index + 1])
    requires N50Step(st, Concat(bins), SumLengthSums(bins)) == Ok(st')
    ensures st'.n50Sum == Sum(Concat(bins)[..st'.n50Index + 1])
  {
    ConcatPrefix(bins, st.n50Index + 1);
    StepCarriesSum(st, st', Concat(bins), SumLengthSums(bins));
  }

  lemma {:induction false} StepCarriesSum(st: N50State, st': N50State, c: seq<int>, total: int)
    requires -1 <= st.n50Index < |c|
    requires st.n50Sum == Sum(c[..st.n50Index + 1])
    requires N50Step(st, c, total) == Ok(st')
    ensures st'.n50Sum == Sum(c[..st'.n50Index + 1])
  {
    N50StepHolds(st, c, total);
  }

  /**
   * Every record `computeN50Stats` produces satisfies RecordHolds: one
   * record per bin, each reporting the N50 contig over all bins up to its
   * own, found by resuming the scan where the previous bin's stopped.
   */
  lemma {:induction false} N50RunSound(bins: seq<(int, StatsData)>)
    ensures var r := N50Run(bins);
      r.Ok? ==>
        |r.value.records| == |bins| && AllBinStatsHold(bins, r.value.records) &&
        r.value.n50Index == PrevIndex(r.value.records, |bins|)
    decreases |bins|
  {
    if bins != [] && N50Run(bins).Ok? {
      var p := bins[..|bins| - 1];
      N50RunSound(p);
      N50RunSum(p);
      var st := N50Run(p).value;
      var st' := N50Run(bins).value;
      assert N50Step(st, Concat(bins), SumLengthSums(bins)) == Ok(st');
      N50StepSound(bins, st, st');
    }
  }

  /** The sum `computeN50Stats` carries is the running sum up to its current N50 index. */
  lemma {:induction false} N50RunSum(bins: seq<(int, StatsData)>)
    ensures var r := N50Run(bins);
      r.Ok? ==> r.value.n50Sum == Sum(Concat(bins)[..r.value.n50Index + 1])
    decreases |bins|
  {
    if bins != [] && N50Run(bins).Ok? {
      var p := bins[..|bins| - 1];
      N50RunSum(p);
      var st := N50Run(p).value;
      var st' := N50Run(bins).value;
      assert N50Step(st, Concat(bins), SumLengthSums(bins)) == Ok(st');
      N50StepSum(bins, st, st');
    }
  }

  /** What `computeN50Stats` returns on success: one record per bin, each satisfying RecordHolds. */
  lemma {:induction false} N50Sound(bins: seq<(int, StatsData)>)
    ensures N50(bins).Ok? ==> |N50(bins).value| == |bins| && AllBinStatsHold(bins, N50(bins).value)
  {
    N50RunSound(bins);
  }

  /**
   * The reducer leaves a bin's lengths ascending, but the records read
   * them as descending: for a single ascending bin the reported maximum
   * is its smallest length and the minimum its largest.
   */
  lemma {:induction false} N50AscendingBinSwapsExtremes(bin: (int, StatsData))
    requires Sorted(bin.1.lengths)
    ensures N50([bin]).Ok? ==>
      |N50([bin]).value| == 1 &&
      forall x :: x in bin.1.lengths ==> N50([bin]).value[0].maxLength <= x <= N50([bin]).value[0].minLength
  {
    var bins, c := [bin], bin.1.lengths;
    assert bins[..|bins| - 1] == [];
    assert Concat(bins) == c;
    var st := N50State([], -1, 0);
    assert N50Run(bins) == N50Step(st, c, SumLengthSums(bins));
    var r := N50Step(st, c, SumLengthSums(bins));
    if r.Ok? {
      var i := r.value.n50Index;
      assert r.value.records == [N50Stats(c[i], c[0], c[|c| - 1], SumLengthSums(bins), |c|, i)];
      forall x | x in c
        ensures c[0] <= x <= c[|c| - 1]
      {
        var k :| 0 <= k < |c| && c[k] == x;
      }
    }
  }

  /**
   * One bin holding the lengths 1, 2, 3 as the reducer leaves them: the
   * record reports 2 as the N50 length, 1 as the maximum and 3 as the
   * minimum, where the descending list 3, 2, 1 would give 3, 3 and 1.
   */
  lemma {:induction false} N50OfAscendingExample()
    ensures N50([(0, StatsData(3, 6, 0, [1, 2, 3]))]) == Ok([N50Stats(2, 1, 3, 6, 3, 1)])
  {
    var bins := [(0, StatsData(3, 6, 0, [1, 2, 3]))];
    var c := [1, 2, 3];
    assert bins[..|bins| - 1] == [];
    assert Concat(bins) == c;
    assert SumLengthSums(bins) == 6 && JavaHalf(6) == 3;
    assert Scan(c, 1, 3, 3) == Ok((1, 3));
    assert Scan(c, 0, 1, 3) == Ok((1, 3));
    assert Scan(c, -1, 0, 3) == Ok((1, 3));
    assert N50Run(bins) == N50Step(N50State([], -1, 0), c, 6);
    assert N50Step(N50State([], -1, 0), c, 6) == Ok(N50State([] + [N50Stats(c[1], c[0], c[2], 6, 3, 1)], 1, 3));
    assert [] + [N50Stats(c[1], c[0], c[2], 6, 3, 1)] == [N50Stats(2, 1, 3, 6, 3, 1)];
  }

  /**
   * When half the first bin's length sum is not positive, the scan for
   * the first bin stops before any contig and the lookup at index -1
   * fails, whatever the later bins hold.
   */
  lemma {:induction false} N50FirstBinFails(bins: seq<(int, StatsData)>)
    ensures |bins| > 0 && JavaHalf(bins[0].1.lengthSum) <= 0 ==> N50(bins) == Err(IndexOutOfBounds(-1))
  {
    if |bins| > 0 && JavaHalf(bins[0].1.lengthSum) <= 0 {
      var first := bins[..1];
      assert first[..0] == [];
      assert Concat(first) == bins[0].1.lengths;
      assert SumLengthSums(first) == bins[0].1.lengthSum;
      assert N50Run(first) == Err(IndexOutOfBounds(-1));
      N50RunErrSticks(bins, 1);
    }
  }

  /**
   * A step cannot fail when the collected lengths add up to a non-negative
   * `total` and, before the first contig, the carried sum is short of half
   * of it.
   */
  lemma {:induction false} N50StepSucceeds(st: N50State, c: seq<int>, total: int)
    requires -1 <= st.n50Index < |c|
    requires st.n50Sum == Sum(c[..st.n50Index + 1])
    requires Sum(c) == total && total >= 0
    requires st.n50Index >= 0 || st.n50Sum < JavaHalf(total)
    ensures N50Step(st, c, total).Ok?
  {
    N50StepFails(st, c, total);
  }

  /**
   * On well-formed bins whose first length sum is at least 2, the scan
   * never runs off the end and never stops before the first contig, so
   * `computeN50Stats` succeeds.
   */
  lemma {:induction false} N50WellFormedSucceeds(bins: seq<(int, StatsData)>)
    ensures WellFormed(bins) && (|bins| > 0 ==> bins[0].1.lengthSum >= 2) ==> N50Run(bins).Ok?
    decreases |bins|
  {
    if bins != [] && WellFormed(bins) && bins[0].1.lengthSum >= 2 {
      var p := bins[..|bins| - 1];
      assert WellFormed(p) by {
        forall k | 0 <= k < |p| ensures p[k] == bins[k] { }
      }
      assert |p| > 0 ==> p[0] == bins[0];
      N50WellFormedSucceeds(p);
      N50WellFormedStep(bins);
    }
  }

  /** The inductive step: a well-formed bin read after a successful run does not fail. */
  lemma {:induction false} N50WellFormedStep(bins: seq<(int, StatsData)>)
    requires bins != [] && WellFormed(bins) && bins[0].1.lengthSum >= 2
    requires N50Run(bins[..|bins| - 1]).Ok?
    ensures N50Run(bins).Ok?
  {
    var p := bins[..|bins| - 1];
    var st := N50Run(p).value;
    var c := Concat(bins);
    var total := SumLengthSums(bins);
    N50RunSum(p);
    WellFormedTotals(bins);
    ConcatPrefix(bins, st.n50Index + 1);
    if p == [] {
      assert bins[..1] == bins;
      assert total == bins[0].1.lengthSum;
    } else {
      N50RunIndex(p);
    }
    N50StepSucceeds(st, c, total);
  }

  /** After at least one bin, a successful run has stopped at a real contig. */
  lemma {:induction false} N50RunIndex(bins: seq<(int, StatsData)>)
    requires bins != [] && N50Run(bins).Ok?
    ensures N50Run(bins).value.n50Index >= 0
  {
    var p := bins[..|bins| - 1];
    assert N50Run(bins) == N50Step(N50Run(p).value, Concat(bins), SumLengthSums(bins));
  }

  /** `computeN50Stats`' success case as a plain consequence on the returned records. */
  lemma {:induction false} N50WellFormedOk(bins: seq<(int, StatsData)>)
    ensures WellFormed(bins) && (|bins| > 0 ==> bins[0].1.lengthSum >= 2) ==> N50(bins).Ok?
  {
    N50WellFormedSucceeds(bins);
  }

  /**
   * The inner loop of `computeN50Stats`: starting after index `start`,
   * where the running sum is `startSum`, step forward until the running sum
   * reaches `half`.
   */
  method ScanToHalf(c: seq<int>, start: int, startSum: int, half: int)
    returns (r: Result<(int, int), IndexError>)
    requires -1 <= start < |c|
    ensures r == Scan(c, start, startSum, half)
  {
    var contigIndex := start;
    var contigSum := startSum;
    while contigSum < half
      invariant start <= contigIndex < |c|
      invariant Scan(c, contigIndex, contigSum, half) == Scan(c, start, startSum, half)
      decreases |c| - contigIndex
    {
      contigIndex := contigIndex + 1;
      if contigIndex >= |c| {
        return Err(IndexOutOfBounds(contigIndex));
      }
      contigSum := contigSum + c[contigIndex];
    }
    r := Ok((contigIndex, contigSum));
  }

  /**
   * `computeN50Stats` over the bins in the order they are read. The
   * descending-order check never fires (`lastBin` is never set), so bins in
   * any order are accepted.
   */
  method ComputeN50Stats(bins: seq<(int, StatsData)>) returns (r: Result<seq<N50Stats>, IndexError>)
    ensures r == N50(bins)
  {
    var outputs: seq<N50Stats> := [];
    var binLengthsSum := 0;
    var contigLengths: seq<int> := [];
    var contigIndex := -1;
    var contigSum := 0;
    for k := 0 to |bins|
      invariant contigLengths == Concat(bins[..k])
      invariant binLengthsSum == SumLengthSums(bins[..k])
      invariant N50Run(bins[..k]) == Ok(N50State(outputs, contigIndex, contigSum))
    {
      var binData := bins[k].1;
      ConcatStep(bins, k);
      assert bins[..k + 1][..k] == bins[..k];
      contigLengths := contigLengths + binData.lengths;
      binLengthsSum := binLengthsSum + binData.lengthSum;
      var half := JavaHalf(binLengthsSum);
      assert N50Run(bins[..k + 1]) ==
             N50Step(N50State(outputs, contigIndex, contigSum), contigLengths, binLengthsSum);
      var scan := ScanToHalf(contigLengths, contigIndex, contigSum, half);
      if scan.Err? {
        N50RunErrSticks(bins, k + 1);
        return Err(scan.error);
      }
      contigIndex, contigSum := scan.value.0, scan.value.1;
      if contigIndex < 0 {
        N50RunErrSticks(bins, k + 1);
        return Err(IndexOutOfBounds(contigIndex));
      }
      var stats := N50Stats(contigLengths[contigIndex], contigLengths[0],
                            contigLengths[|contigLengths| - 1], binLengthsSum,
                            |contigLengths|, contigIndex);
      outputs := outputs + [stats];
    }
    assert bins[..|bins|] == bins;
    r := Ok(outputs);
  }
}
