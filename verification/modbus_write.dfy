/**
 `write_parameters` of the shared Modbus transport: the parameters are sorted
 by address, grouped into runs of consecutive addresses, and each run is
 written with one request, in ascending order.

 The parameter dictionary is a sequence of `(address, value)` pairs with
 distinct addresses (its items in insertion order). The write of one run is
 an oracle `write(start, values)` that says whether
 `_write_holding_registers` returned (`true`) or raised (`false`).
 */
module ModbusWrite {
  import opened Wrappers

  type Pair = (int, int)

  /** No address occurs twice, as in a dictionary. */
  predicate DistinctKeys(ps: seq<Pair>) {
    forall i, j :: 0 <= i < j < |ps| ==> ps[i].0 != ps[j].0
  }

  /** Addresses strictly ascending. */
  predicate StrictlySorted(ps: seq<Pair>) {
    forall i, j :: 0 <= i < j < |ps| ==> ps[i].0 < ps[j].0
  }

  /** `x` in front of an ascending sequence whose addresses all exceed its own
      keeps it ascending. */
  lemma SortedCons(x: Pair, t: seq<Pair>)
    requires StrictlySorted(t)
    requires forall q :: q in t ==> x.0 < q.0
    ensures StrictlySorted([x] + t)
  {
    var r := [x] + t;
    forall i, j | 0 <= i < j < |r| ensures r[i].0 < r[j].0 {
      assert r[j] == t[j - 1];
      if i > 0 {
        assert r[i] == t[i - 1];
      }
    }
  }

  /** `p` inserted into an ascending sequence at its place. */
  function Insert(p: Pair, s: seq<Pair>): (r: seq<Pair>)
    requires StrictlySorted(s)
    requires forall q :: q in s ==> q.0 != p.0
    ensures StrictlySorted(r)
    ensures forall q :: q in r <==> q in s || q == p
    ensures multiset(r) == multiset(s) + multiset{p}
    decreases |s|
  {
    if s == [] then [p]
    else if p.0 < s[0].0 then
      SortedCons(p, s);
      [p] + s
    else
      var tail := Insert(p, s[1..]);
      assert s == [s[0]] + s[1..];
      SortedCons(s[0], tail);
      [s[0]] + tail
  }

  /** `sorted(parameters.items())`: the same pairs in ascending address order
      (addresses are distinct, so values are never compared). */
  function SortByAddress(ps: seq<Pair>): (r: seq<Pair>)
    requires DistinctKeys(ps)
    ensures StrictlySorted(r)
    ensures forall q :: q in r <==> q in ps
    ensures multiset(r) == multiset(ps)
    decreases |ps|
  {
    if ps == [] then []
    else
      DistinctTail(ps);
      assert ps == [ps[0]] + ps[1..];
      Insert(ps[0], SortByAddress(ps[1..]))
  }

  /** Dropping the first pair keeps the addresses distinct, and none of the
      rest has the first pair's address. */
  lemma DistinctTail(ps: seq<Pair>)
    requires DistinctKeys(ps) && ps != []
    ensures DistinctKeys(ps[1..])
    ensures forall q :: q in ps[1..] ==> q.0 != ps[0].0
  {
    forall q | q in ps[1..] ensures q.0 != ps[0].0 {
      var j :| 0 <= j < |ps[1..]| && ps[1..][j] == q;
      assert ps[j + 1] == q;
    }
  }

  /** One multi-register write: `values[i]` goes to register `start + i`. */
  datatype WriteRun = WriteRun(start: int, values: seq<int>)

  /** The register just past the run. */
  function End(g: WriteRun): int {
    g.start + |g.values|
  }

  /** The `(address, value)` pairs one run writes. */
  function RunPairs(g: WriteRun): (ps: seq<Pair>)
    ensures |ps| == |g.values|
    ensures forall i :: 0 <= i < |ps| ==> ps[i] == (g.start + i, g.values[i])
  {
    seq(|g.values|, i requires 0 <= i < |g.values| => (g.start + i, g.values[i]))
  }

  /** Every pair the runs write, run after run. */
  function Flatten(runs: seq<WriteRun>): seq<Pair> {
    if runs == [] then [] else RunPairs(runs[0]) + Flatten(runs[1..])
  }

  lemma {:induction false} FlattenAppend(runs: seq<WriteRun>, g: WriteRun)
    ensures Flatten(runs + [g]) == Flatten(runs) + RunPairs(g)
  {
    if runs != [] {
      assert (runs + [g])[1..] == runs[1..] + [g];
      FlattenAppend(runs[1..], g);
    } else {
      assert Flatten([g]) == RunPairs(g) + Flatten([]);
    }
  }

  /** Runs as the grouping loop makes them: none empty, and each starting past
      the end of the one before, so no two could have been merged. */
  predicate MaximalRuns(runs: seq<WriteRun>) {
    && (forall i :: 0 <= i < |runs| ==> |runs[i].values| > 0)
    && (forall i :: 0 < i < |runs| ==> runs[i].start > End(runs[i - 1]))
  }

  /** Runs write something exactly when there is at least one run. */
  lemma FlattenEmpty(runs: seq<WriteRun>)
    requires MaximalRuns(runs)
    ensures Flatten(runs) == [] <==> runs == []
  {
    if runs != [] {
      assert |RunPairs(runs[0])| > 0;
    }
  }

  /** Right after the first run, the pairs either stop or jump past its end. */
  lemma FlattenPastFirst(runs: seq<WriteRun>)
    requires MaximalRuns(runs) && runs != []
    ensures var f, l := Flatten(runs), |runs[0].values|;
      |f| >= l && (|f| == l || f[l].0 > End(runs[0]))
  {
    var rest := runs[1..];
    assert Flatten(runs) == RunPairs(runs[0]) + Flatten(rest);
    if rest != [] {
      assert Flatten(rest) == RunPairs(rest[0]) + Flatten(rest[1..]);
      assert Flatten(rest)[0] == (rest[0].start, rest[0].values[0]);
    }
  }

  /**
   The partition into maximal runs is unique: two families of maximal runs
   that write the same pairs in the same order are the same family.
   */
  lemma {:induction false} MaximalRunsUnique(a: seq<WriteRun>, b: seq<WriteRun>)
    requires MaximalRuns(a) && MaximalRuns(b)
    requires Flatten(a) == Flatten(b)
    ensures a == b
    decreases |a|
  {
    FlattenEmpty(a);
    FlattenEmpty(b);
    if a != [] {
      var fa, fb := Flatten(a), Flatten(b);
      var la, lb := |a[0].values|, |b[0].values|;
      assert fa == RunPairs(a[0]) + Flatten(a[1..]);
      assert fb == RunPairs(b[0]) + Flatten(b[1..]);
      FlattenPastFirst(a);
      FlattenPastFirst(b);
      assert forall i :: 0 <= i < la ==> fa[i] == (a[0].start + i, a[0].values[i]);
      assert forall i :: 0 <= i < lb ==> fb[i] == (b[0].start + i, b[0].values[i]);
      assert b != [];
      assert fa[0] == fb[0];
      assert a[0].start == b[0].start;
      assert la == lb;
      assert a[0].values == b[0].values;
      assert Flatten(a[1..]) == fa[la..] == fb[lb..] == Flatten(b[1..]);
      MaximalRunsUnique(a[1..], b[1..]);
      assert a == [a[0]] + a[1..] && b == [b[0]] + b[1..];
    }
  }

  /** Closing a run that starts past the end of the last one keeps the runs maximal. */
  lemma CloseRun(groups: seq<WriteRun>, g: WriteRun)
    requires MaximalRuns(groups) && |g.values| > 0
    requires groups != [] ==> g.start > End(groups[|groups| - 1])
    ensures MaximalRuns(groups + [g])
  {
    var r := groups + [g];
    forall i | 0 <= i < |r| ensures |r[i].values| > 0 {
      if i < |groups| {
        assert r[i] == groups[i];
      }
    }
    forall i | 0 < i < |r| ensures r[i].start > End(r[i - 1]) {
      assert r[i - 1] == groups[i - 1];
      if i < |groups| {
        assert r[i] == groups[i];
      }
    }
  }

  /** Extending a run by one value writes one more pair, at its end. */
  lemma RunPairsSnoc(start: int, vs: seq<int>, v: int)
    ensures RunPairs(WriteRun(start, vs + [v])) == RunPairs(WriteRun(start, vs)) + [(start + |vs|, v)]
  {
  }

  /**
   The state of the grouping loop after the first `i` pairs: closed runs
   `groups` and the open run `(start, values)` together write `sorted[..i]`,
   the open run ends at the last pair seen and starts past the closed ones.
   */
  ghost predicate GroupingState(sorted: seq<Pair>, i: int, groups: seq<WriteRun>, start: int, values: seq<int>) {
    && 0 < i <= |sorted|
    && MaximalRuns(groups)
    && |values| > 0
    && Flatten(groups) + RunPairs(WriteRun(start, values)) == sorted[..i]
    && start + |values| - 1 == sorted[i - 1].0
    && (groups != [] ==> start > End(groups[|groups| - 1]))
  }

  lemma GroupingFirst(sorted: seq<Pair>)
    requires |sorted| > 0
    ensures GroupingState(sorted, 1, [], sorted[0].0, [sorted[0].1])
  {
    assert RunPairs(WriteRun(sorted[0].0, [sorted[0].1])) == [sorted[0]];
    assert sorted[..1] == [sorted[0]];
  }

  lemma GroupingExtend(sorted: seq<Pair>, i: int, groups: seq<WriteRun>, start: int, values: seq<int>)
    requires GroupingState(sorted, i, groups, start, values) && i < |sorted|
    requires sorted[i].0 == start + |values|
    ensures GroupingState(sorted, i + 1, groups, start, values + [sorted[i].1])
  {
    RunPairsSnoc(start, values, sorted[i].1);
    assert sorted[..i + 1] == sorted[..i] + [sorted[i]];
  }

  lemma GroupingBreak(sorted: seq<Pair>, i: int, groups: seq<WriteRun>, start: int, values: seq<int>)
    requires StrictlySorted(sorted)
    requires GroupingState(sorted, i, groups, start, values) && i < |sorted|
    requires sorted[i].0 != start + |values|
    ensures GroupingState(sorted, i + 1, groups + [WriteRun(start, values)], sorted[i].0, [sorted[i].1])
  {
    var g := WriteRun(start, values);
    CloseRun(groups, g);
    FlattenAppend(groups, g);
    assert sorted[i - 1].0 < sorted[i].0;
    assert RunPairs(WriteRun(sorted[i].0, [sorted[i].1])) == [sorted[i]];
    assert sorted[..i + 1] == sorted[..i] + [sorted[i]];
  }

  lemma GroupingLast(sorted: seq<Pair>, groups: seq<WriteRun>, start: int, values: seq<int>)
    requires GroupingState(sorted, |sorted|, groups, start, values)
    ensures Flatten(groups + [WriteRun(start, values)]) == sorted
    ensures MaximalRuns(groups + [WriteRun(start, values)])
  {
    CloseRun(groups, WriteRun(start, values));
    FlattenAppend(groups, WriteRun(start, values));
    assert sorted[..|sorted|] == sorted;
  }

  /**
   The grouping loop of `write_parameters`: runs of consecutive addresses
   over ascending pairs, a new run starting wherever an address does not
   follow on from the current run.
   */
  method GroupRuns(sorted: seq<Pair>) returns (groups: seq<WriteRun>)
    requires StrictlySorted(sorted)
    ensures Flatten(groups) == sorted
    ensures MaximalRuns(groups)
  {
    groups := [];
    var currentStart: Option<int> := None;
    var currentValues: seq<int> := [];
    var i := 0;
    while i < |sorted|
      invariant 0 <= i <= |sorted|
      invariant currentStart.None? <==> i == 0
      invariant currentStart.None? ==> groups == []
      invariant currentStart.Some? ==> GroupingState(sorted, i, groups, currentStart.value, currentValues)
    {
      var address, value := sorted[i].0, sorted[i].1;
      if currentStart.None? {
        GroupingFirst(sorted);
        currentStart := Some(address);
        currentValues := [value];
      } else if address == currentStart.value + |currentValues| {
        GroupingExtend(sorted, i, groups, currentStart.value, currentValues);
        currentValues := currentValues + [value];
      } else {
        GroupingBreak(sorted, i, groups, currentStart.value, currentValues);
        groups := groups + [WriteRun(currentStart.value, currentValues)];
        currentStart := Some(address);
        currentValues := [value];
      }
      i := i + 1;
    }
    if currentStart.Some? && |currentValues| > 0 {
      GroupingLast(sorted, groups, currentStart.value, currentValues);
      groups := groups + [WriteRun(currentStart.value, currentValues)];
    }
  }

  /** The write loop: one write per run, in order, stopping at the first that raises. */
  method WriteRuns(groups: seq<WriteRun>, write: (int, seq<int>) -> bool)
    returns (r: Result<bool, WriteRun>, issued: seq<WriteRun>)
    ensures r.Success? ==> r.value && issued == groups && forall i :: 0 <= i < |groups| ==> write(groups[i].start, groups[i].values)
    ensures r.Failure? ==>
      && 0 < |issued| <= |groups| && issued == groups[..|issued|]
      && r.error == issued[|issued| - 1] && !write(r.error.start, r.error.values)
      && forall i :: 0 <= i < |issued| - 1 ==> write(issued[i].start, issued[i].values)
  {
    issued := [];
    var k := 0;
    while k < |groups|
      invariant 0 <= k <= |groups|
      invariant issued == groups[..k]
      invariant forall j :: 0 <= j < k ==> write(groups[j].start, groups[j].values)
    {
      issued := issued + [groups[k]];
      if !write(groups[k].start, groups[k].values) {
        return Failure(groups[k]), issued;
      }
      k := k + 1;
    }
    r := Success(true);
  }

  /**
   `write_parameters`: sort, group consecutive addresses into runs, then write
   the runs in order; the first write that raises ends the call. `groups` is
   the grouping, `issued` the writes attempted.
   */
  method WriteParameters(parameters: seq<Pair>, write: (int, seq<int>) -> bool)
    returns (r: Result<bool, WriteRun>, groups: seq<WriteRun>, issued: seq<WriteRun>)
    requires DistinctKeys(parameters)
    // the runs write exactly the sorted pairs, and are the maximal ones
    ensures Flatten(groups) == SortByAddress(parameters)
    ensures MaximalRuns(groups)
    // an empty dictionary: no write, and the call returns True
    ensures parameters == [] ==> groups == [] && issued == [] && r == Success(true)
    // writes in ascending order, stopping at the first failure
    ensures r.Success? ==> r.value && issued == groups && forall i :: 0 <= i < |groups| ==> write(groups[i].start, groups[i].values)
    ensures r.Failure? ==>
      && 0 < |issued| <= |groups| && issued == groups[..|issued|]
      && r.error == issued[|issued| - 1] && !write(r.error.start, r.error.values)
      && forall i :: 0 <= i < |issued| - 1 ==> write(issued[i].start, issued[i].values)
  {
    var sorted := SortByAddress(parameters);
    groups := GroupRuns(sorted);
    FlattenEmpty(groups);
    r, issued := WriteRuns(groups, write);
  }
}
