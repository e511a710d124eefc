/** Splitting blob files into sorted runs by first fit. */
module SortedRuns {
  import opened Coding
  import opened KeyOrder

  datatype KeyRange = KeyRange(number: nat, smallest: Bytes, largest: Bytes)

  predicate Spans(files: seq<KeyRange>) { forall i :: 0 <= i < |files| ==> AtMost(files[i].smallest, files[i].largest) }

  predicate BySmallest(files: seq<KeyRange>) {
    forall i, j :: 0 <= i < j < |files| ==> AtMost(files[i].smallest, files[j].smallest)
  }

  predicate Contains(f: KeyRange, k: Bytes) { AtMost(f.smallest, k) && AtMost(k, f.largest) }

  /** The files, by position, whose range holds a key. */
  function Sharing(files: seq<KeyRange>, k: Bytes): set<nat> {
    set i: nat | i < |files| && Contains(files[i], k)
  }

  /** A run lists positions of files whose key ranges follow one another without touching. */
  predicate IsRun(files: seq<KeyRange>, run: seq<nat>) {
    && run != [] && (forall p :: 0 <= p < |run| ==> run[p] < |files|)
    && forall p, q :: 0 <= p < q < |run| ==> Before(files[run[p]].largest, files[run[q]].smallest)
  }

  predicate Holds(runs: seq<seq<nat>>, i: nat) { exists r :: 0 <= r < |runs| && i in runs[r] }

  predicate Apart(runs: seq<seq<nat>>) {
    && (forall r, s :: 0 <= r < s < |runs| ==> forall i :: i in runs[r] ==> i !in runs[s])
    && (forall r, p, q :: 0 <= r < |runs| && 0 <= p < q < |runs[r]| ==> runs[r][p] != runs[r][q])
  }

  /** Every file up to n lies in exactly one run, and every run is sorted. */
  ghost predicate Partitions(files: seq<KeyRange>, runs: seq<seq<nat>>, n: nat) {
    && n <= |files| && Apart(runs)
    && (forall i: nat :: Holds(runs, i) <==> i < n)
    && (forall r :: 0 <= r < |runs| ==> IsRun(files, runs[r]))
  }

  // ---------------------------------------------------------------- a lower bound for every partition

  /** Files that share a key all lie in different runs. */
  lemma OnePerRun(files: seq<KeyRange>, run: seq<nat>, k: Bytes, i: nat, j: nat)
    requires IsRun(files, run) && i in run && j in run
    requires i in Sharing(files, k) && j in Sharing(files, k)
    ensures i == j
  {
    TotalOrder();
    hide Before;
    var p :| 0 <= p < |run| && run[p] == i;
    var q :| 0 <= q < |run| && run[q] == j;
  }

  /** So a set of files sharing a key is no larger than the number of runs that hold it. */
  lemma {:induction false} Pigeonhole(files: seq<KeyRange>, runs: seq<seq<nat>>, k: Bytes, c: set<nat>)
    requires forall r :: 0 <= r < |runs| ==> IsRun(files, runs[r])
    requires c <= Sharing(files, k) && forall i :: i in c ==> Holds(runs, i)
    ensures |c| <= |runs|
    decreases |runs|
  {
    hide IsRun, Sharing;
    if runs == [] {
      assert forall i :: i in c ==> Holds(runs, i);
    } else {
      var last, rest := runs[|runs| - 1], runs[..|runs| - 1];
      var d := set i | i in c && i !in last;
      forall i | i in d ensures Holds(rest, i) {
        var r :| 0 <= r < |runs| && i in runs[r];
        assert i in rest[r];
      }
      Pigeonhole(files, rest, k, d);
      if i :| i in c && i in last {
        forall j | j in c && j in last ensures j == i { OnePerRun(files, last, k, i, j); }
        assert c == d + {i};
      } else {
        assert c == d;
      }
    }
  }

  lemma AnyPartitionBound(files: seq<KeyRange>, runs: seq<seq<nat>>, k: Bytes)
    requires Partitions(files, runs, |files|)
    ensures |Sharing(files, k)| <= |runs|
  {
    hide IsRun;
    Pigeonhole(files, runs, k, Sharing(files, k));
  }

  // ---------------------------------------------------------------- first fit

  /** Positions that share a key, as many as there are runs. */
  predicate Witness(files: seq<KeyRange>, clique: seq<nat>, k: Bytes) {
    && (forall p :: 0 <= p < |clique| ==> clique[p] in Sharing(files, k))
    && forall p, q :: 0 <= p < q < |clique| ==> clique[p] != clique[q]
  }

  lemma {:induction false} WitnessCounts(files: seq<KeyRange>, clique: seq<nat>, k: Bytes)
    requires Witness(files, clique, k)
    ensures |clique| <= |Sharing(files, k)|
  {
    DistinctCount(clique, Sharing(files, k));
  }

  lemma {:induction false} DistinctCount(s: seq<nat>, c: set<nat>)
    requires forall p :: 0 <= p < |s| ==> s[p] in c
    requires forall p, q :: 0 <= p < q < |s| ==> s[p] != s[q]
    ensures |s| <= |c|
    decreases |s|
  {
    if s != [] {
      DistinctCount(s[1..], c - {s[0]});
    }
  }

  function Back(run: seq<nat>): nat
    requires run != []
  {
    run[|run| - 1]
  }

  /** When no run can take a file, it and the last file of every run hold the file's smallest key. */
  lemma OpeningWitness(files: seq<KeyRange>, runs: seq<seq<nat>>, i: nat)
    requires Spans(files) && BySmallest(files) && i < |files| && Partitions(files, runs, i)
    requires forall r :: 0 <= r < |runs| ==> !Before(files[Back(runs[r])].largest, files[i].smallest)
    ensures Witness(files, seq(|runs|, r requires 0 <= r < |runs| => Back(runs[r])) + [i], files[i].smallest)
  {
    TotalOrder();
    hide Before;
    assert forall r :: 0 <= r < |runs| ==> IsRun(files, runs[r]);
    var backs := seq(|runs|, r requires 0 <= r < |runs| => Back(runs[r]));
    forall r | 0 <= r < |runs|
      ensures backs[r] in runs[r] && backs[r] < i && backs[r] in Sharing(files, files[i].smallest)
    {
      assert Holds(runs, backs[r]);
    }
    assert i in Sharing(files, files[i].smallest);
  }

  lemma JoinRun(files: seq<KeyRange>, runs: seq<seq<nat>>, i: nat, r: nat)
    requires Spans(files) && i < |files| && Partitions(files, runs, i) && r < |runs|
    requires Before(files[Back(runs[r])].largest, files[i].smallest)
    ensures Partitions(files, runs[r := runs[r] + [i]], i + 1)
  {
    JoinIsRun(files, runs[r], i);
    hide Before, IsRun;
    var next := runs[r := runs[r] + [i]];
    assert !Holds(runs, i);
    forall j: nat ensures Holds(next, j) <==> Holds(runs, j) || j == i {
      if Holds(runs, j) {
        var s :| 0 <= s < |runs| && j in runs[s];
        assert j in next[s];
      }
      assert i in next[r];
      if Holds(next, j) && j != i {
        var s :| 0 <= s < |next| && j in next[s];
        assert j in runs[s];
      }
    }
    forall s | 0 <= s < |runs| ensures i !in runs[s] { assert !Holds(runs, i); }
  }

  lemma JoinIsRun(files: seq<KeyRange>, run: seq<nat>, i: nat)
    requires Spans(files) && i < |files| && IsRun(files, run) && Before(files[Back(run)].largest, files[i].smallest)
    ensures IsRun(files, run + [i])
  {
    TotalOrder();
    hide Before;
    forall p | 0 <= p < |run| ensures Before(files[run[p]].largest, files[i].smallest) {
      if p < |run| - 1 {
        assert Before(files[run[p]].largest, files[Back(run)].smallest);
        assert AtMost(files[Back(run)].smallest, files[Back(run)].largest);
      }
    }
  }

  lemma OpenRun(files: seq<KeyRange>, runs: seq<seq<nat>>, i: nat)
    requires i < |files| && Partitions(files, runs, i)
    ensures Partitions(files, runs + [[i]], i + 1)
  {
    hide Before;
    var next := runs + [[i]];
    assert next[|runs|] == [i] && forall s :: 0 <= s < |runs| ==> next[s] == runs[s];
    forall j: nat ensures Holds(next, j) <==> Holds(runs, j) || j == i {
      if Holds(runs, j) {
        var s :| 0 <= s < |runs| && j in runs[s];
        assert j in next[s];
      }
      assert i in next[|runs|];
    }
    forall s | 0 <= s < |runs| ensures i !in runs[s] { assert !Holds(runs, i); }
  }

  /** Insertion of one file into a sequence ordered by smallest key. */
  method Insert(files: seq<KeyRange>, f: KeyRange) returns (r: seq<KeyRange>)
    requires BySmallest(files)
    ensures BySmallest(r) && multiset(r) == multiset(files) + multiset{f}
  {
    hide Before;
    var k := |files|;
    while 0 < k && Before(f.smallest, files[k - 1].smallest)
      invariant 0 <= k <= |files|
      invariant forall j :: k <= j < |files| ==> Before(f.smallest, files[j].smallest)
    {
      k := k - 1;
    }
    r := files[..k] + [f] + files[k..];
    InsertOrdered(files, f, k);
    assert files == files[..k] + files[k..];
  }

  lemma InsertOrdered(files: seq<KeyRange>, f: KeyRange, k: nat)
    requires BySmallest(files) && k <= |files| && (k > 0 ==> AtMost(files[k - 1].smallest, f.smallest))
    requires forall j :: k <= j < |files| ==> Before(f.smallest, files[j].smallest)
    ensures BySmallest(files[..k] + [f] + files[k..])
  {
    TotalOrder();
    hide Before;
    forall j | 0 <= j < k ensures AtMost(files[j].smallest, f.smallest) {
      assert j < k - 1 ==> AtMost(files[j].smallest, files[k - 1].smallest);
    }
  }

  method Sort(files: seq<KeyRange>) returns (r: seq<KeyRange>)
    ensures BySmallest(r) && multiset(r) == multiset(files)
  {
    r := [];
    for i := 0 to |files|
      invariant BySmallest(r) && multiset(r) == multiset(files[..i])
    {
      hide BySmallest;
      assert files[..i + 1] == files[..i] + [files[i]];
      r := Insert(r, files[i]);
    }
    assert files[..|files|] == files;
  }

  /**
   * The runs partition the files; as many files as there are runs share one key, so no key is shared by more
   * and no other partition into sorted runs is smaller.
   */
  method CountSortedRun(files: seq<KeyRange>) returns (sorted: seq<KeyRange>, runs: seq<seq<nat>>, sizes: seq<nat>)
    requires Spans(files)
    ensures BySmallest(sorted) && multiset(sorted) == multiset(files)
    ensures Partitions(sorted, runs, |sorted|)
    ensures |sizes| == |runs| && forall r :: 0 <= r < |runs| ==> sizes[r] == |runs[r]|
    ensures files != [] ==> exists k :: |Sharing(sorted, k)| == |runs|
    ensures forall k :: |Sharing(sorted, k)| <= |runs|
    ensures forall other :: Partitions(sorted, other, |sorted|) ==> |runs| <= |other|
  {
    hide Partitions, Witness, Sharing, IsRun, Before;
    sorted := Sort(files);
    SortSpans(files, sorted);
    runs := [];
    ghost var key: Bytes, clique: seq<nat> := [], [];
    NoRuns(sorted);
    for i := 0 to |sorted|
      invariant Partitions(sorted, runs, i) && Witness(sorted, clique, key) && |clique| == |runs|
      invariant i > 0 ==> runs != []
    {
      var r := FirstFit(sorted, runs, i);
      if r < |runs| {
        JoinRun(sorted, runs, i, r);
        runs := runs[r := runs[r] + [i]];
      } else {
        OpeningWitness(sorted, runs, i);
        OpenRun(sorted, runs, i);
        clique, key := seq(|runs|, r requires 0 <= r < |runs| => Back(runs[r])) + [i], sorted[i].smallest;
        runs := runs + [[i]];
      }
    }
    sizes := seq(|runs|, r requires 0 <= r < |runs| => |runs[r]|);
    WitnessCounts(sorted, clique, key);
    forall k ensures |Sharing(sorted, k)| <= |runs| { AnyPartitionBound(sorted, runs, k); }
    forall other | Partitions(sorted, other, |sorted|)
      ensures |runs| <= |other|
    {
      AnyPartitionBound(sorted, other, key);
    }
    assert |Sharing(sorted, key)| == |runs|;
  }

  lemma NoRuns(files: seq<KeyRange>)
    ensures Partitions(files, [], 0) && Witness(files, [], [])
  {
  }

  lemma SortSpans(files: seq<KeyRange>, sorted: seq<KeyRange>)
    requires Spans(files) && multiset(sorted) == multiset(files)
    ensures Spans(sorted)
  {
    hide Before;
    forall i | 0 <= i < |sorted| ensures AtMost(sorted[i].smallest, sorted[i].largest) {
      assert sorted[i] in multiset(files);
    }
  }

  /** The first run whose last file ends before the new one begins, or one past the last run. */
  method FirstFit(files: seq<KeyRange>, runs: seq<seq<nat>>, i: nat) returns (r: nat)
    requires i < |files| && Partitions(files, runs, i)
    ensures forall s :: 0 <= s < |runs| ==> runs[s] != [] && Back(runs[s]) < |files|
    ensures r <= |runs| && forall s :: 0 <= s < r ==> !Before(files[Back(runs[s])].largest, files[i].smallest)
    ensures r < |runs| ==> Before(files[Back(runs[r])].largest, files[i].smallest)
  {
    assert forall s :: 0 <= s < |runs| ==> IsRun(files, runs[s]);
    r := 0;
    while r < |runs|
      invariant r <= |runs|
      invariant forall s :: 0 <= s < r ==> !Before(files[Back(runs[s])].largest, files[i].smallest)
    {
      if Before(files[Back(runs[r])].largest, files[i].smallest) { return; }
      r := r + 1;
    }
  }
}
