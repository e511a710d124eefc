/** Merging several blob files in key order through a heap of iterators. */
module BlobFileMerge {
  import opened Coding
  import opened KeyOrder
  import opened BlobFormat

  /** The records of an output that came from input i, in output order. */
  function From(out: seq<Record>, from: seq<nat>, i: nat): seq<Record>
    requires |out| == |from|
    decreases |out|
  {
    if out == [] then []
    else
      var k := |out| - 1;
      From(out[..k], from[..k], i) + if from[k] == i then [out[k]] else []
  }

  /** How far each input has been read. */
  predicate Positions(inputs: seq<seq<Record>>, at: seq<nat>) {
    |at| == |inputs| && forall i :: 0 <= i < |inputs| ==> at[i] <= |inputs[i]|
  }

  predicate Pending(inputs: seq<seq<Record>>, at: seq<nat>, i: nat)
    requires Positions(inputs, at)
  {
    i < |inputs| && at[i] < |inputs[i]|
  }

  function KeyAt(inputs: seq<seq<Record>>, at: seq<nat>, i: nat): Bytes
    requires Positions(inputs, at) && Pending(inputs, at, i)
  {
    inputs[i][at[i]].key
  }

  /** Takes an iterator with a smallest current key off the heap. */
  method PopMin(inputs: seq<seq<Record>>, at: seq<nat>, heap: set<nat>) returns (top: nat)
    requires Positions(inputs, at) && heap != {} && forall i :: i in heap ==> Pending(inputs, at, i)
    ensures top in heap && forall i :: i in heap ==> AtMost(KeyAt(inputs, at, top), KeyAt(inputs, at, i))
  {
    TotalOrder();
    hide Before;
    top :| top in heap;
    var todo := heap - {top};
    while todo != {}
      invariant todo <= heap && top in heap
      invariant forall i :: i in heap && i !in todo ==> AtMost(KeyAt(inputs, at, top), KeyAt(inputs, at, i))
    {
      var i :| i in todo;
      if Before(KeyAt(inputs, at, i), KeyAt(inputs, at, top)) { top := i; }
      todo := todo - {i};
    }
  }

  /**
   * The output so far takes a prefix of every input, in order, and nothing waiting is smaller than what was given out.
   */
  ghost predicate Merged(inputs: seq<seq<Record>>, at: seq<nat>, out: seq<Record>, from: seq<nat>) {
    && Positions(inputs, at) && |out| == |from|
    && (forall i: nat :: i < |inputs| ==> From(out, from, i) == inputs[i][..at[i]])
    && ((forall i :: 0 <= i < |inputs| ==> ByKey(inputs[i])) ==>
          && ByKey(out)
          && forall p: nat, i: nat :: p < |out| && Pending(inputs, at, i) ==> AtMost(out[p].key, KeyAt(inputs, at, i)))
  }

  lemma MergeStep(inputs: seq<seq<Record>>, at: seq<nat>, out: seq<Record>, from: seq<nat>, top: nat)
    requires Merged(inputs, at, out, from) && Pending(inputs, at, top)
    requires forall i :: Pending(inputs, at, i) ==> AtMost(KeyAt(inputs, at, top), KeyAt(inputs, at, i))
    ensures Merged(inputs, at[top := at[top] + 1], out + [inputs[top][at[top]]], from + [top])
  {
    TotalOrder();
    hide Before;
    var next, r := at[top := at[top] + 1], inputs[top][at[top]];
    var o, f := out + [r], from + [top];
    assert o[..|out|] == out && f[..|from|] == from;
    forall i: nat | i < |inputs| ensures From(o, f, i) == inputs[i][..next[i]] {
      assert i == top ==> inputs[i][..next[i]] == inputs[i][..at[i]] + [r];
    }
    if forall i :: 0 <= i < |inputs| ==> ByKey(inputs[i]) {
      forall p: nat, i: nat | p < |o| && Pending(inputs, next, i) ensures AtMost(o[p].key, KeyAt(inputs, next, i)) {
        assert i == top ==> AtMost(r.key, KeyAt(inputs, next, i)) by { assert ByKey(inputs[top]); }
        assert i != top ==> Pending(inputs, at, i);
        assert AtMost(r.key, KeyAt(inputs, next, i));
        assert p < |out| ==> AtMost(out[p].key, KeyAt(inputs, at, top));
      }
      forall p, q | 0 <= p < q < |o| ensures AtMost(o[p].key, o[q].key) {
        assert q == |out| ==> AtMost(out[p].key, KeyAt(inputs, at, top));
      }
    }
  }

  /** Every record of every input exactly once, inputs kept in order, and sorted if each input is. */
  method Merge(inputs: seq<seq<Record>>) returns (out: seq<Record>, from: seq<nat>)
    ensures |out| == |from| && forall i: nat :: i < |inputs| ==> From(out, from, i) == inputs[i]
    ensures forall p :: 0 <= p < |from| ==> from[p] < |inputs|
    ensures (forall i :: 0 <= i < |inputs| ==> ByKey(inputs[i])) ==> ByKey(out)
  {
    hide Merged, ByKey;
    out, from := [], [];
    var at: seq<nat> := seq(|inputs|, i => 0);
    var heap: set<nat> := set i: nat | i < |inputs| && 0 < |inputs[i]|;
    MergeStart(inputs, at);
    while heap != {}
      invariant Positions(inputs, at) && Merged(inputs, at, out, from)
      invariant forall i: nat :: i in heap <==> Pending(inputs, at, i)
      invariant forall p :: 0 <= p < |from| ==> from[p] < |inputs|
      decreases Left(inputs, at)
    {
      var top := PopMin(inputs, at, heap);
      MergeStep(inputs, at, out, from, top);
      LeftDrops(inputs, at, top);
      out, from := out + [inputs[top][at[top]]], from + [top];
      at := at[top := at[top] + 1];
      heap := if at[top] < |inputs[top]| then heap else heap - {top};
    }
    MergeDone(inputs, at, out, from);
  }

  lemma MergeStart(inputs: seq<seq<Record>>, at: seq<nat>)
    requires |at| == |inputs| && forall i :: 0 <= i < |at| ==> at[i] == 0
    ensures Merged(inputs, at, [], [])
  {
  }

  lemma MergeDone(inputs: seq<seq<Record>>, at: seq<nat>, out: seq<Record>, from: seq<nat>)
    requires Positions(inputs, at) && Merged(inputs, at, out, from) && forall i: nat :: !Pending(inputs, at, i)
    ensures |out| == |from| && forall i: nat :: i < |inputs| ==> From(out, from, i) == inputs[i]
    ensures (forall i :: 0 <= i < |inputs| ==> ByKey(inputs[i])) ==> ByKey(out)
  {
    forall i: nat | i < |inputs| ensures inputs[i][..at[i]] == inputs[i] { assert !Pending(inputs, at, i); }
  }

  /** Records not yet given out. */
  ghost function Left(inputs: seq<seq<Record>>, at: seq<nat>): nat
    requires Positions(inputs, at)
  {
    LeftUpTo(inputs, at, |inputs|)
  }

  ghost function LeftUpTo(inputs: seq<seq<Record>>, at: seq<nat>, n: nat): nat
    requires Positions(inputs, at) && n <= |inputs|
  {
    if n == 0 then 0 else LeftUpTo(inputs, at, n - 1) + |inputs[n - 1]| - at[n - 1]
  }

  lemma LeftDrops(inputs: seq<seq<Record>>, at: seq<nat>, top: nat)
    requires Positions(inputs, at) && Pending(inputs, at, top)
    ensures Left(inputs, at[top := at[top] + 1]) < Left(inputs, at)
  {
    LeftDropsUpTo(inputs, at, top, |inputs|);
  }

  lemma {:induction false} LeftDropsUpTo(inputs: seq<seq<Record>>, at: seq<nat>, top: nat, n: nat)
    requires Positions(inputs, at) && Pending(inputs, at, top) && n <= |inputs|
    ensures LeftUpTo(inputs, at[top := at[top] + 1], n) == LeftUpTo(inputs, at, n) - if top < n then 1 else 0
  {
    if n > 0 { LeftDropsUpTo(inputs, at, top, n - 1); }
  }
}
