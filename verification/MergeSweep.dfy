/** Marking files for merge: one sweep over the ends of all key ranges. */
module MergeSweep {
  import opened Coding
  import opened KeyOrder
  import opened SortedRuns
  import opened BlobFileState

  /** One end of a file's key range. */
  datatype End = End(file: nat, smallest: bool)

  function KeyOf(files: seq<KeyRange>, e: End): Bytes
    requires e.file < |files|
  {
    if e.smallest then files[e.file].smallest else files[e.file].largest
  }

  /** The comparison the ends are sorted with; for equal keys, largest ends go before smallest ends of other files. */
  predicate EndBefore(files: seq<KeyRange>, a: End, b: End)
    requires a.file < |files| && b.file < |files|
  {
    if KeyOf(files, a) == KeyOf(files, b)
    then if a.file == b.file then a.smallest else !a.smallest && b.smallest
    else Before(KeyOf(files, a), KeyOf(files, b))
  }

  predicate IsEnd(files: seq<KeyRange>, e: End) { e.file < |files| }

  // ---------------------------------------------------------------- when the comparison is an order

  /** Asymmetric and transitive, with transitive incomparability, among distinct ends. */
  ghost predicate OrdersEnds(files: seq<KeyRange>) {
    && (forall a, b :: IsEnd(files, a) && IsEnd(files, b) && a != b && EndBefore(files, a, b) ==>
         !EndBefore(files, b, a))
    && (forall a, b, c :: IsEnd(files, a) && IsEnd(files, b) && IsEnd(files, c) && a != b && b != c && a != c ==>
          && (EndBefore(files, a, b) && EndBefore(files, b, c) ==> EndBefore(files, a, c))
          && (!EndBefore(files, a, b) && !EndBefore(files, b, c) ==> !EndBefore(files, a, c)))
  }

  /** No file that holds a single key shares that key with an end of another file. */
  predicate SinglesIsolated(files: seq<KeyRange>) {
    forall f, g :: 0 <= f < |files| && 0 <= g < |files| && f != g && files[f].smallest == files[f].largest ==>
      files[g].smallest != files[f].smallest && files[g].largest != files[f].smallest
  }

  lemma OrderExact(files: seq<KeyRange>)
    requires Spans(files)
    ensures OrdersEnds(files) <==> SinglesIsolated(files)
  {
    hide Before;
    if OrdersEnds(files) {
      forall f, g | 0 <= f < |files| && 0 <= g < |files| && f != g && files[f].smallest == files[f].largest
        ensures files[g].smallest != files[f].smallest && files[g].largest != files[f].smallest
      {
        var s, l := End(f, true), End(f, false);
        assert IsEnd(files, s) && IsEnd(files, l) && IsEnd(files, End(g, true)) && IsEnd(files, End(g, false));
        assert EndBefore(files, s, l);
        assert !EndBefore(files, s, End(g, true)) || files[g].smallest != files[f].smallest;
        assert !EndBefore(files, End(g, false), l) || files[g].largest != files[f].smallest;
      }
    }
    if SinglesIsolated(files) {
      TotalOrder();
      forall a, b | IsEnd(files, a) && IsEnd(files, b) && a != b && EndBefore(files, a, b)
        ensures !EndBefore(files, b, a)
      {
      }
      forall a, b, c | IsEnd(files, a) && IsEnd(files, b) && IsEnd(files, c) && a != b && b != c && a != c
        ensures EndBefore(files, a, b) && EndBefore(files, b, c) ==> EndBefore(files, a, c)
        ensures !EndBefore(files, a, b) && !EndBefore(files, b, c) ==> !EndBefore(files, a, c)
      {
        EndsChain(files, a, b, c);
      }
    }
  }

  /** No end compares before itself, as sorting needs besides. */
  ghost predicate IrreflexiveEnds(files: seq<KeyRange>) {
    forall e :: IsEnd(files, e) ==> !EndBefore(files, e, e)
  }

  /** The comparison puts every smallest end before itself, so it is irreflexive for the empty list alone. */
  lemma IrreflexiveExact(files: seq<KeyRange>)
    ensures IrreflexiveEnds(files) <==> files == []
    ensures forall e :: IsEnd(files, e) ==> (EndBefore(files, e, e) <==> e.smallest)
  {
    assert files != [] ==> IsEnd(files, End(0, true)) && EndBefore(files, End(0, true), End(0, true));
  }

  lemma EndsChain(files: seq<KeyRange>, a: End, b: End, c: End)
    requires SinglesIsolated(files) && IsEnd(files, a) && IsEnd(files, b) && IsEnd(files, c) && a != b && b != c
    requires a != c
    ensures EndBefore(files, a, b) && EndBefore(files, b, c) ==> EndBefore(files, a, c)
    ensures !EndBefore(files, a, b) && !EndBefore(files, b, c) ==> !EndBefore(files, a, c)
  {
    TotalOrder();
    hide Before;
    assert a.file == b.file ==> a.smallest != b.smallest;
    assert b.file == c.file ==> b.smallest != c.smallest;
    assert a.file == c.file ==> a.smallest != c.smallest;
  }

  // ---------------------------------------------------------------- the sweep against its definition

  /** Every end once, and no later end compares before an earlier one. */
  ghost predicate SweepOrder(files: seq<KeyRange>, ends: seq<End>) {
    && (forall p :: 0 <= p < |ends| ==> IsEnd(files, ends[p]))
    && (forall p, q :: 0 <= p < q < |ends| ==> ends[p] != ends[q])
    && (forall e :: IsEnd(files, e) ==> e in ends)
    && (forall p, q :: 0 <= p < q < |ends| ==> !EndBefore(files, ends[q], ends[p]))
  }

  /** The files whose smallest (largest) end lies among the first p ends. */
  function Seen(ends: seq<End>, p: nat, smallest: bool): set<nat>
    requires p <= |ends|
  {
    set q | 0 <= q < p && ends[q].smallest == smallest :: ends[q].file
  }

  /** The files whose range overlaps that of f, itself included. */
  function Overlapping(files: seq<KeyRange>, f: nat): set<nat>
    requires f < |files|
  {
    set g: nat |
      && g < |files|
      && (g == f || (Before(files[g].smallest, files[f].largest) && Before(files[f].smallest, files[g].largest)))
  }

  lemma SeenStep(files: seq<KeyRange>, ends: seq<End>, p: nat, smallest: bool)
    requires p < |ends| && SweepOrder(files, ends)
    ensures Seen(ends, p + 1, smallest) ==
            if ends[p].smallest == smallest then Seen(ends, p, smallest) + {ends[p].file} else Seen(ends, p, smallest)
    ensures ends[p].smallest == smallest ==> ends[p].file !in Seen(ends, p, smallest)
    ensures |Seen(ends, p + 1, smallest)| == |Seen(ends, p, smallest)| + if ends[p].smallest == smallest then 1 else 0
  {
    SeenGrows(files, ends, p, smallest);
    hide *;
  }

  lemma SeenGrows(files: seq<KeyRange>, ends: seq<End>, p: nat, smallest: bool)
    requires p < |ends| && SweepOrder(files, ends)
    ensures Seen(ends, p + 1, smallest) ==
            if ends[p].smallest == smallest then Seen(ends, p, smallest) + {ends[p].file} else Seen(ends, p, smallest)
    ensures ends[p].smallest == smallest ==> ends[p].file !in Seen(ends, p, smallest)
  {
    assert forall q :: 0 <= q < p && ends[q].smallest == smallest ==> ends[q] != ends[p];
  }

  /** Where the ends of f and g stand to each other. */
  lemma Positions(files: seq<KeyRange>, ends: seq<End>, f: nat, g: nat, s: nat, l: nat, gs: nat, gl: nat)
    requires Spans(files) && SweepOrder(files, ends) && f < |files| && g < |files|
    requires s < |ends| && l < |ends| && gs < |ends| && gl < |ends|
    requires ends[s] == End(f, true) && ends[l] == End(f, false) && ends[gs] == End(g, true)
    requires ends[gl] == End(g, false)
    ensures s < l && gs < gl
    ensures f != g ==> (gs < l <==> Before(files[g].smallest, files[f].largest))
    ensures f != g ==> (gl < s <==> !Before(files[f].smallest, files[g].largest))
  {
    TotalOrder();
    hide Before;
    assert s < l || l < s;
    assert gs < gl || gl < gs;
    assert f != g ==> gs != l && gl != s;
  }

  /** What the counters have recorded by the time the largest end of f is reached. */
  lemma {:induction false} SweepCounts(files: seq<KeyRange>, ends: seq<End>, f: nat, s: nat, l: nat)
    requires Spans(files) && SweepOrder(files, ends) && f < |files|
    requires s < |ends| && l < |ends| && ends[s] == End(f, true) && ends[l] == End(f, false)
    ensures s < l && Seen(ends, s, false) <= Seen(ends, l, true)
    ensures Seen(ends, l, true) - Seen(ends, s, false) == Overlapping(files, f)
  {
    hide Before;
    forall g: nat | g < |files|
      ensures g in Seen(ends, l, true) <==> g == f || Before(files[g].smallest, files[f].largest)
      ensures g in Seen(ends, s, false) <==> g != f && !Before(files[f].smallest, files[g].largest)
      ensures g in Seen(ends, s, false) ==> g in Seen(ends, l, true)
    {
      assert End(g, true) in ends by { assert IsEnd(files, End(g, true)); }
      assert End(g, false) in ends by { assert IsEnd(files, End(g, false)); }
      var gs: nat :| gs < |ends| && ends[gs] == End(g, true);
      var gl: nat :| gl < |ends| && ends[gl] == End(g, false);
      hide SweepOrder;
      Positions(files, ends, f, g, s, l, gs, gl);
      SeenAt(files, ends, g, true, gs, l);
      SeenAt(files, ends, g, false, gl, s);
      assert f == g ==> gs == s && gl == l by { Unique(files, ends, s, gs); Unique(files, ends, l, gl); }
    }
    SeenFiles(files, ends, l, true);
    SeenFiles(files, ends, s, false);
    var d := Seen(ends, l, true) - Seen(ends, s, false);
    forall g: nat ensures g in d <==> g in Overlapping(files, f) {
      assert g < |files| || g !in Seen(ends, l, true);
    }
    forall e | IsEnd(files, e) ensures e in ends {}
    Positions(files, ends, f, f, s, l, s, l);
  }

  lemma SeenAt(files: seq<KeyRange>, ends: seq<End>, g: nat, smallest: bool, at: nat, p: nat)
    requires SweepOrder(files, ends) && at < |ends| && ends[at] == End(g, smallest) && p <= |ends|
    ensures g in Seen(ends, p, smallest) <==> at < p
  {
  }

  lemma SeenFiles(files: seq<KeyRange>, ends: seq<End>, p: nat, smallest: bool)
    requires SweepOrder(files, ends) && p <= |ends|
    ensures forall g :: g in Seen(ends, p, smallest) ==> g < |files|
  {
  }

  lemma Unique(files: seq<KeyRange>, ends: seq<End>, p: nat, q: nat)
    requires SweepOrder(files, ends) && p < |ends| && q < |ends|
    ensures ends[p] == ends[q] ==> p == q
  {
  }

  predicate Mergeable(s: FileState) { s != Obsolete && s != ToMerge && s != ToGC }

  /** Marks exactly the files that overlap more than the allowed number of files and may still be marked. */
  method MarkFileIfNeedMerge(files: seq<KeyRange>, ends: seq<End>, maxRuns: int, states: array<FileState>)
    requires Spans(files) && SweepOrder(files, ends) && states.Length == |files|
    modifies states
    ensures forall f: nat :: f < |files| ==>
              states[f] ==
              if |Overlapping(files, f)| > maxRuns && old(states[f]) !in {Obsolete, ToMerge, ToGC} then ToMerge
              else old(states[f])
  {
    hide SweepOrder, Spans, Overlapping, Decided;
    Sweep(files, ends, maxRuns, states);
    forall f: nat | f < |files|
      ensures states[f] ==
              if |Overlapping(files, f)| > maxRuns && old(states[f]) !in {Obsolete, ToMerge, ToGC} then ToMerge
              else old(states[f])
    {
      DecidedMeans(files, maxRuns, f, old(states[f]), states[f]);
    }
  }

  /** One pass over the ends, counting how many ranges have begun and ended. */
  method Sweep(files: seq<KeyRange>, ends: seq<End>, maxRuns: int, states: array<FileState>)
    requires Spans(files) && SweepOrder(files, ends) && states.Length == |files|
    modifies states
    ensures forall f: nat :: f < |files| ==> Decided(files, maxRuns, f, old(states[f]), states[f])
  {
    hide SweepOrder, Spans, Overlapping, Seen, Moved, Mergeable, Decided;
    SeenNone(ends);
    var added: nat, removed: nat := 0, 0;
    var recorded: map<nat, nat> := map[];
    for i := 0 to |ends|
      invariant added == |Seen(ends, i, true)| && removed == |Seen(ends, i, false)|
      invariant forall q :: 0 <= q < i && ends[q].smallest ==>
                  ends[q].file in recorded && recorded[ends[q].file] == |Seen(ends, q, false)|
      invariant forall f: nat :: f < |files| && f !in Seen(ends, i, false) ==> states[f] == old(states[f])
      invariant forall f: nat :: f < |files| && f in Seen(ends, i, false) ==>
                  Decided(files, maxRuns, f, old(states[f]), states[f])
    {
      SeenStep(files, ends, i, true);
      SeenStep(files, ends, i, false);
      SeenFiles(files, ends, i + 1, ends[i].smallest);
      var f := ends[i].file;
      if ends[i].smallest {
        added := added + 1;
        recorded := recorded[f := removed];
        Recorded(files, ends, i);
      } else {
        removed := removed + 1;
        ghost var s := StartOf(files, ends, i);
        var count: int := added - recorded[f];
        SweepCount(files, ends, f, s, i);
        if count > maxRuns && Mergeable(states[f]) {
          MergeMoves(states[f]);
          states[f] := Moved(states[f], NeedMerge);
        }
        DecidedIs(files, maxRuns, f, old(states[f]), states[f]);
      }
    }
    SeenAll(files, ends);
  }

  lemma DecidedIs(files: seq<KeyRange>, maxRuns: int, f: nat, s: FileState, t: FileState)
    requires f < |files|
    ensures Decided(files, maxRuns, f, s, t) <==>
            t == if |Overlapping(files, f)| > maxRuns && Mergeable(s) then ToMerge else s
  {
    hide Overlapping, Mergeable;
  }

  lemma DecidedMeans(files: seq<KeyRange>, maxRuns: int, f: nat, s: FileState, t: FileState)
    requires f < |files| && Decided(files, maxRuns, f, s, t)
    ensures t == if |Overlapping(files, f)| > maxRuns && s !in {Obsolete, ToMerge, ToGC} then ToMerge else s
  {
    hide Overlapping;
  }

  lemma SeenNone(ends: seq<End>)
    ensures forall b :: Seen(ends, 0, b) == {}
  {
  }

  lemma SeenAll(files: seq<KeyRange>, ends: seq<End>)
    requires SweepOrder(files, ends)
    ensures forall f: nat :: f < |files| ==> f in Seen(ends, |ends|, false)
  {
    forall f: nat | f < |files| ensures f in Seen(ends, |ends|, false) {
      assert IsEnd(files, End(f, false));
    }
  }

  ghost predicate Decided(files: seq<KeyRange>, maxRuns: int, f: nat, src: FileState, dst: FileState)
    requires f < |files|
  {
    dst == if |Overlapping(files, f)| > maxRuns && Mergeable(src) then ToMerge else src
  }

  lemma SweepCount(files: seq<KeyRange>, ends: seq<End>, f: nat, s: nat, l: nat)
    requires Spans(files) && SweepOrder(files, ends) && f < |files|
    requires s < |ends| && l < |ends| && ends[s] == End(f, true) && ends[l] == End(f, false)
    ensures |Seen(ends, l, true)| - |Seen(ends, s, false)| == |Overlapping(files, f)|
  {
    hide *;
    SweepCounts(files, ends, f, s, l);
    Difference(Seen(ends, l, true), Seen(ends, s, false));
  }

  lemma MergeMoves(s: FileState)
    requires Mergeable(s)
    ensures Moved(s, NeedMerge) == ToMerge
  {
  }

  lemma Difference(a: set<nat>, b: set<nat>)
    requires b <= a
    ensures |a - b| == |a| - |b|
  {
    assert a == (a - b) + b;
  }

  /** No other smallest end overwrites what was recorded for a file. */
  lemma Recorded(files: seq<KeyRange>, ends: seq<End>, i: nat)
    requires SweepOrder(files, ends) && i < |ends| && ends[i].smallest
    ensures forall q :: 0 <= q < i && ends[q].smallest ==> ends[q].file != ends[i].file
  {
    assert forall q :: 0 <= q < i ==> ends[q] != ends[i];
  }

  /** The position of a file's smallest end, which lies before its largest end. */
  lemma StartOf(files: seq<KeyRange>, ends: seq<End>, l: nat) returns (s: nat)
    requires Spans(files) && SweepOrder(files, ends) && l < |ends| && !ends[l].smallest
    ensures s < l && ends[s] == End(ends[l].file, true)
  {
    var f := ends[l].file;
    assert IsEnd(files, ends[l]) && IsEnd(files, End(f, true));
    s :| 0 <= s < |ends| && ends[s] == End(f, true);
    Positions(files, ends, f, f, s, l, s, l);
  }
}
