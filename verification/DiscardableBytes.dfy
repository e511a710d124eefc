/** Accounting of discardable bytes over flush and compaction events, and the deletion of files without live data. */
module DiscardableBytes {
  import opened Optional
  import opened BlobFileState
  import BlobFile
  import opened ManifestLog
  import opened Manifest

  /** Bytes an SST refers to, per blob file. */
  type Sizes = map<nat, nat>

  datatype FileInfo = FileInfo(size: nat, discardable: nat, sorted: bool, state: FileState)

  function Of(s: Sizes, f: nat): nat { if f in s then s[f] else 0 }

  function Diff(d: map<nat, int>, f: nat): int { if f in d then d[f] else 0 }

  /** Bytes referred to by a list of SSTs. */
  function Sum(list: seq<Sizes>, f: nat): nat
    decreases |list|
  {
    if list == [] then 0 else Sum(list[..|list| - 1], f) + Of(list[|list| - 1], f)
  }

  /** Bytes referred to by the live SSTs. */
  ghost function Total(ssts: map<nat, Sizes>, f: nat): nat
    decreases |ssts|
  {
    if ssts == map[] then 0
    else
      var k :| k in ssts;
      Of(ssts[k], f) + Total(ssts - {k}, f)
  }

  lemma {:induction false} TotalRemove(ssts: map<nat, Sizes>, k: nat, f: nat)
    requires k in ssts
    ensures Total(ssts, f) == Of(ssts[k], f) + Total(ssts - {k}, f)
    decreases |ssts|
  {
    var j :| j in ssts && Total(ssts, f) == Of(ssts[j], f) + Total(ssts - {j}, f);
    if j != k {
      TotalRemove(ssts - {j}, k, f);
      TotalRemove(ssts - {k}, j, f);
      assert ssts - {j} - {k} == ssts - {k} - {j};
    }
  }

  lemma TotalAdd(ssts: map<nat, Sizes>, k: nat, s: Sizes, f: nat)
    requires k !in ssts
    ensures Total(ssts[k := s], f) == Total(ssts, f) + Of(s, f)
  {
    TotalRemove(ssts[k := s], k, f);
    assert ssts[k := s] - {k} == ssts;
  }

  /** The live SSTs after some are replaced by others. */
  function Dropped(ssts: map<nat, Sizes>, ids: seq<nat>): map<nat, Sizes>
    decreases |ids|
  {
    if ids == [] then ssts else Dropped(ssts, ids[..|ids| - 1]) - {ids[|ids| - 1]}
  }

  function Added(ssts: map<nat, Sizes>, made: seq<(nat, Sizes)>): map<nat, Sizes>
    decreases |made|
  {
    if made == [] then ssts else Added(ssts, made[..|made| - 1])[made[|made| - 1].0 := made[|made| - 1].1]
  }

  predicate DistinctIn(ssts: map<nat, Sizes>, ids: seq<nat>) {
    (forall i :: 0 <= i < |ids| ==> ids[i] in ssts) && forall i, j :: 0 <= i < j < |ids| ==> ids[i] != ids[j]
  }

  function SizesOf(ssts: map<nat, Sizes>, ids: seq<nat>): seq<Sizes>
    requires DistinctIn(ssts, ids)
  {
    seq(|ids|, i requires 0 <= i < |ids| => ssts[ids[i]])
  }

  lemma {:induction false} TotalDropped(ssts: map<nat, Sizes>, ids: seq<nat>, f: nat)
    requires DistinctIn(ssts, ids)
    ensures Total(Dropped(ssts, ids), f) + Sum(SizesOf(ssts, ids), f) == Total(ssts, f)
    ensures forall k :: k in Dropped(ssts, ids) <==> k in ssts && k !in ids
    ensures forall k :: k in Dropped(ssts, ids) ==> Dropped(ssts, ids)[k] == ssts[k]
    decreases |ids|
  {
    if ids != [] {
      var n := |ids| - 1;
      TotalDropped(ssts, ids[..n], f);
      assert SizesOf(ssts, ids)[..n] == SizesOf(ssts, ids[..n]);
      TotalRemove(Dropped(ssts, ids[..n]), ids[n], f);
      assert ids == ids[..n] + [ids[n]];
    }
  }

  predicate FreshIds(ssts: map<nat, Sizes>, made: seq<(nat, Sizes)>) {
    && (forall i :: 0 <= i < |made| ==> made[i].0 !in ssts)
    && (forall i, j :: 0 <= i < j < |made| ==> made[i].0 != made[j].0)
  }

  function MadeSizes(made: seq<(nat, Sizes)>): seq<Sizes> { seq(|made|, i requires 0 <= i < |made| => made[i].1) }

  lemma {:induction false} AddedKeys(ssts: map<nat, Sizes>, made: seq<(nat, Sizes)>)
    ensures forall k :: k in Added(ssts, made) <==> k in ssts || exists i :: 0 <= i < |made| && made[i].0 == k
    decreases |made|
  {
    if made != [] {
      var n := |made| - 1;
      AddedKeys(ssts, made[..n]);
      assert forall i :: 0 <= i < n ==> made[..n][i] == made[i];
    }
  }

  lemma {:induction false} TotalAdded(ssts: map<nat, Sizes>, made: seq<(nat, Sizes)>, f: nat)
    requires FreshIds(ssts, made)
    ensures Total(Added(ssts, made), f) == Total(ssts, f) + Sum(MadeSizes(made), f)
    decreases |made|
  {
    if made != [] {
      var n := |made| - 1;
      assert FreshIds(ssts, made[..n]);
      TotalAdded(ssts, made[..n], f);
      AddedKeys(ssts, made[..n]);
      hide Total;
      assert MadeSizes(made)[..n] == MadeSizes(made[..n]);
      TotalAdd(Added(ssts, made[..n]), made[n].0, made[n].1, f);
    }
  }

  // ---------------------------------------------------------------- what holds between events

  function Payload(i: FileInfo): int { i.size - BlobFile.FILE_HEADER - BlobFile.FOOTER }

  predicate NoLiveData(i: FileInfo) { i.discardable == Payload(i) }

  /** A sorted file that is not waiting for its first SST: every payload byte is either referred to or discardable. */
  ghost predicate Balanced(i: FileInfo, referred: nat) {
    && Payload(i) > 0
    && (i.state == PendingLSM ==> i.discardable == 0 && referred == 0)
    && (i.state != PendingLSM ==> i.discardable + referred == Payload(i))
    && (i.state == Obsolete ==> referred == 0)
  }

  /** The same without the claim that all discardable bytes are known: no byte is counted twice. */
  ghost predicate Covered(i: FileInfo, referred: nat) {
    && Payload(i) > 0
    && (i.state == PendingLSM ==> i.discardable == 0 && referred == 0)
    && (i.state != PendingLSM ==> i.discardable + referred <= Payload(i))
    && (i.state == Obsolete ==> referred == 0)
  }

  ghost predicate Conserved(files: map<nat, FileInfo>, ssts: map<nat, Sizes>) {
    forall f :: f in files && files[f].sorted ==> Balanced(files[f], Total(ssts, f))
  }

  ghost predicate Bounded(files: map<nat, FileInfo>, ssts: map<nat, Sizes>) {
    forall f :: f in files && files[f].sorted ==> Covered(files[f], Total(ssts, f))
  }

  /** A file found to have no live data has none; a file that has none is found if and only if its account balances. */
  lemma NoLiveDataExact(files: map<nat, FileInfo>, ssts: map<nat, Sizes>, f: nat)
    requires Bounded(files, ssts) && f in files && files[f].sorted && files[f].state != PendingLSM
    ensures NoLiveData(files[f]) ==> Total(ssts, f) == 0
    ensures Total(ssts, f) == 0 ==> (NoLiveData(files[f]) <==> Balanced(files[f], 0))
    ensures Conserved(files, ssts) ==> (NoLiveData(files[f]) <==> Total(ssts, f) == 0)
  {
    hide Total;
    assert Covered(files[f], Total(ssts, f));
  }

  // ---------------------------------------------------------------- reopening

  /** Discardable sizes and states are not persistent; deleted files are not found again. */
  function Reopened(files: map<nat, FileInfo>): map<nat, FileInfo> {
    map f | f in files && files[f].state != Obsolete :: files[f].(discardable := 0, state := Moved(Init, DbRestart))
  }

  /**
   * What the SSTs found on reopening refer to: as before, or, where the event of the last flush or compaction was
   * lost, less of old files and as much as there is of new ones.
   */
  ghost predicate Fits(files: map<nat, FileInfo>, was: map<nat, Sizes>, now: map<nat, Sizes>) {
    forall f :: f in files && files[f].sorted && files[f].state != Obsolete ==>
      Total(now, f) <= if files[f].state == PendingLSM then Payload(files[f]) else Total(was, f)
  }

  /** The account balances after a reopen if and only if every byte of every sorted file is referred to. */
  lemma ReopenExact(files: map<nat, FileInfo>, was: map<nat, Sizes>, ssts: map<nat, Sizes>)
    requires Bounded(files, was) && Fits(files, was, ssts)
    ensures Bounded(Reopened(files), ssts)
    ensures Conserved(Reopened(files), ssts) <==>
            forall f :: f in files && files[f].sorted && files[f].state != Obsolete ==>
              Total(ssts, f) == Payload(files[f])
    ensures forall f :: f in files && files[f].sorted && files[f].state != Obsolete ==>
              && f in Reopened(files)
              && (Balanced(Reopened(files)[f], Total(ssts, f)) <==> Total(ssts, f) == Payload(files[f]))
  {
    hide Total;
    assert forall f :: f in files && files[f].sorted ==> Covered(files[f], Total(was, f));
    var after := Reopened(files);
    forall f | f in after && after[f].sorted
      ensures f in files && files[f].sorted && files[f].state != Obsolete && Covered(after[f], Total(ssts, f))
      ensures Balanced(after[f], Total(ssts, f)) <==> Total(ssts, f) == Payload(files[f])
    {
    }
  }

  // ---------------------------------------------------------------- one file, one event

  const WRAP := 0x1_0000_0000_0000_0000

  /** What a flush adds: the first SST decides what is discardable, later ones take bytes back, as unsigned numbers. */
  function FlushAmount(i: FileInfo, referred: nat): nat {
    (if i.discardable == 0 then Payload(i) - referred else 0 - referred) % WRAP
  }

  function Flushed(i: FileInfo, referred: nat): FileInfo {
    i.(discardable := (i.discardable + FlushAmount(i, referred)) % WRAP, state := Moved(i.state, FlushCompleted))
  }

  /** What a flush leaves, in plain numbers. */
  lemma FlushedMeans(i: FileInfo, referred: nat)
    ensures Flushed(i, referred).state == if i.state == PendingLSM then Normal else i.state
    ensures Flushed(i, referred).sorted == i.sorted
    ensures i.size < WRAP && i.discardable == 0 && referred <= Payload(i) ==>
              Flushed(i, referred).discardable == Payload(i) - referred
    ensures 0 < referred <= i.discardable < WRAP ==> Flushed(i, referred).discardable == i.discardable - referred
  {
  }

  /** A flush writes every record of a new sorted file into its one SST. */
  lemma FlushBalanced(i: FileInfo, referred: nat)
    requires Balanced(i, 0) && i.size < WRAP && i.state == PendingLSM && referred == Payload(i)
    ensures Flushed(i, referred).state == Normal && Flushed(i, referred).discardable == 0
    ensures Balanced(Flushed(i, referred), referred)
  {
  }

  /** The two assertions made when bytes are added. */
  predicate AddsInRange(i: FileInfo, amount: nat) { amount < i.size && i.discardable + amount < i.size }

  /**
   * The addition a flush makes passes the assertions if and only if it is the first one and refers to no more
   * than the payload, or it refers to nothing. The wrapped sum is right all the same.
   */
  lemma FlushInRangeExact(i: FileInfo, referred: nat)
    requires i.size < WRAP / 2 && referred < WRAP / 2
    ensures AddsInRange(i, FlushAmount(i, referred)) <==>
            (i.discardable == 0 && referred <= Payload(i)) || (0 < i.discardable < i.size && referred == 0)
    ensures 0 < i.discardable < i.size && referred <= i.discardable ==>
              Flushed(i, referred).discardable == i.discardable - referred
  {
    var d: int := if i.discardable == 0 then Payload(i) - referred else 0 - referred;
    assert d % WRAP == if d < 0 then d + WRAP else d;
  }

  /** The third assertion of a flush: a sorted file has no discardable bytes afterwards. */
  predicate SortedInFull(i: FileInfo, referred: nat) { i.sorted ==> Flushed(i, referred).discardable == 0 }

  /** It passes if and only if the file is unsorted or the flush refers to every byte not yet referred to. */
  lemma SortedInFullExact(i: FileInfo, referred: nat)
    requires i.size < WRAP / 2 && referred < WRAP / 2 && i.discardable < WRAP / 2
    ensures SortedInFull(i, referred) <==>
            !i.sorted || referred == if i.discardable == 0 then Payload(i) else i.discardable
  {
    var d: int := if i.discardable == 0 then Payload(i) - referred else 0 - referred;
    assert d % WRAP == if d < 0 then d + WRAP else d;
  }

  /** Compaction: bytes that inputs referred to and outputs do not become discardable. */
  function Compacted(i: FileInfo, diff: int): FileInfo {
    if diff >= 0 then i else i.(discardable := i.discardable - diff)
  }

  /** Level merge, the column family the files belong to, and the share of garbage that asks for GC. */
  datatype Setting = Setting(levelMerge: bool, family: nat, ratio: real)

  /** Under level merge, a sorted file that loses its last reference is to be deleted. */
  predicate Goes(i: FileInfo, diff: int, o: Setting) {
    o.levelMerge && diff < 0 && i.sorted && NoLiveData(Compacted(i, diff))
  }

  /** After the bytes are added, a sorted file with too much garbage is marked, unless it is to be deleted. */
  function Settled(i: FileInfo, diff: int, o: Setting): FileInfo {
    var c := Compacted(i, diff);
    if o.levelMerge && diff < 0 && i.sorted && !NoLiveData(c) && c.discardable as real > o.ratio * c.size as real
    then c.(state := Moved(c.state, NeedGC)) else c
  }

  function Deleted(i: FileInfo): FileInfo { i.(state := Moved(i.state, FileEvent.Delete)) }

  /**
   * A compaction keeps the account of a file as it is, balanced or short, and a file that loses its last reference
   * goes if and only if its account balances.
   */
  lemma SettleBalanced(i: FileInfo, before: nat, taken: nat, given: nat, o: Setting)
    requires Covered(i, before) && given <= taken <= before && i.state != PendingLSM && i.sorted && o.levelMerge
    ensures Covered(Settled(i, given - taken, o), before - taken + given)
    ensures Balanced(Settled(i, given - taken, o), before - taken + given) <==> Balanced(i, before)
    ensures Goes(i, given - taken, o) ==> Balanced(Deleted(Settled(i, given - taken, o)), before - taken + given)
    ensures given < taken ==> i.state != Obsolete && AddsInRange(i, taken - given)
    ensures given < taken ==> (Goes(i, given - taken, o) <==> before - taken + given == 0 && Balanced(i, before))
    ensures Settled(i, given - taken, o).state == Obsolete <==> i.state == Obsolete
  {
  }

  /** The compaction that wrote a file installs it whole. */
  lemma InstallBalanced(i: FileInfo, given: nat)
    requires Balanced(i, 0) && i.state == PendingLSM && given == Payload(i)
    ensures Balanced(i.(state := Moved(i.state, CompactionCompleted)), given)
    ensures Transit(i.state, CompactionCompleted).Some?
  {
  }

  // ---------------------------------------------------------------- the event handlers

  class FileSizes {
    var files: map<nat, FileInfo>
    const o: Setting
    ghost var ssts: map<nat, Sizes>

    ghost predicate Valid()
      reads this
    {
      (o.levelMerge ==> Bounded(files, ssts)) && forall f :: f in files ==> files[f].size < WRAP
    }

    constructor (o: Setting)
      ensures Valid() && Conserved(files, ssts) && files == map[] && ssts == map[] && this.o == o
    {
      files, ssts, this.o := map[], map[], o;
    }

    /**
     * A file is registered before an SST refers to it: an output of a flush or compaction or of GC, or a file
     * written before the memtable, which is normal at once.
     */
    method Register(f: nat, size: nat, sorted: bool, e: FileEvent)
      requires Valid() && f !in files && BlobFile.FILE_HEADER + BlobFile.FOOTER < size < WRAP && Total(ssts, f) == 0
      requires sorted ==> e == FlushOrCompactionOutput || (!o.levelMerge && e == GCOutput)
      requires !sorted ==> e in {GCOutput, Reset}
      modifies this`files
      ensures Valid() && files == old(files)[f := FileInfo(size, 0, sorted, Moved(Init, e))]
      ensures o.levelMerge && old(Conserved(files, ssts)) ==> Conserved(files, ssts)
    {
      hide Total;
      files := files[f := FileInfo(size, 0, sorted, Moved(Init, e))];
    }

    /** The process ends, whatever event it was about to handle, and the files are found again. */
    method Reopen(ghost now: map<nat, Sizes>)
      requires Valid() && (o.levelMerge ==> Fits(files, ssts, now))
      modifies this
      ensures Valid() && files == Reopened(old(files)) && ssts == now
      ensures o.levelMerge ==>
                (Conserved(files, ssts) <==>
                 forall f :: f in old(files) && old(files)[f].sorted && old(files)[f].state != Obsolete ==>
                   Total(now, f) == Payload(old(files)[f]))
    {
      hide Total, Conserved, Bounded, Fits;
      if o.levelMerge { ReopenExact(files, ssts, now); }
      files := Reopened(files);
      ssts := now;
    }

    method OnFlushCompleted(sst: nat, sizes: Sizes)
      requires Valid() && sst !in ssts
      requires o.levelMerge ==> forall f :: f in sizes && f in files && files[f].sorted ==>
                 files[f].state == PendingLSM && Total(ssts, f) == 0 && sizes[f] == Payload(files[f])
      modifies this
      ensures Valid() && ssts == old(ssts)[sst := sizes]
      ensures o.levelMerge && old(Conserved(files, ssts)) ==> Conserved(files, ssts)
      ensures files.Keys == old(files.Keys)
      ensures forall f :: f in files ==>
                files[f] == if f in sizes then Flushed(old(files)[f], sizes[f]) else old(files)[f]
      ensures forall f :: f in files && f in sizes ==>
                && files[f].size == old(files)[f].size && files[f].sorted == old(files)[f].sorted
                && files[f].state == (if old(files)[f].state == PendingLSM then Normal else old(files)[f].state)
                && (old(files)[f].discardable == 0 && sizes[f] <= Payload(old(files)[f]) ==>
                      files[f].discardable == Payload(old(files)[f]) - sizes[f])
                && (0 < sizes[f] <= old(files)[f].discardable < WRAP ==>
                      files[f].discardable == old(files)[f].discardable - sizes[f])
    {
      hide Flushed, Conserved, Bounded, Balanced, Covered, Total;
      var todo := sizes.Keys;
      while todo != {}
        invariant todo <= sizes.Keys && files.Keys == old(files.Keys) && ssts == old(ssts)
        invariant forall f :: f in files ==>
                    files[f] == if f in sizes && f !in todo then Flushed(old(files)[f], sizes[f]) else old(files)[f]
      {
        var f :| f in todo;
        if f in files { files := files[f := Flushed(files[f], sizes[f])]; }
        todo := todo - {f};
      }
      ssts := ssts[sst := sizes];
      FlushedSize(old(files), files, sizes);
      forall f | f in files && f in sizes
        ensures files[f].state == (if old(files)[f].state == PendingLSM then Normal else old(files)[f].state)
        ensures files[f].sorted == old(files)[f].sorted
        ensures old(files)[f].discardable == 0 && sizes[f] <= Payload(old(files)[f]) ==>
                  files[f].discardable == Payload(old(files)[f]) - sizes[f]
        ensures 0 < sizes[f] <= old(files)[f].discardable < WRAP ==>
                  files[f].discardable == old(files)[f].discardable - sizes[f]
      {
        FlushedMeans(old(files)[f], sizes[f]);
      }
      if o.levelMerge { FlushConserves(old(files), files, old(ssts), sst, sizes); }
    }

    /** The file set holds these files in their column family, obsolete where they are obsolete here. */
    ghost predicate InStep(fileSet: BlobFileSet)
      reads this, fileSet
    {
      Mirrored(files, fileSet.families, o.family)
    }

    /**
     * Turns the difference between what inputs and outputs refer to into discardable bytes, and asks for the
     * sorted files that are left without live data to be deleted. The record of them names column family 0, so
     * it takes effect if and only if there is none or the files belong to that family.
     */
    method OnCompactionCompleted(inputs: seq<Sizes>, outputs: seq<Sizes>, fileSet: BlobFileSet, latest: nat,
                                 ghost ids: seq<nat>, ghost made: seq<(nat, Sizes)>)
      returns (deleted: seq<(nat, nat)>, status: Status)
      requires Valid() && fileSet.Valid() && InStep(fileSet)
      requires DistinctIn(ssts, ids) && inputs == SizesOf(ssts, ids)
      requires FreshIds(ssts, made) && outputs == MadeSizes(made)
      requires Mentioned(outputs) - Mentioned(inputs) <= files.Keys
      requires o.levelMerge ==> forall f :: f in files && files[f].sorted ==> CompactionOk(files[f], f, inputs, outputs)
      modifies this, fileSet
      ensures Valid() && fileSet.Valid() && InStep(fileSet) && (old(fileSet.Careful()) ==> fileSet.Careful())
      ensures ssts == Added(Dropped(old(ssts), ids), made) && files.Keys == old(files.Keys)
      ensures forall f :: f in files ==> files[f] == AfterCompaction(old(files)[f], f, inputs, outputs, o)
      ensures forall f :: f in files ==> files[f].size == old(files)[f].size && files[f].sorted == old(files)[f].sorted
      ensures forall f :: f in files ==>
                if Sum(outputs, f) <= Sum(inputs, f)
                then files[f].discardable + Total(ssts, f) == old(files)[f].discardable + Total(old(ssts), f)
                else files[f].discardable == old(files)[f].discardable
      ensures forall f :: f in files ==>
                StateAfter(old(files)[f], files[f], f in Mentioned(outputs) && f !in Mentioned(inputs),
                           Sum(outputs, f) < Sum(inputs, f), f in Firsts(deleted), o)
      ensures Distinct(Firsts(deleted)) && forall k :: 0 <= k < |deleted| ==> deleted[k].1 == latest
      ensures forall f :: f in Firsts(deleted) && o.family == 0 ==>
                0 in fileSet.families && f in fileSet.families[0] && fileSet.families[0][f].obsolete == Some(latest)
      ensures forall f :: f in Firsts(deleted) <==>
                && o.levelMerge && f in old(files) && old(files)[f].sorted
                && Sum(outputs, f) < Sum(inputs, f) && Total(ssts, f) == 0
                && Balanced(old(files)[f], Total(old(ssts), f))
      ensures forall f :: f in files && o.levelMerge && old(files)[f].sorted && old(files)[f].state != PendingLSM ==>
                (Balanced(files[f], Total(ssts, f)) <==> Balanced(old(files)[f], Total(old(ssts), f)))
      ensures o.levelMerge && old(Conserved(files, ssts)) ==> Conserved(files, ssts)
      ensures status == Ok <==> deleted == [] || o.family == 0
      ensures forall f :: f in Firsts(deleted) ==> old(files)[f].state != Obsolete
      ensures forall f :: f in files ==>
                (files[f].state == Obsolete <==>
                 old(files)[f].state == Obsolete || (f in Firsts(deleted) && o.family == 0))
      ensures forall f :: f in files && o.levelMerge && old(files)[f].sorted && old(files)[f].state != PendingLSM ==>
                Total(old(ssts), f) == 0 ==> Total(ssts, f) == 0 && f !in Firsts(deleted)
    {
      hide Conserved, Bounded, Balanced, Covered, Sum, Total, Dropped, Added, Settled, Goes, CompactionOk, Mentioned,
           SizesOf, MadeSizes, Compacted, Installed, Deleted, Mirrored, AfterCompaction, Accepts, AppliedAll, Distinct,
           StateAfter, DeletesFrom, AllAt, Weighed, Leaves, Manifest.Faithful, Climbs, LastNext, HasNext, Below, Unused;
      deleted := Weigh(inputs, outputs, latest);
      ssts := Added(Dropped(ssts, ids), made);
      status := Ok;
      if o.levelMerge {
        AskedFor(old(files), old(ssts), ids, made, inputs, outputs, o, fileSet.families, deleted);
        ghost var weighed := files;
        status := Ask(fileSet, deleted);
        DeletionsTaken(old(files), weighed, files, inputs, outputs, o, deleted);
        CompactionConserves(old(files), old(ssts), ids, made, inputs, outputs, o, files);
      } else {
        NothingGoes(old(files), inputs, outputs, o, deleted);
      }
      MirrorKept(old(files), files, inputs, outputs, o, old(fileSet.families), fileSet.families, deleted);
      Spelled(old(files), files, old(ssts), ids, made, inputs, outputs, o, deleted);
      DeletedAt(deleted, latest, o.family, fileSet.families);
    }

    /** Installs new files, adds the bytes, marks files for GC and collects the files to be deleted. */
    method Weigh(inputs: seq<Sizes>, outputs: seq<Sizes>, latest: nat) returns (deleted: seq<(nat, nat)>)
      requires Mentioned(outputs) - Mentioned(inputs) <= files.Keys
      modifies this`files
      ensures files.Keys == old(files.Keys)
      ensures forall f :: f in files ==> files[f] == Weighed(old(files)[f], f, inputs, outputs, o)
      ensures forall f :: f in Firsts(deleted) <==> f in old(files) && Leaves(old(files)[f], f, inputs, outputs, o)
      ensures Distinct(Firsts(deleted)) && AllAt(deleted, latest)
    {
      hide Sum, Settled, Goes, Mentioned, Compacted, Installed, Distinct, AllAt, Weighed, Leaves;
      var diff, newcomers := Differences(inputs, outputs);
      Install(newcomers);
      deleted := Settle(diff, latest);
      SettledFiles(old(files), diff, newcomers, inputs, outputs, o, files, deleted);
    }

    /** Sends the record of deletions to the file set; where it is accepted, the files become obsolete. */
    method Ask(fileSet: BlobFileSet, deleted: seq<(nat, nat)>) returns (status: Status)
      requires fileSet.Valid() && 0 in fileSet.families
      requires Distinct(Firsts(deleted)) && forall f :: f in Firsts(deleted) ==> f in files
      modifies this`files, fileSet
      ensures fileSet.Valid() && (old(fileSet.Careful()) ==> fileSet.Careful()) && files.Keys == old(files.Keys)
      ensures status == Ok <==> Accepts(old(fileSet.families), DeletionRecord(deleted))
      ensures if status == Ok
              then && fileSet.families ==
                        AppliedAll(Gather(map[], DeletionRecord(deleted)).value, old(fileSet.families))
                   && forall f :: f in files ==>
                        files[f] == if f in Firsts(deleted) then Deleted(old(files)[f]) else old(files)[f]
              else fileSet.families == old(fileSet.families) && files == old(files)
    {
      hide Accepts, AppliedAll, Gather, Distinct, Deleted, Climbs, LastNext, HasNext, Below, Unused, Manifest.Faithful;
      assert NumberSet([]) == {};
      status := fileSet.LogAndApply(DeletionRecord(deleted));
      if status == Ok { MarkDeleted(deleted); }
    }

    method MarkDeleted(deleted: seq<(nat, nat)>)
      requires Distinct(Firsts(deleted)) && forall f :: f in Firsts(deleted) ==> f in files
      modifies this`files
      ensures files.Keys == old(files.Keys)
      ensures forall f :: f in files ==>
                files[f] == if f in Firsts(deleted) then Deleted(old(files)[f]) else old(files)[f]
    {
      hide Deleted;
      for i := 0 to |deleted|
        invariant files.Keys == old(files.Keys)
        invariant forall f :: f in files ==>
                    files[f] == if f in Firsts(deleted)[..i] then Deleted(old(files)[f]) else old(files)[f]
      {
        var f := deleted[i].0;
        assert Firsts(deleted)[i] == f && Firsts(deleted)[..i + 1] == Firsts(deleted)[..i] + [f];
        files := files[f := Deleted(files[f])];
      }
      assert Firsts(deleted)[..|deleted|] == Firsts(deleted);
    }

    /** Files written by the compaction are now referred to from the LSM tree. */
    method Install(newcomers: set<nat>)
      requires newcomers <= files.Keys
      modifies this`files
      ensures files.Keys == old(files.Keys)
      ensures forall f :: f in files ==> files[f] == if f in newcomers then Installed(old(files)[f]) else old(files)[f]
    {
      hide Installed;
      var todo := newcomers;
      while todo != {}
        invariant todo <= newcomers && files.Keys == old(files.Keys)
        invariant forall f :: f in files ==>
                    files[f] == if f in newcomers && f !in todo then Installed(old(files)[f]) else old(files)[f]
      {
        var f :| f in todo;
        files := files[f := Installed(files[f])];
        todo := todo - {f};
      }
    }

    /** Adds the bytes, marks files for GC and collects the files to be deleted. */
    method Settle(diff: map<nat, int>, latest: nat) returns (deleted: seq<(nat, nat)>)
      modifies this`files
      ensures files.Keys == old(files.Keys)
      ensures forall f :: f in files ==>
                files[f] == if f in diff then Settled(old(files)[f], diff[f], o) else old(files)[f]
      ensures Distinct(Firsts(deleted)) && AllAt(deleted, latest)
      ensures forall f :: f in Firsts(deleted) <==> f in old(files) && f in diff && Goes(old(files)[f], diff[f], o)
    {
      hide Settled, Goes, Distinct;
      deleted := [];
      NoFirsts();
      var todo := diff.Keys;
      while todo != {}
        invariant todo <= diff.Keys && files.Keys == old(files.Keys)
        invariant forall f :: f in files ==>
                    files[f] == if f in diff && f !in todo then Settled(old(files)[f], diff[f], o) else old(files)[f]
        invariant Distinct(Firsts(deleted)) && AllAt(deleted, latest)
        invariant forall f :: f in Firsts(deleted) <==>
                    f in old(files) && f in diff && f !in todo && Goes(old(files)[f], diff[f], o)
      {
        var f :| f in todo;
        if f in files {
          if Goes(files[f], diff[f], o) {
            assert Firsts(deleted + [(f, latest)]) == Firsts(deleted) + [f];
            SplitDistinct(Firsts(deleted), f);
            deleted := deleted + [(f, latest)];
          }
          files := files[f := Settled(files[f], diff[f], o)];
        }
        todo := todo - {f};
      }
    }
  }

  /** Every deletion carries the latest sequence number. */
  predicate AllAt(ds: seq<(nat, nat)>, latest: nat) { forall k :: 0 <= k < |ds| ==> ds[k].1 == latest }

  lemma NoFirsts()
    ensures Firsts([]) == [] && Distinct([])
  {
  }

  lemma FlushedSize(before: map<nat, FileInfo>, after: map<nat, FileInfo>, sizes: Sizes)
    requires after.Keys == before.Keys
    requires forall f :: f in after ==> after[f] == if f in sizes then Flushed(before[f], sizes[f]) else before[f]
    ensures forall f :: f in after ==> after[f].size == before[f].size
  {
  }

  /** The files found again are those of the file set found again. */
  lemma ReopenMirrors(files: map<nat, FileInfo>, st: map<nat, Storage>, next: map<nat, Storage>, family: nat)
    requires Mirrored(files, st, family) && next.Keys == st.Keys
    requires forall cf :: cf in st ==> Live(next[cf]) == Live(st[cf]) && next[cf].Keys == Live(next[cf]).Keys
    ensures Mirrored(Reopened(files), next, family)
  {
    assert forall cf, n :: cf in st && n in next[cf] ==> n in st[cf];
    forall f | f in Reopened(files)
      ensures f in next[family] && next[family][f].obsolete.None?
    {
      assert f in Live(st[family]) && f in Live(next[family]);
    }
  }

  /** The file set holds these files in their family, obsolete where they are; numbers are shared by no two families. */
  ghost predicate Mirrored(files: map<nat, FileInfo>, families: map<nat, Storage>, family: nat) {
    && 0 in families && family in families && (family != 0 ==> families[0].Keys !! families[family].Keys)
    && forall f :: f in files ==>
         f in families[family] && (families[family][f].obsolete.Some? <==> files[f].state == Obsolete)
  }

  function Installed(i: FileInfo): FileInfo { i.(state := Moved(i.state, CompactionCompleted)) }

  /** The blob files a list of SSTs mentions. */
  function Mentioned(list: seq<Sizes>): set<nat> { set k, f | 0 <= k < |list| && f in list[k] :: f }

  /**
   * A pending file is written whole by its compaction; of any other file a compaction only keeps or drops references.
   */
  predicate CompactionOk(i: FileInfo, f: nat, inputs: seq<Sizes>, outputs: seq<Sizes>) {
    if i.state == PendingLSM
    then f !in Mentioned(inputs) && (f in Mentioned(outputs) ==> Sum(outputs, f) == Payload(i))
    else (f in Mentioned(outputs) ==> f in Mentioned(inputs)) && Sum(outputs, f) <= Sum(inputs, f)
  }

  /** Adds one SST's sizes, times a coefficient, to the differences. */
  method Accumulate(diff: map<nat, int>, s: Sizes, coefficient: int) returns (r: map<nat, int>)
    ensures r.Keys == diff.Keys + s.Keys
    ensures forall f :: f in r ==> r[f] == Diff(diff, f) + coefficient * Of(s, f)
  {
    r := diff;
    var todo := s.Keys;
    while todo != {}
      invariant todo <= s.Keys && r.Keys == diff.Keys + (s.Keys - todo)
      invariant forall f :: f in r ==> r[f] == Diff(diff, f) + if f in todo then 0 else coefficient * Of(s, f)
    {
      var f :| f in todo;
      r := r[f := (if f in r then r[f] else 0) + coefficient * s[f]];
      todo := todo - {f};
    }
  }

  method Differences(inputs: seq<Sizes>, outputs: seq<Sizes>) returns (diff: map<nat, int>, newcomers: set<nat>)
    ensures diff.Keys == Mentioned(inputs) + Mentioned(outputs)
    ensures forall f :: f in diff ==> diff[f] == Sum(outputs, f) - Sum(inputs, f)
    ensures newcomers == Mentioned(outputs) - Mentioned(inputs)
  {
    hide Sum, Mentioned, Diff;
    NoList();
    diff, newcomers := map[], {};
    for k := 0 to |inputs|
      invariant diff.Keys == Mentioned(inputs[..k]) && forall f :: f in diff ==> diff[f] == 0 - Sum(inputs[..k], f)
    {
      ListStep(inputs, k);
      DiffIs(diff);
      diff := Accumulate(diff, inputs[k], -1);
    }
    assert inputs[..|inputs|] == inputs;
    Unmentioned(inputs);
    for k := 0 to |outputs|
      invariant diff.Keys == Mentioned(inputs) + Mentioned(outputs[..k])
      invariant forall f :: f in diff ==> diff[f] == Sum(outputs[..k], f) - Sum(inputs, f)
      invariant newcomers == Mentioned(outputs[..k]) - Mentioned(inputs)
    {
      ListStep(outputs, k);
      DiffIs(diff);
      newcomers := newcomers + set f | f in outputs[k] && f !in Mentioned(inputs);
      diff := Accumulate(diff, outputs[k], 1);
    }
    assert outputs[..|outputs|] == outputs;
  }

  lemma NoList()
    ensures Mentioned([]) == {} && forall f :: Sum([], f) == 0
  {
  }

  lemma DiffIs(d: map<nat, int>)
    ensures forall f :: Diff(d, f) == if f in d then d[f] else 0
  {
  }

  lemma ListStep(list: seq<Sizes>, k: nat)
    requires k < |list|
    ensures Mentioned(list[..k + 1]) == Mentioned(list[..k]) + list[k].Keys
    ensures forall f :: Sum(list[..k + 1], f) == Sum(list[..k], f) + Of(list[k], f)
    ensures forall f :: f !in Mentioned(list[..k]) ==> Sum(list[..k], f) == 0
  {
    assert list[..k + 1][..k] == list[..k];
    Unmentioned(list[..k]);
  }

  lemma {:induction false} Unmentioned(list: seq<Sizes>)
    ensures forall f :: f !in Mentioned(list) ==> Sum(list, f) == 0
    decreases |list|
  {
    if list != [] {
      var n := |list| - 1;
      Unmentioned(list[..n]);
      assert forall f :: f in Mentioned(list[..n]) || f in list[n] ==> f in Mentioned(list) by {
        assert forall k :: 0 <= k < n ==> list[..n][k] == list[k];
      }
    }
  }

  /** What a compaction event makes of one file before deletions. */
  function Weighed(i: FileInfo, f: nat, inputs: seq<Sizes>, outputs: seq<Sizes>, o: Setting): FileInfo {
    var j := if f in Mentioned(outputs) && f !in Mentioned(inputs) then Installed(i) else i;
    Settled(j, Sum(outputs, f) - Sum(inputs, f), o)
  }

  /** Whether it asks for the file to be deleted. */
  predicate Leaves(i: FileInfo, f: nat, inputs: seq<Sizes>, outputs: seq<Sizes>, o: Setting) {
    Goes(i, Sum(outputs, f) - Sum(inputs, f), o)
  }

  /** What it makes of the file: only in column family 0 does the deletion take effect. */
  function AfterCompaction(i: FileInfo, f: nat, inputs: seq<Sizes>, outputs: seq<Sizes>, o: Setting): FileInfo {
    var w := Weighed(i, f, inputs, outputs, o);
    if Leaves(i, f, inputs, outputs, o) && o.family == 0 then Deleted(w) else w
  }

  lemma SettledFiles(before: map<nat, FileInfo>, diff: map<nat, int>, newcomers: set<nat>, inputs: seq<Sizes>,
                     outputs: seq<Sizes>,
                     o: Setting, after: map<nat, FileInfo>, deleted: seq<(nat, nat)>)
    requires diff.Keys == Mentioned(inputs) + Mentioned(outputs) && newcomers == Mentioned(outputs) - Mentioned(inputs)
    requires forall f :: f in diff ==> diff[f] == Sum(outputs, f) - Sum(inputs, f)
    requires after.Keys == before.Keys
    requires forall f :: f in after ==>
               var j := if f in newcomers then Installed(before[f]) else before[f];
               after[f] == if f in diff then Settled(j, diff[f], o) else j
    requires forall f :: f in Firsts(deleted) <==>
               f in before && f in diff && Goes(if f in newcomers then Installed(before[f]) else before[f], diff[f], o)
    ensures forall f :: f in after ==> after[f] == Weighed(before[f], f, inputs, outputs, o)
    ensures forall f :: f in Firsts(deleted) <==> f in before && Leaves(before[f], f, inputs, outputs, o)
  {
    hide Sum, Mentioned;
    Unmentioned(inputs);
    Unmentioned(outputs);
  }

  lemma SomeFirst(ds: seq<(nat, nat)>)
    ensures ds != [] ==> exists f :: f in Firsts(ds)
  {
    if ds != [] { assert Firsts(ds)[0] in Firsts(ds); }
  }

  lemma NothingGoes(before: map<nat, FileInfo>, inputs: seq<Sizes>, outputs: seq<Sizes>, o: Setting,
                    deleted: seq<(nat, nat)>)
    requires !o.levelMerge
    requires forall f :: f in Firsts(deleted) <==> f in before && Leaves(before[f], f, inputs, outputs, o)
    ensures deleted == []
    ensures forall f :: f in before ==>
              && AfterCompaction(before[f], f, inputs, outputs, o) == Weighed(before[f], f, inputs, outputs, o)
              && Weighed(before[f], f, inputs, outputs, o).size == before[f].size
  {
    SomeFirst(deleted);
  }

  lemma DeletionsTaken(before: map<nat, FileInfo>, weighed: map<nat, FileInfo>, after: map<nat, FileInfo>,
                       inputs: seq<Sizes>, outputs: seq<Sizes>, o: Setting, deleted: seq<(nat, nat)>)
    requires weighed.Keys == before.Keys == after.Keys
    requires forall f :: f in before ==> weighed[f] == Weighed(before[f], f, inputs, outputs, o)
    requires forall f :: f in Firsts(deleted) <==> f in before && Leaves(before[f], f, inputs, outputs, o)
    requires if deleted == [] || o.family == 0
             then forall f :: f in after ==>
                    after[f] == if f in Firsts(deleted) then Deleted(weighed[f]) else weighed[f]
             else after == weighed
    ensures forall f :: f in after ==> after[f] == AfterCompaction(before[f], f, inputs, outputs, o)
  {
    hide Weighed, Leaves, Deleted;
  }

  lemma DeletedAt(deleted: seq<(nat, nat)>, latest: nat, family: nat, families: map<nat, Storage>)
    requires AllAt(deleted, latest) && 0 in families
    requires forall f :: f in Firsts(deleted) && family == 0 ==>
               f in families[0] && families[0][f].obsolete.Some? && (f, families[0][f].obsolete.value) in deleted
    ensures forall f :: f in Firsts(deleted) && family == 0 ==> families[0][f].obsolete == Some(latest)
    ensures forall k :: 0 <= k < |deleted| ==> deleted[k].1 == latest
  {
  }

  /** The share of discardable bytes is above the ratio. */
  ghost predicate Littered(i: FileInfo, ratio: real) { i.discardable as real > ratio * i.size as real }

  /**
   * The state of a file after a compaction: new files become normal, deleted ones obsolete in family 0, and under
   * level merge a sorted file that lost references and holds too much garbage is marked for GC.
   */
  ghost predicate StateAfter(i: FileInfo, a: FileInfo, newcomer: bool, freed: bool, gone: bool, o: Setting) {
    var was := if newcomer && i.state == PendingLSM then Normal else i.state;
    a.state ==
    if gone then (if o.family == 0 then Obsolete else was)
    else if o.levelMerge && freed && i.sorted && was != Obsolete && Littered(a, o.ratio) then ToGC
    else was
  }

  lemma InstalledState(i: FileInfo)
    ensures Installed(i) == i.(state := if i.state == PendingLSM then Normal else i.state)
  {
  }

  lemma SettledParts(i: FileInfo, diff: int, o: Setting)
    ensures Settled(i, diff, o) == i.(discardable := Compacted(i, diff).discardable, state := Settled(i, diff, o).state)
    ensures Settled(i, diff, o).state ==
            if && o.levelMerge && diff < 0 && i.sorted && !Goes(i, diff, o) && i.state != Obsolete
               && Littered(Settled(i, diff, o), o.ratio)
            then ToGC else i.state
  {
  }

  lemma FileState(i: FileInfo, f: nat, inputs: seq<Sizes>, outputs: seq<Sizes>, o: Setting)
    ensures StateAfter(i, AfterCompaction(i, f, inputs, outputs, o), f in Mentioned(outputs) && f !in Mentioned(inputs),
                       Sum(outputs, f) < Sum(inputs, f), Leaves(i, f, inputs, outputs, o), o)
  {
    hide Sum, Mentioned, Installed, Settled, Littered, Compacted;
    InstalledState(i);
    var j := if f in Mentioned(outputs) && f !in Mentioned(inputs) then Installed(i) else i;
    SettledParts(j, Sum(outputs, f) - Sum(inputs, f), o);
    LitteredSame(AfterCompaction(i, f, inputs, outputs, o), Weighed(i, f, inputs, outputs, o), o.ratio);
    GoesSame(i, j, Sum(outputs, f) - Sum(inputs, f), o);
  }

  lemma LitteredSame(i: FileInfo, j: FileInfo, ratio: real)
    ensures i.size == j.size && i.discardable == j.discardable ==> (Littered(i, ratio) <==> Littered(j, ratio))
  {
  }

  lemma GoesSame(i: FileInfo, j: FileInfo, diff: int, o: Setting)
    requires j == i.(state := j.state)
    ensures Goes(i, diff, o) <==> Goes(j, diff, o)
  {
  }

  lemma FileAccount(i: FileInfo, f: nat, ssts: map<nat, Sizes>, ids: seq<nat>, made: seq<(nat, Sizes)>, o: Setting)
    requires DistinctIn(ssts, ids) && FreshIds(ssts, made)
    ensures var inputs, outputs := SizesOf(ssts, ids), MadeSizes(made);
            var a := AfterCompaction(i, f, inputs, outputs, o);
            if Sum(outputs, f) <= Sum(inputs, f)
            then a.discardable + Total(Added(Dropped(ssts, ids), made), f) == i.discardable + Total(ssts, f)
            else a.discardable == i.discardable
  {
    hide Total, Sum, Mentioned, Dropped, Added, SizesOf, MadeSizes, DistinctIn, FreshIds;
    TotalsMove(ssts, ids, made, f);
  }

  lemma Spelled(before: map<nat, FileInfo>, after: map<nat, FileInfo>, ssts: map<nat, Sizes>, ids: seq<nat>,
                made: seq<(nat, Sizes)>, inputs: seq<Sizes>, outputs: seq<Sizes>, o: Setting, deleted: seq<(nat, nat)>)
    requires DistinctIn(ssts, ids) && FreshIds(ssts, made) && inputs == SizesOf(ssts, ids) && outputs == MadeSizes(made)
    requires after.Keys == before.Keys
    requires forall f :: f in after ==> after[f] == AfterCompaction(before[f], f, inputs, outputs, o)
    requires forall f :: f in Firsts(deleted) <==> f in before && Leaves(before[f], f, inputs, outputs, o)
    ensures forall f :: f in after ==> after[f].size == before[f].size && after[f].sorted == before[f].sorted
    ensures forall f :: f in after ==>
              if Sum(outputs, f) <= Sum(inputs, f)
              then after[f].discardable + Total(Added(Dropped(ssts, ids), made), f) ==
                   before[f].discardable + Total(ssts, f)
              else after[f].discardable == before[f].discardable
    ensures forall f :: f in after ==>
              StateAfter(before[f], after[f], f in Mentioned(outputs) && f !in Mentioned(inputs),
                         Sum(outputs, f) < Sum(inputs, f), f in Firsts(deleted), o)
  {
    hide Total, Sum, Mentioned, Dropped, Added, SizesOf, MadeSizes, DistinctIn, FreshIds, AfterCompaction, Leaves,
         StateAfter;
    forall f | f in after
      ensures after[f].size == before[f].size && after[f].sorted == before[f].sorted
      ensures if Sum(outputs, f) <= Sum(inputs, f)
              then after[f].discardable + Total(Added(Dropped(ssts, ids), made), f) ==
                   before[f].discardable + Total(ssts, f)
              else after[f].discardable == before[f].discardable
      ensures StateAfter(before[f], after[f], f in Mentioned(outputs) && f !in Mentioned(inputs),
                         Sum(outputs, f) < Sum(inputs, f), f in Firsts(deleted), o)
    {
      SameFile(before[f], f, inputs, outputs, o);
      FileAccount(before[f], f, ssts, ids, made, o);
      FileState(before[f], f, inputs, outputs, o);
    }
  }

  /** The files to be deleted are live files of their family, so the record is accepted exactly in family 0. */
  lemma AskedFor(before: map<nat, FileInfo>, ssts: map<nat, Sizes>, ids: seq<nat>, made: seq<(nat, Sizes)>,
                 inputs: seq<Sizes>, outputs: seq<Sizes>, o: Setting, families: map<nat, Storage>,
                 deleted: seq<(nat, nat)>)
    requires o.levelMerge && Bounded(before, ssts) && Mirrored(before, families, o.family)
    requires DistinctIn(ssts, ids) && FreshIds(ssts, made) && inputs == SizesOf(ssts, ids) && outputs == MadeSizes(made)
    requires forall f :: f in before && before[f].sorted ==> CompactionOk(before[f], f, inputs, outputs)
    requires Distinct(Firsts(deleted))
    requires forall f :: f in Firsts(deleted) <==> f in before && Leaves(before[f], f, inputs, outputs, o)
    ensures Accepts(families, DeletionRecord(deleted)) <==> deleted == [] || o.family == 0
    ensures Accepts(families, DeletionRecord(deleted)) ==>
              var next := AppliedAll(Gather(map[], DeletionRecord(deleted)).value, families);
              && next.Keys == families.Keys && DeletesFrom(families[0], next[0], deleted)
              && forall cf :: cf in families && cf != 0 ==> next[cf] == families[cf]
    ensures 0 in families
    ensures forall f :: f in Firsts(deleted) ==>
              before[f].sorted && before[f].state != Obsolete && Sum(outputs, f) < Sum(inputs, f)
  {
    hide Total, Sum, Mentioned, Dropped, Added, SizesOf, MadeSizes, CompactionOk, DistinctIn, FreshIds, Covered,
         Balanced, Accepts, AppliedAll, Distinct;
    forall f | f in Firsts(deleted)
      ensures before[f].sorted && before[f].state != Obsolete && Sum(outputs, f) < Sum(inputs, f)
      ensures f in Live(families[o.family])
    {
      FileConserves(before[f], f, ssts, ids, made, o);
    }
    DeletionExact(families, o.family, deleted);
  }

  lemma MirrorKept(before: map<nat, FileInfo>, after: map<nat, FileInfo>, inputs: seq<Sizes>, outputs: seq<Sizes>,
                   o: Setting,
                   st: map<nat, Storage>, next: map<nat, Storage>, deleted: seq<(nat, nat)>)
    requires Mirrored(before, st, o.family) && after.Keys == before.Keys
    requires forall f :: f in after ==> after[f] == AfterCompaction(before[f], f, inputs, outputs, o)
    requires forall f :: f in Firsts(deleted) <==> f in before && Leaves(before[f], f, inputs, outputs, o)
    requires forall f :: f in Firsts(deleted) ==> before[f].state != Obsolete
    requires if o.levelMerge && (deleted == [] || o.family == 0)
             then && next.Keys == st.Keys && DeletesFrom(st[0], next[0], deleted)
                  && forall cf :: cf in st && cf != 0 ==> next[cf] == st[cf]
             else next == st
    ensures Mirrored(after, next, o.family)
    ensures 0 in next
    ensures forall f :: f in Firsts(deleted) && o.family == 0 ==>
              f in next[0] && next[0][f].obsolete.Some? && (f, next[0][f].obsolete.value) in deleted
    ensures forall f :: f in after ==>
              (after[f].state == Obsolete <==>
               before[f].state == Obsolete || (f in Firsts(deleted) && o.family == 0))
  {
    hide Sum, Mentioned;
    assert !o.levelMerge ==> forall f :: f !in Firsts(deleted);
    forall f | f in after
      ensures after[f].state == Obsolete <==> before[f].state == Obsolete || (f in Firsts(deleted) && o.family == 0)
    {
      KeepsObsolete(before[f], f, inputs, outputs, o);
    }
  }

  lemma KeepsObsolete(i: FileInfo, f: nat, inputs: seq<Sizes>, outputs: seq<Sizes>, o: Setting)
    ensures Weighed(i, f, inputs, outputs, o).state == Obsolete <==> i.state == Obsolete
    ensures Deleted(i).state == Obsolete
  {
  }

  /** References after a compaction: those before, less what inputs held, plus what outputs hold. */
  lemma TotalsMove(ssts: map<nat, Sizes>, ids: seq<nat>, made: seq<(nat, Sizes)>, f: nat)
    requires DistinctIn(ssts, ids) && FreshIds(ssts, made)
    ensures Total(Added(Dropped(ssts, ids), made), f) ==
              Total(ssts, f) - Sum(SizesOf(ssts, ids), f) + Sum(MadeSizes(made), f)
    ensures Sum(SizesOf(ssts, ids), f) <= Total(ssts, f)
  {
    TotalDropped(ssts, ids, f);
    var rest := Dropped(ssts, ids);
    assert FreshIds(rest, made);
    TotalAdded(rest, made, f);
  }

  lemma FileConserves(i: FileInfo, f: nat, ssts: map<nat, Sizes>, ids: seq<nat>, made: seq<(nat, Sizes)>, o: Setting)
    requires DistinctIn(ssts, ids) && FreshIds(ssts, made) && i.sorted && o.levelMerge && Covered(i, Total(ssts, f))
    requires CompactionOk(i, f, SizesOf(ssts, ids), MadeSizes(made))
    ensures var inputs, outputs := SizesOf(ssts, ids), MadeSizes(made);
            var t := Total(Added(Dropped(ssts, ids), made), f);
            && Covered(AfterCompaction(i, f, inputs, outputs, o), t)
            && (Balanced(AfterCompaction(i, f, inputs, outputs, o), t) <==> Balanced(i, Total(ssts, f)))
            && (Leaves(i, f, inputs, outputs, o) <==>
                Sum(outputs, f) < Sum(inputs, f) && t == 0 && Balanced(i, Total(ssts, f)))
            && (Sum(outputs, f) < Sum(inputs, f) ==> i.state != Obsolete)
            && (i.state != PendingLSM && Total(ssts, f) == 0 ==> t == 0 && Sum(inputs, f) == 0)
  {
    hide Total, Sum, Mentioned, Dropped, Added, SizesOf, MadeSizes, DistinctIn, FreshIds;
    var inputs, outputs := SizesOf(ssts, ids), MadeSizes(made);
    TotalsMove(ssts, ids, made, f);
    Unmentioned(inputs);
    Unmentioned(outputs);
    if i.state == PendingLSM {
      if f in Mentioned(outputs) { InstallBalanced(i, Sum(outputs, f)); }
    } else {
      SettleBalanced(i, Total(ssts, f), Sum(inputs, f), Sum(outputs, f), o);
    }
  }

  lemma CompactionConserves(before: map<nat, FileInfo>, ssts: map<nat, Sizes>, ids: seq<nat>, made: seq<(nat, Sizes)>,
                            inputs: seq<Sizes>, outputs: seq<Sizes>, o: Setting, after: map<nat, FileInfo>)
    requires o.levelMerge && Bounded(before, ssts) && (forall f :: f in before ==> before[f].size < WRAP)
    requires DistinctIn(ssts, ids) && FreshIds(ssts, made) && inputs == SizesOf(ssts, ids) && outputs == MadeSizes(made)
    requires forall f :: f in before && before[f].sorted ==> CompactionOk(before[f], f, inputs, outputs)
    requires after.Keys == before.Keys
    requires forall f :: f in after ==> after[f] == AfterCompaction(before[f], f, inputs, outputs, o)
    ensures Bounded(after, Added(Dropped(ssts, ids), made)) && forall f :: f in after ==> after[f].size < WRAP
    ensures Conserved(before, ssts) ==> Conserved(after, Added(Dropped(ssts, ids), made))
    ensures forall f :: f in before && before[f].sorted ==>
              var t := Total(Added(Dropped(ssts, ids), made), f);
              && (Balanced(after[f], t) <==> Balanced(before[f], Total(ssts, f)))
              && (Leaves(before[f], f, inputs, outputs, o) <==>
                  Sum(outputs, f) < Sum(inputs, f) && t == 0 && Balanced(before[f], Total(ssts, f)))
              && (before[f].state != PendingLSM && Total(ssts, f) == 0 ==> t == 0 && Sum(inputs, f) == 0)
    ensures forall f :: f in before && Leaves(before[f], f, inputs, outputs, o) ==> before[f].sorted
  {
    hide AfterCompaction, Balanced, Covered, Total, Sum, Mentioned, Dropped, Added, SizesOf, MadeSizes, CompactionOk,
         DistinctIn, FreshIds;
    var live := Added(Dropped(ssts, ids), made);
    forall f | f in after ensures after[f].size == before[f].size && after[f].sorted == before[f].sorted {
      SameFile(before[f], f, inputs, outputs, o);
    }
    forall f | f in before && before[f].sorted
      ensures Covered(after[f], Total(live, f))
      ensures Balanced(after[f], Total(live, f)) <==> Balanced(before[f], Total(ssts, f))
      ensures Leaves(before[f], f, inputs, outputs, o) <==>
              Sum(outputs, f) < Sum(inputs, f) && Total(live, f) == 0 && Balanced(before[f], Total(ssts, f))
      ensures before[f].state != PendingLSM && Total(ssts, f) == 0 ==> Total(live, f) == 0 && Sum(inputs, f) == 0
    {
      FileConserves(before[f], f, ssts, ids, made, o);
    }
  }

  lemma SameFile(i: FileInfo, f: nat, inputs: seq<Sizes>, outputs: seq<Sizes>, o: Setting)
    ensures var a := AfterCompaction(i, f, inputs, outputs, o); a.size == i.size && a.sorted == i.sorted
  {
  }

  lemma FlushConserves(before: map<nat, FileInfo>, after: map<nat, FileInfo>, ssts: map<nat, Sizes>, sst: nat,
                       sizes: Sizes)
    requires Bounded(before, ssts) && sst !in ssts && (forall f :: f in before ==> before[f].size < WRAP)
    requires forall f :: f in sizes && f in before && before[f].sorted ==>
               before[f].state == PendingLSM && Total(ssts, f) == 0 && sizes[f] == Payload(before[f])
    requires after.Keys == before.Keys
    requires forall f :: f in after ==> after[f] == if f in sizes then Flushed(before[f], sizes[f]) else before[f]
    ensures Bounded(after, ssts[sst := sizes]) && forall f :: f in after ==> after[f].size < WRAP
    ensures Conserved(before, ssts) ==> Conserved(after, ssts[sst := sizes])
  {
    hide Balanced, Covered, Total;
    forall f | f in after && after[f].sorted
      ensures Covered(after[f], Total(ssts[sst := sizes], f))
      ensures Balanced(before[f], Total(ssts, f)) ==> Balanced(after[f], Total(ssts[sst := sizes], f))
    {
      TotalAdd(ssts, sst, sizes, f);
      assert before[f].sorted && Covered(before[f], Total(ssts, f));
      if f in sizes {
        PendingBalanced(before[f]);
        FlushBalanced(before[f], sizes[f]);
        BalancedCovered(after[f], sizes[f]);
      }
    }
  }

  lemma PendingBalanced(i: FileInfo)
    requires i.state == PendingLSM
    ensures Balanced(i, 0) <==> Covered(i, 0)
  {
  }

  lemma BalancedCovered(i: FileInfo, referred: nat)
    requires Balanced(i, referred)
    ensures Covered(i, referred)
  {
  }

  // ---------------------------------------------------------------- a run that breaks the assertions

  /**
   * Two flushes refer to the same file, written before the memtable. The second addition is out of range, though
   * the wrapped sum comes out as the bytes neither refers to.
   */
  method SecondFlush(o: Setting, f: nat, size: nat, a: nat, b: nat) returns (s: FileSizes, inRange: bool)
    requires BlobFile.FILE_HEADER + BlobFile.FOOTER + a + b <= size < WRAP / 2 && a > 0 && b > 0
    ensures fresh(s) && s.Valid() && s.ssts == map[0 := map[f := a], 1 := map[f := b]]
    ensures !inRange
    ensures s.files == map[f := FileInfo(size, size - BlobFile.FILE_HEADER - BlobFile.FOOTER - a - b, false, Normal)]
  {
    hide Flushed, FlushAmount, AddsInRange, Total, Conserved, Bounded, Balanced;
    s := new FileSizes(o);
    NoReferences(f);
    s.Register(f, size, false, Reset);
    var i := FlushSole(s, f, 0, a, FileInfo(size, 0, false, Normal));
    FlushInRangeExact(i, b);
    inRange := AddsInRange(i, FlushAmount(i, b));
    i := FlushSole(s, f, 1, b, i);
  }

  /** A flush that refers to the only, unsorted file. */
  method FlushSole(s: FileSizes, f: nat, sst: nat, referred: nat, i: FileInfo) returns (j: FileInfo)
    requires s.Valid() && s.files == map[f := i] && !i.sorted && i.state == Normal && sst !in s.ssts && i.size < WRAP
    requires if i.discardable == 0 then referred <= Payload(i) else 0 < referred <= i.discardable < WRAP
    modifies s
    ensures s.Valid() && s.ssts == old(s.ssts)[sst := map[f := referred]] && s.files == map[f := j]
    ensures j == i.(discardable := if i.discardable == 0 then Payload(i) - referred else i.discardable - referred)
  {
    hide Flushed, Total, Conserved, Bounded, Balanced;
    var sizes: Sizes := map[f := referred];
    s.OnFlushCompleted(sst, sizes);
    j := s.files[f];
    assert s.files.Keys == {f};
  }

  lemma NoReferences(f: nat)
    ensures Total(map[], f) == 0
  {
  }
}
