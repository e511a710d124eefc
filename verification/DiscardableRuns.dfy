/** Runs of the accounting of discardable bytes: what a reopen loses is never found again. */
module DiscardableRuns {
  import opened Optional
  import opened BlobFileState
  import BlobFile
  import opened ManifestLog
  import opened Manifest
  import opened ManifestRuns
  import opened DiscardableBytes

  // ---------------------------------------------------------------- every run

  datatype Account = Account(files: map<nat, FileInfo>, ssts: map<nat, Sizes>)

  datatype Event =
    | Register(file: nat, size: nat)
    | Flush(sst: nat, sizes: Sizes)
    | Compact(ids: seq<nat>, made: seq<(nat, Sizes)>)
    | Reopen(now: map<nat, Sizes>)

  /** What the handlers are given, under level merge. */
  ghost predicate Enabled(a: Account, e: Event) {
    match e
    case Register(f, size) =>
      f !in a.files && BlobFile.FILE_HEADER + BlobFile.FOOTER < size < WRAP && Total(a.ssts, f) == 0
    case Flush(sst, sizes) =>
      && sst !in a.ssts
      && forall f :: f in sizes && f in a.files && a.files[f].sorted ==>
           a.files[f].state == PendingLSM && Total(a.ssts, f) == 0 && sizes[f] == Payload(a.files[f])
    case Compact(ids, made) =>
      && DistinctIn(a.ssts, ids) && FreshIds(a.ssts, made)
      && forall f :: f in a.files && a.files[f].sorted ==>
           CompactionOk(a.files[f], f, SizesOf(a.ssts, ids), MadeSizes(made))
    case Reopen(now) => Fits(a.files, a.ssts, now)
  }

  function FlushedAll(files: map<nat, FileInfo>, sizes: Sizes): map<nat, FileInfo> {
    map f | f in files :: if f in sizes then Flushed(files[f], sizes[f]) else files[f]
  }

  function CompactedAll(files: map<nat, FileInfo>, inputs: seq<Sizes>, outputs: seq<Sizes>, o: Setting)
    : map<nat, FileInfo>
  {
    map f | f in files :: AfterCompaction(files[f], f, inputs, outputs, o)
  }

  ghost function Next(a: Account, e: Event, o: Setting): Account
    requires Enabled(a, e)
  {
    match e
    case Register(f, size) => a.(files := a.files[f := FileInfo(size, 0, true, PendingLSM)])
    case Flush(sst, sizes) => Account(FlushedAll(a.files, sizes), a.ssts[sst := sizes])
    case Compact(ids, made) =>
      Account(CompactedAll(a.files, SizesOf(a.ssts, ids), MadeSizes(made), o), Added(Dropped(a.ssts, ids), made))
    case Reopen(now) => Account(Reopened(a.files), now)
  }

  ghost predicate Sane(a: Account) { Bounded(a.files, a.ssts) && forall f :: f in a.files ==> a.files[f].size < WRAP }

  /** A live sorted file some of whose bytes are neither referred to nor known to be discardable. */
  ghost predicate Short(a: Account, f: nat) {
    && f in a.files && a.files[f].sorted && a.files[f].state !in {PendingLSM, Obsolete}
    && a.files[f].discardable + Total(a.ssts, f) < Payload(a.files[f])
  }

  lemma StepSane(a: Account, e: Event, o: Setting)
    requires Sane(a) && Enabled(a, e) && o.levelMerge
    ensures Sane(Next(a, e, o))
  {
    hide Total, Conserved, Bounded, CompactionOk, DistinctIn, FreshIds, Added, Dropped, SizesOf, MadeSizes, Fits,
         Flushed,
         AfterCompaction;
    match e
    case Register(f, size) => RegisterBounded(a, f, size);
    case Flush(sst, sizes) => FlushConserves(a.files, Next(a, e, o).files, a.ssts, sst, sizes);
    case Compact(ids, made) =>
      CompactionConserves(a.files, a.ssts, ids, made, SizesOf(a.ssts, ids), MadeSizes(made), o, Next(a, e, o).files);
    case Reopen(now) => ReopenExact(a.files, a.ssts, now);
  }

  lemma RegisterBounded(a: Account, f: nat, size: nat)
    requires Sane(a) && Enabled(a, Register(f, size))
    ensures Sane(a.(files := a.files[f := FileInfo(size, 0, true, PendingLSM)]))
  {
    hide Total;
  }

  lemma ShortStep(a: Account, e: Event, o: Setting, f: nat)
    requires Sane(a) && Enabled(a, e) && o.levelMerge && Short(a, f)
    ensures Short(Next(a, e, o), f)
  {
    hide Total, CompactionOk, DistinctIn, FreshIds, Added, Dropped, SizesOf, MadeSizes, AfterCompaction, Conserved;
    match e
    case Register(g, size) =>
    case Flush(sst, sizes) => TotalAdd(a.ssts, sst, sizes, f);
    case Compact(ids, made) => ShortCompacted(a, ids, made, o, f);
    case Reopen(now) =>
  }

  lemma ShortCompacted(a: Account, ids: seq<nat>, made: seq<(nat, Sizes)>, o: Setting, f: nat)
    requires Sane(a) && Enabled(a, Compact(ids, made)) && o.levelMerge && Short(a, f)
    ensures Short(Next(a, Compact(ids, made), o), f)
  {
    hide Total, Sum, Mentioned, CompactionOk, DistinctIn, FreshIds, Added, Dropped, SizesOf, MadeSizes, Settled, Goes;
    FileConserves(a.files[f], f, a.ssts, ids, made, o);
    StateKept(a.files[f], f, SizesOf(a.ssts, ids), MadeSizes(made), o);
    SameFile(a.files[f], f, SizesOf(a.ssts, ids), MadeSizes(made), o);
    hide AfterCompaction;
  }

  lemma StateKept(i: FileInfo, f: nat, inputs: seq<Sizes>, outputs: seq<Sizes>, o: Setting)
    requires i.state !in {PendingLSM, Obsolete}
    ensures AfterCompaction(i, f, inputs, outputs, o).state != PendingLSM
    ensures !Leaves(i, f, inputs, outputs, o) ==> AfterCompaction(i, f, inputs, outputs, o).state != Obsolete
  {
    hide Sum, Mentioned;
  }

  ghost predicate ValidRun(a: Account, run: seq<Event>, o: Setting)
    decreases |run|
  {
    run == [] || (Enabled(a, run[0]) && ValidRun(Next(a, run[0], o), run[1..], o))
  }

  ghost function Exec(a: Account, run: seq<Event>, o: Setting): Account
    requires ValidRun(a, run, o)
    decreases |run|
  {
    if run == [] then a else Exec(Next(a, run[0], o), run[1..], o)
  }

  /** Whatever flushes, compactions and reopens follow, a file with a short account is never deleted, in any family. */
  lemma {:induction false} ShortForever(a: Account, run: seq<Event>, o: Setting, f: nat)
    requires Sane(a) && ValidRun(a, run, o) && o.levelMerge && Short(a, f)
    ensures Sane(Exec(a, run, o)) && Short(Exec(a, run, o), f)
    decreases |run|
  {
    hide Sane, Short, Enabled, Next;
    if run != [] {
      StepSane(a, run[0], o);
      ShortStep(a, run[0], o, f);
      ShortForever(Next(a, run[0], o), run[1..], o, f);
    }
  }

  /** A reopen makes a live sorted file short if and only if part of it is not referred to. */
  lemma ReopenShortens(a: Account, now: map<nat, Sizes>, o: Setting, f: nat)
    requires Sane(a) && Enabled(a, Reopen(now)) && f in a.files && a.files[f].sorted && a.files[f].state != Obsolete
    ensures Short(Next(a, Reopen(now), o), f) <==> Total(now, f) < Payload(a.files[f])
  {
    hide Total;
  }

  // ---------------------------------------------------------------- a run of the handlers

  function Sole(n: nat, size: nat): Sizes { map[n := size] }

  lemma SoleSums(n: nat, size: nat)
    ensures Sum([Sole(n, size)], n) == size && Mentioned([Sole(n, size)]) == {n}
    ensures forall f :: f != n ==> Sum([Sole(n, size)], f) == 0
    ensures Sum([], n) == 0 && Mentioned([]) == {}
  {
    var one := [Sole(n, size)];
    assert one[..0] == [];
    assert n in one[0];
  }

  lemma SoleTotal(sst: nat, n: nat, size: nat)
    ensures Total(map[sst := Sole(n, size)], n) == size && Total(map[], n) == 0
  {
    var none: map<nat, Sizes> := map[];
    TotalAdd(none, sst, Sole(n, size), n);
    assert none[sst := Sole(n, size)] == map[sst := Sole(n, size)];
  }

  /** A state of the run: one file, sorted and live, and one SST that refers to it. */
  ghost predicate Holding(s: FileSizes, fileSet: BlobFileSet, n: nat, size: nat, sst: nat, referred: nat)
    reads s, fileSet
  {
    && s.Valid() && fileSet.Valid() && fileSet.Careful() && s.InStep(fileSet)
    && s.o.levelMerge && s.o.family == 0 && s.ssts == map[sst := Sole(n, referred)] && s.files.Keys == {n}
    && s.files[n].size == size && s.files[n].sorted && s.files[n].state !in {PendingLSM, Obsolete}
  }

  /** A file set with one file. */
  method OneFile(size: nat) returns (fileSet: BlobFileSet, n: nat)
    ensures fresh(fileSet) && fileSet.Valid() && fileSet.Careful() && fileSet.families.Keys == {0}
    ensures fileSet.families[0].Keys == {n} && fileSet.families[0][n].obsolete == None
  {
    hide Climbs, LastNext, HasNext, Below, Unused, Manifest.Faithful, EditsOf, GatherAll;
    fileSet := new BlobFileSet({0});
    fileSet.Open();
    var f := AddFresh(fileSet, 0, size);
    n := f.number;
  }

  /** A new file goes to its SST whole. */
  method FlushWhole(size: nat, payload: nat, ratio: real) returns (s: FileSizes, fileSet: BlobFileSet, n: nat)
    requires BlobFile.FILE_HEADER + BlobFile.FOOTER + payload == size < WRAP && payload > 0
    ensures Holding(s, fileSet, n, size, 0, payload) && Balanced(s.files[n], payload) && fresh(s) && fresh(fileSet)
  {
    hide Total, Conserved, Bounded, Climbs, LastNext, HasNext, Below, Unused, Manifest.Faithful, EditsOf, GatherAll,
         Flushed;
    fileSet, n := OneFile(size);
    s := new FileSizes(Setting(true, 0, ratio));
    SoleTotal(0, n, payload);
    s.Register(n, size, true, FlushOrCompactionOutput);
    s.OnFlushCompleted(0, Sole(n, payload));
  }

  /** A compaction replaces SST 0 by SST 1, which refers to less. */
  method DropPart(s: FileSizes, fileSet: BlobFileSet, n: nat, size: nat, payload: nat, rest: nat)
    requires Holding(s, fileSet, n, size, 0, payload) && 0 < rest < payload && Balanced(s.files[n], payload)
    modifies s, fileSet
    ensures Holding(s, fileSet, n, size, 1, rest) && Balanced(s.files[n], rest)
  {
    hide Total, Conserved, Bounded, Balanced, Sum, Mentioned, Climbs, LastNext, HasNext, Below, Unused,
         Manifest.Faithful,
         AfterCompaction, Mirrored, Distinct;
    SoleSums(n, payload);
    SoleSums(n, rest);
    SoleTotal(0, n, payload);
    SoleTotal(1, n, rest);
    ghost var made: seq<(nat, Sizes)> := [(1, Sole(n, rest))];
    var inputs, outputs := [Sole(n, payload)], [Sole(n, rest)];
    OneForOne(s.ssts, Sole(n, payload), Sole(n, rest));
    StateKept(s.files[n], n, inputs, outputs, s.o);
    SameFile(s.files[n], n, inputs, outputs, s.o);
    var deleted, status := s.OnCompactionCompleted(inputs, outputs, fileSet, 0, [0], made);
  }

  lemma OneForOne(ssts: map<nat, Sizes>, a: Sizes, b: Sizes)
    requires ssts == map[0 := a]
    ensures var made: seq<(nat, Sizes)> := [(1, b)];
            && DistinctIn(ssts, [0]) && SizesOf(ssts, [0]) == [a] && FreshIds(ssts, made) && MadeSizes(made) == [b]
            && Added(Dropped(ssts, [0]), made) == map[1 := b]
  {
    var made: seq<(nat, Sizes)> := [(1, b)];
    assert made[..0] == [] && [0][..0] == [];
    assert Dropped(ssts, [0]) == map[];
    assert Added(map[], made) == map[1 := b];
  }

  lemma OneForNone(ssts: map<nat, Sizes>, a: Sizes)
    requires ssts == map[1 := a]
    ensures DistinctIn(ssts, [1]) && SizesOf(ssts, [1]) == [a] && FreshIds(ssts, []) && MadeSizes([]) == []
    ensures Added(Dropped(ssts, [1]), []) == map[]
  {
    assert [1][..0] == [];
    assert Dropped(ssts, [1]) == map[];
  }

  /** The process ends and comes back. */
  method ComeBack(s: FileSizes, before: BlobFileSet, n: nat, size: nat, sst: nat, rest: nat)
    returns (fileSet: BlobFileSet)
    requires Holding(s, before, n, size, sst, rest) && rest < Payload(s.files[n])
    modifies s
    ensures Holding(s, fileSet, n, size, sst, rest) && !Balanced(s.files[n], rest) && fresh(fileSet)
  {
    hide Conserved, Bounded, Climbs, LastNext, HasNext, Below, Unused, Manifest.Faithful, Mirrored, Live;
    SoleTotal(sst, n, rest);
    hide Total;
    var status;
    status, fileSet := Manifest.Reopen(before);
    ReopenMirrors(s.files, before.families, fileSet.families, 0);
    assert Fits(s.files, s.ssts, s.ssts);
    s.Reopen(s.ssts);
  }

  /** A compaction drops SST 1 and puts nothing in its place. */
  method DropRest(s: FileSizes, fileSet: BlobFileSet, n: nat, size: nat, rest: nat) returns (deleted: seq<(nat, nat)>)
    requires Holding(s, fileSet, n, size, 1, rest) && rest > 0
    modifies s, fileSet
    ensures s.Valid() && fileSet.Valid() && s.InStep(fileSet) && s.ssts == map[] && s.files.Keys == {n}
    ensures deleted == [] <==> !old(Balanced(s.files[n], rest))
    ensures s.files[n].sorted && (s.files[n].state == Obsolete <==> deleted != [])
  {
    hide Total, Conserved, Bounded, Balanced, Sum, Mentioned, Climbs, LastNext, HasNext, Below, Unused,
         Manifest.Faithful,
         AfterCompaction, Mirrored, Distinct;
    SoleSums(n, rest);
    SoleTotal(1, n, rest);
    var inputs := [Sole(n, rest)];
    OneForNone(s.ssts, Sole(n, rest));
    SameFile(s.files[n], n, inputs, [], s.o);
    var status;
    deleted, status := s.OnCompactionCompleted(inputs, [], fileSet, 0, [1], []);
    SomeFirst(deleted);
  }

  /**
   * A file of family 0 is flushed whole; a compaction drops part of it; the process may end and come back; a second
   * compaction drops the rest. The file is deleted if and only if the process did not end.
   */
  method ReopenLeaks(payload: nat, rest: nat, ratio: real, reopen: bool)
    returns (s: FileSizes, fileSet: BlobFileSet, n: nat, deleted: seq<(nat, nat)>)
    requires BlobFile.FILE_HEADER + BlobFile.FOOTER + payload < WRAP && 0 < rest < payload
    ensures s.Valid() && fileSet.Valid() && s.InStep(fileSet) && s.ssts == map[] && n in s.files && s.files[n].sorted
    ensures (deleted == [] <==> reopen) && (s.files[n].state == Obsolete <==> !reopen)
  {
    hide Balanced;
    var size := BlobFile.FILE_HEADER + BlobFile.FOOTER + payload;
    s, fileSet, n := FlushWhole(size, payload, ratio);
    DropPart(s, fileSet, n, size, payload, rest);
    if reopen {
      fileSet := ComeBack(s, fileSet, n, size, 1, rest);
    }
    deleted := DropRest(s, fileSet, n, size, rest);
  }
}
