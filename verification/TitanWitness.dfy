/**
 * Runs that reach the states in which an unchecked rewrite loses an update and a stale purge leaves a snapshot
 * unreadable.
 */
module TitanWitness {
  import opened Optional
  import opened BlobFileState
  import opened TitanProtocol
  import opened TitanInvariant
  import opened TitanTheorems

  lemma {:induction false} ValidAppend(st: State, run: seq<Action>, a: Action)
    requires ValidRun(st, run) && Enabled(Exec(st, run), a)
    ensures ValidRun(st, run + [a]) && Exec(st, run + [a]) == Apply(Exec(st, run), a)
    decreases |run|
  {
    if run == [] {
      assert [a][1..] == [];
    } else {
      assert (run + [a])[1..] == run[1..] + [a];
      ValidAppend(Apply(st, run[0]), run[1..], a);
    }
  }

  /** Key k has been flushed to blob file 0. */
  predicate Flushed(st: State, k: Key, v: Value, h: BlobHandle, snaps: map<nat, nat>) {
    && st.config == Config(false, false, 0)
    && st.history == [Live(k, Index(BlobIndex(0, h)))] && st.truth == [Some(v)]
    && st.files == map[0 := BlobFile(true, false, map[h := Record(k, v)], Normal, 0)]
    && st.nextFile == 1 && st.registered == {0} && st.snaps == snaps && st.builds == map[] && st.jobs == map[]
  }

  function FlushAction(k: Key, v: Value, h: BlobHandle): Action {
    BuildFinish(0, true, map[0 := map[h := Record(k, v)]], map[0 := Live(k, Index(BlobIndex(0, h)))], 1)
  }

  predicate Written(st: State, k: Key, v: Value) {
    && st.config == Config(false, false, 0)
    && st.history == [Live(k, Inline(v))] && st.truth == [Some(v)]
    && st.files == map[] && st.nextFile == 0 && st.registered == {} && st.snaps == map[] && st.builds == map[]
    && st.jobs == map[]
  }

  predicate Built(st: State, k: Key, v: Value, h: BlobHandle) {
    && st.config == Config(false, false, 0)
    && st.history == [Live(k, Inline(v))] && st.truth == [Some(v)]
    && st.files == map[0 := BlobFile(true, false, map[h := Record(k, v)], PendingLSM, 0)]
    && st.nextFile == 1 && st.registered == {0} && st.snaps == map[] && st.jobs == map[]
    && st.builds == map[0 := Build(true, {0}, map[0 := Live(k, Index(BlobIndex(0, h)))], false)]
  }

  lemma StepBuilt(st: State, k: Key, v: Value, h: BlobHandle)
    requires Written(st, k, v)
    ensures Enabled(st, FlushAction(k, v, h)) && Built(Apply(st, FlushAction(k, v, h)), k, v, h)
  {
    var outputs: map<nat, Records> := map[0 := map[h := Record(k, v)]];
    assert outputs.Keys == {0};
    assert PlanEntryOk(st, map[0 := map[h := Record(k, v)]], 0, Live(k, Index(BlobIndex(0, h))));
    assert Apply(st, FlushAction(k, v, h)).files ==
        map[0 := BlobFile(true, false, map[h := Record(k, v)], PendingLSM, 0)];
  }

  lemma StepFlushed(st: State, k: Key, v: Value, h: BlobHandle)
    requires Built(st, k, v, h)
    ensures Enabled(st, BuildInstall(0))
    ensures var mid := Apply(st, BuildInstall(0));
            Enabled(mid, BuildComplete(0, {})) && Flushed(Apply(mid, BuildComplete(0, {})), k, v, h, map[])
  {
    var mid := Apply(st, BuildInstall(0));
    assert mid.history == [Live(k, Index(BlobIndex(0, h)))];
    var st' := Apply(mid, BuildComplete(0, {}));
    assert st'.files == map[0 := BlobFile(true, false, map[h := Record(k, v)], Normal, 0)];
  }

  lemma ReachFlushed(st: State, k: Key, v: Value, h: BlobHandle) returns (run: seq<Action>)
    requires Initial(st) && st.config == Config(false, false, 0) && st.nextFile == 0
    ensures ValidRun(st, run) && Flushed(Exec(st, run), k, v, h, map[])
  {
    run := [];
    ValidAppend(st, run, Put(k, v));
    run := run + [Put(k, v)];
    assert Written(Exec(st, run), k, v);
    hide Apply, Enabled, Built, Flushed, Written;
    StepBuilt(Exec(st, run), k, v, h);
    ValidAppend(st, run, FlushAction(k, v, h));
    run := run + [FlushAction(k, v, h)];
    StepFlushed(Exec(st, run), k, v, h);
    ValidAppend(st, run, BuildInstall(0));
    run := run + [BuildInstall(0)];
    ValidAppend(st, run, BuildComplete(0, {}));
    run := run + [BuildComplete(0, {})];
  }

  predicate Picked(st: State, k: Key, v: Value, h: BlobHandle, snaps: map<nat, nat>) {
    && st.config == Config(false, false, 0)
    && st.history == [Live(k, Index(BlobIndex(0, h)))] && st.truth == [Some(v)]
    && st.files == map[0 := BlobFile(true, false, map[h := Record(k, v)], BeingGC, 0)]
    && st.nextFile == 1 && st.snaps == snaps
    && st.jobs == map[0 := GcJob({0}, {BlobIndex(0, h)}, [], map[], false)]
  }

  function Copying(k: Key, v: Value, h: BlobHandle, installed: bool): GcJob {
    GcJob({0}, {}, [Batch(k, BlobIndex(0, h), BlobIndex(1, h))], map[1 := map[h := Record(k, v)]], installed)
  }

  /** Key k scanned, copied to registered file 1 and about to be rewritten. */
  predicate AboutToRewrite(st: State, k: Key, v: Value, h: BlobHandle, snaps: map<nat, nat>) {
    && st.history == [Live(k, Index(BlobIndex(0, h)))] && st.truth == [Some(v)] && st.snaps == snaps
    && 0 in st.files && st.files[0].state == BeingGC
    && st.jobs == map[0 := Copying(k, v, h, true)]
    && ValueAt(st.files, BlobIndex(1, h)) == Some(v)
  }

  /** The rewrite is done and file 0 is obsolete; only a snapshot sees the old version. */
  predicate Collected(st: State, k: Key, v: Value, h: BlobHandle, snaps: map<nat, nat>) {
    && st.history == [Live(k, Index(BlobIndex(0, h))), Live(k, Index(BlobIndex(1, h)))]
    && st.truth == [Some(v), Some(v)]
    && st.snaps == snaps
    && 0 in st.files && st.files[0].state == Obsolete && st.files[0].obsoleteAt == 2
  }

  lemma StepPicked(st: State, k: Key, v: Value, h: BlobHandle, snaps: map<nat, nat>)
    requires Flushed(st, k, v, h, snaps)
    ensures Enabled(st, GcStart(0, {0})) && Picked(Apply(st, GcStart(0, {0})), k, v, h, snaps)
  {
    var st' := Apply(st, GcStart(0, {0}));
    assert st'.files == map[0 := BlobFile(true, false, map[h := Record(k, v)], BeingGC, 0)];
    assert RecordsOf(st.files, {0}) == {BlobIndex(0, h)};
  }

  function ScanAction(h: BlobHandle): Action { GcScan(0, BlobIndex(0, h), BlobIndex(1, h)) }

  lemma StepScanned(st: State, k: Key, v: Value, h: BlobHandle, snaps: map<nat, nat>)
    requires Picked(st, k, v, h, snaps)
    ensures Enabled(st, ScanAction(h)) && Enabled(Apply(st, ScanAction(h)), GcInstall(0))
    ensures AboutToRewrite(Apply(Apply(st, ScanAction(h)), GcInstall(0)), k, v, h, snaps)
  {
    FindIs(st.history, k, 1, 0);
    var mid := Apply(st, ScanAction(h));
    assert mid.jobs[0] == Copying(k, v, h, false) && mid.jobs.Keys == {0};
    assert mid.files == st.files && mid.history == st.history;
    hide Scanned, VisCell, Find;
  }

  predicate Rewritten(st: State, k: Key, v: Value, h: BlobHandle, snaps: map<nat, nat>) {
    && st.history == [Live(k, Index(BlobIndex(0, h))), Live(k, Index(BlobIndex(1, h)))]
    && st.truth == [Some(v), Some(v)]
    && st.snaps == snaps && 0 in st.files && st.files[0].state == BeingGC
    && st.jobs == map[0 := Copying(k, v, h, true).(batches := [])]
  }

  lemma StepRewritten(st: State, k: Key, v: Value, h: BlobHandle, snaps: map<nat, nat>)
    requires AboutToRewrite(st, k, v, h, snaps)
    ensures Enabled(st, GcRewrite(0)) && Rewritten(Apply(st, GcRewrite(0)), k, v, h, snaps)
  {
    FindIs(st.history, k, 1, 0);
    var job := st.jobs[0];
    assert Apply(st, GcRewrite(0)) == RewrittenPlain(st, 0);
    assert job.batches[1..] == [];
  }

  lemma StepCollected(st: State, k: Key, v: Value, h: BlobHandle, snaps: map<nat, nat>)
    requires Rewritten(st, k, v, h, snaps)
    ensures Enabled(st, GcFinish(0)) && Collected(Apply(st, GcFinish(0)), k, v, h, snaps)
  {
    assert Apply(st, GcFinish(0)) == GcFinished(st, 0);
  }

  /** GC of file 0 up to the point where key k is to be rewritten. */
  lemma ReachAboutToRewrite(st: State, prefix: seq<Action>, k: Key, v: Value, h: BlobHandle, snaps: map<nat, nat>)
    returns (run: seq<Action>)
    requires ValidRun(st, prefix) && Flushed(Exec(st, prefix), k, v, h, snaps)
    ensures prefix <= run && ValidRun(st, run) && AboutToRewrite(Exec(st, run), k, v, h, snaps)
  {
    hide *;
    StepPicked(Exec(st, prefix), k, v, h, snaps);
    ValidAppend(st, prefix, GcStart(0, {0}));
    run := prefix + [GcStart(0, {0})];
    StepScanned(Exec(st, run), k, v, h, snaps);
    ValidAppend(st, run, ScanAction(h));
    run := run + [ScanAction(h)];
    ValidAppend(st, run, GcInstall(0));
    run := run + [GcInstall(0)];
  }

  lemma ReachCollected(st: State, prefix: seq<Action>, k: Key, v: Value, h: BlobHandle, snaps: map<nat, nat>)
    returns (run: seq<Action>)
    requires ValidRun(st, prefix) && Flushed(Exec(st, prefix), k, v, h, snaps)
    ensures prefix <= run && ValidRun(st, run) && Collected(Exec(st, run), k, v, h, snaps)
  {
    hide *;
    run := ReachAboutToRewrite(st, prefix, k, v, h, snaps);
    StepRewritten(Exec(st, run), k, v, h, snaps);
    ValidAppend(st, run, GcRewrite(0));
    run := run + [GcRewrite(0)];
    StepCollected(Exec(st, run), k, v, h, snaps);
    ValidAppend(st, run, GcFinish(0));
    run := run + [GcFinish(0)];
  }

  /** The state in which an unchecked rewrite can lose an update is reachable, for any key and value. */
  lemma LostUpdateReachable(st: State, k: Key, v: Value, w: Value, h: BlobHandle) returns (run: seq<Action>)
    requires Initial(st) && st.config == Config(false, false, 0) && st.nextFile == 0 && v != w
    ensures ValidRun(st, run) && Enabled(Exec(st, run), GcRewrite(0))
    ensures var st' := Exec(st, run);
            && |st'.history| > 0 && st'.history[|st'.history| - 1] == Live(k, Inline(w))
            && Read(RewrittenPlain(st', 0), k, Latest(st') + 1) == Found(v)
  {
    run := ReachFlushed(st, k, v, h);
    run := ReachAboutToRewrite(st, run, k, v, h, map[]);
    run := PutThenRewrite(st, run, k, v, w, h);
  }

  lemma PutThenRewrite(st: State, prefix: seq<Action>, k: Key, v: Value, w: Value,
                       h: BlobHandle) returns (run: seq<Action>)
    requires Initial(st) && ValidRun(st, prefix) && AboutToRewrite(Exec(st, prefix), k, v, h, map[])
    ensures ValidRun(st, run) && Enabled(Exec(st, run), GcRewrite(0))
    ensures var st' := Exec(st, run);
            && |st'.history| > 0 && st'.history[|st'.history| - 1] == Live(k, Inline(w))
            && Read(RewrittenPlain(st', 0), k, Latest(st') + 1) == Found(v)
  {
    hide Inv, Read, VisCell, Find, RewrittenPlain, Exec, ValidRun;
    InitialInv(st);
    ValidAppend(st, prefix, Put(k, w));
    run := prefix + [Put(k, w)];
    RunRefines(st, Spec(map[], map[]), run);
    ReadAfterPlainRewrite(Exec(st, run), 0, k);
  }

  // ---------------------------------------------------------------- the stale purge

  const MAX_SEQUENCE: nat := 0xFF_FFFF_FFFF_FFFF

  /**
   * What the purge reads before it takes the lock: the oldest snapshot, or the largest sequence number if there is
   * none.
   */
  ghost predicate OldestSnapshot(snaps: map<nat, nat>, s: nat) {
    if snaps == map[] then s == MAX_SEQUENCE
    else (exists id :: id in snaps && snaps[id] == s) && forall id :: id in snaps ==> s <= snaps[id]
  }

  lemma StepSnapshot(st: State, k: Key, v: Value, h: BlobHandle)
    requires Flushed(st, k, v, h, map[])
    ensures Enabled(st, TakeSnapshot(0)) && Flushed(Apply(st, TakeSnapshot(0)), k, v, h, map[0 := 1])
  {
  }

  /**
   A purge reads the oldest snapshot in one state of a run and removes files in a later one. In between a snapshot
   is taken and a GC finishes; the purge then makes that snapshot unreadable, for any key and value.
   */
  lemma StalePurgeReachable(st: State, k: Key, v: Value, h: BlobHandle) returns (early: seq<Action>, run: seq<Action>)
    requires Initial(st) && st.config == Config(false, false, 0) && st.nextFile == 0
    ensures early <= run && ValidRun(st, early) && ValidRun(st, run)
    ensures OldestSnapshot(Exec(st, early).snaps, MAX_SEQUENCE)
    ensures var late := Exec(st, run);
            && late.snaps == map[0 := 1] && Latest(late) == 2
            && Read(late, k, 1) == Found(v) && Read(PurgedWith(late, MAX_SEQUENCE), k, 1) == Corruption
  {
    early := ReachFlushed(st, k, v, h);
    assert Exec(st, early).snaps == map[];
    hide Exec, ValidRun, Flushed, Apply, Enabled;
    StepSnapshot(Exec(st, early), k, v, h);
    ValidAppend(st, early, TakeSnapshot(0));
    run := ReachCollected(st, early + [TakeSnapshot(0)], k, v, h, map[0 := 1]);
    InitialInv(st);
    RunRefines(st, Spec(map[], map[]), run);
    CollectedPurge(Exec(st, run), k, v, h);
  }

  lemma CollectedPurge(st: State, k: Key, v: Value, h: BlobHandle)
    requires Inv(st) && Collected(st, k, v, h, map[0 := 1])
    ensures Latest(st) == 2 && Read(st, k, 1) == Found(v) && Read(PurgedWith(st, MAX_SEQUENCE), k, 1) == Corruption
  {
    hide Inv, Read;
    FindIs(st.history, k, 1, 0);
    assert st.snaps[0] == 1 && IsView(st.history, st.snaps, 1);
    ReadIsTruth(st, k, 1);
    PurgedRead(st, MAX_SEQUENCE, k, 1);
  }
}
