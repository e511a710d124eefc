/** What becomes of the files of jobs and builds that have ended, over every run of the protocol. */
module TitanProgress {
  import opened Optional
  import opened BlobFileState
  import opened TitanProtocol
  import opened TitanInvariant
  import opened TitanTheorems

  // ---------------------------------------------------------------- GC states belong to running jobs

  predicate OwnedBy(jobs: map<nat, GcJob>, f: nat, s: FileState) {
    && (s == BeingGC ==> exists j :: j in jobs && f in jobs[j].inputs)
    && (s == PendingGC ==> exists j :: j in jobs && jobs[j].installed && f in jobs[j].out)
  }

  /** A file being collected is an input of a running job, a pending output one of a running installed job. */
  predicate Owned(st: State) {
    forall f :: f in st.files ==> OwnedBy(st.jobs, f, st.files[f].state)
  }

  /** Jobs stay, with the same inputs, and an installed one with the same outputs. */
  ghost predicate JobsStay(jobs: map<nat, GcJob>, jobs': map<nat, GcJob>) {
    forall j :: j in jobs ==>
      && j in jobs' && jobs'[j].inputs == jobs[j].inputs
      && (jobs[j].installed ==> jobs'[j].installed && jobs'[j].out == jobs[j].out)
  }

  lemma OwnedStays(jobs: map<nat, GcJob>, jobs': map<nat, GcJob>, f: nat, s: FileState)
    requires OwnedBy(jobs, f, s) && JobsStay(jobs, jobs')
    ensures OwnedBy(jobs', f, s)
  {
    if s == BeingGC { var j :| j in jobs && f in jobs[j].inputs; assert j in jobs' && f in jobs'[j].inputs; }
    if s == PendingGC {
      var j :| j in jobs && jobs[j].installed && f in jobs[j].out;
      assert j in jobs' && jobs'[j].installed && f in jobs'[j].out;
    }
  }

  /** Only the start and the outputs of a GC bring the two states about. */
  lemma OnlyGcMakesThem(s: FileState, e: FileEvent)
    requires e !in {GCBegin, GCOutput}
    ensures Moved(s, e) in {BeingGC, PendingGC} ==> Moved(s, e) == s
    ensures e == GCCompleted ==> Moved(s, e) !in {BeingGC, PendingGC}
  {
  }

  /** A step after which every file is as before, or in neither state. */
  lemma QuietOwned(st: State, st': State)
    requires Owned(st) && JobsStay(st.jobs, st'.jobs)
    requires forall f :: f in st'.files && st'.files[f].state in {BeingGC, PendingGC} ==>
               f in st.files && st.files[f].state == st'.files[f].state
    ensures Owned(st')
  {
    hide OwnedBy, JobsStay;
    forall f | f in st'.files ensures OwnedBy(st'.jobs, f, st'.files[f].state) {
      if st'.files[f].state in {BeingGC, PendingGC} {
        OwnedStays(st.jobs, st'.jobs, f, st.files[f].state);
      } else {
        OtherwiseOwned(st'.jobs, f, st'.files[f].state);
      }
    }
  }

  lemma OtherwiseOwned(jobs: map<nat, GcJob>, f: nat, s: FileState)
    requires s !in {BeingGC, PendingGC}
    ensures OwnedBy(jobs, f, s)
  {
  }

  lemma SignalQuiet(files: Files, fs: set<nat>, e: FileEvent, f: nat)
    requires e !in {GCBegin, GCOutput} && f in Signal(files, fs, e)
    ensures f in files
    ensures Signal(files, fs, e)[f].state in {BeingGC, PendingGC} ==> files[f].state == Signal(files, fs, e)[f].state
    ensures e == GCCompleted && f in fs ==> Signal(files, fs, e)[f].state !in {BeingGC, PendingGC}
  {
    hide Moved;
    OnlyGcMakesThem(files[f].state, e);
  }

  lemma StartOwned(st: State, j: nat, inputs: set<nat>)
    requires Inv(st) && Owned(st) && CanStartGc(st, j, inputs)
    ensures Owned(GcStarted(st, j, inputs))
  {
    hide Inv;
    var st' := GcStarted(st, j, inputs);
    assert j in st'.jobs && st'.jobs[j].inputs == inputs;
    forall f | f in st'.files ensures OwnedBy(st'.jobs, f, st'.files[f].state) {
      if f !in inputs {
        assert st'.files[f] == st.files[f] && JobsStay(st.jobs, st'.jobs);
        OwnedStays(st.jobs, st'.jobs, f, st.files[f].state);
      } else {
        assert st.files[f].state == Normal;
      }
    }
  }

  lemma InstallOwned(st: State, j: nat)
    requires Inv(st) && Owned(st) && Enabled(st, GcInstall(j))
    ensures Owned(GcInstalled(st, j))
  {
    hide Inv, OwnedBy;
    JobFacts(st, j);
    FileFacts(st);
    var st' := GcInstalled(st, j);
    assert JobsStay(st.jobs, st'.jobs);
    forall f | f in st'.files ensures OwnedBy(st'.jobs, f, st'.files[f].state) {
      if f in st.jobs[j].out {
        InstalledOwned(st'.jobs, j, f);
      } else {
        OwnedStays(st.jobs, st'.jobs, f, st.files[f].state);
      }
    }
  }

  lemma InstalledOwned(jobs: map<nat, GcJob>, j: nat, f: nat)
    requires j in jobs && jobs[j].installed && f in jobs[j].out
    ensures OwnedBy(jobs, f, PendingGC)
  {
  }

  /** When a job ends, its files leave both states; other jobs keep theirs. */
  lemma EndOwned(st: State, j: nat, files': Files)
    requires Owned(st) && j in st.jobs && (!st.jobs[j].installed ==> st.jobs[j].out.Keys !! st.files.Keys)
    requires forall f :: f in files' && files'[f].state in {BeingGC, PendingGC} ==>
               && f in st.files && files'[f].state == st.files[f].state
               && f !in st.jobs[j].inputs && (st.jobs[j].installed ==> f !in st.jobs[j].out)
    ensures Owned(st.(files := files', jobs := st.jobs - {j}))
  {
    var st' := st.(files := files', jobs := st.jobs - {j});
    forall f | f in st'.files ensures OwnedBy(st'.jobs, f, st'.files[f].state) {
      if st'.files[f].state == BeingGC {
        var i :| i in st.jobs && f in st.jobs[i].inputs;
        assert i in st'.jobs && f in st'.jobs[i].inputs;
      } else if st'.files[f].state == PendingGC {
        var i :| i in st.jobs && st.jobs[i].installed && f in st.jobs[i].out;
        assert i in st'.jobs && st'.jobs[i].installed && f in st'.jobs[i].out;
      }
    }
  }

  lemma FinishOwned(st: State, j: nat)
    requires Inv(st) && Owned(st) && Enabled(st, GcFinish(j))
    ensures Owned(GcFinished(st, j))
  {
    hide Inv, Signal, Owned, Moved;
    JobFacts(st, j);
    var job := st.jobs[j];
    var mid := MarkObsolete(st.files, job.inputs, Latest(st));
    var files' := Signal(mid, job.inputs + job.out.Keys, GCCompleted);
    forall f | f in files' && files'[f].state in {BeingGC, PendingGC}
      ensures f in st.files && files'[f].state == st.files[f].state && f !in job.inputs && f !in job.out
    {
      SignalQuiet(mid, job.inputs + job.out.Keys, GCCompleted, f);
    }
    EndOwned(st, j, files');
  }

  lemma AbortOwned(st: State, j: nat)
    requires Inv(st) && Owned(st) && Enabled(st, GcAbort(j))
    ensures Owned(GcAborted(st, j))
  {
    hide Inv, Signal, Owned, Moved;
    JobFacts(st, j);
    var job := st.jobs[j];
    var fs := job.inputs + (if job.installed then job.out.Keys else {});
    var files' := Signal(st.files, fs, GCCompleted);
    forall f | f in files' && files'[f].state in {BeingGC, PendingGC}
      ensures f in st.files && files'[f].state == st.files[f].state
      ensures f !in job.inputs && (job.installed ==> f !in job.out)
    {
      SignalQuiet(st.files, fs, GCCompleted, f);
    }
    EndOwned(st, j, files');
  }

  lemma SignalOwned(st: State, st': State, fs: set<nat>, e: FileEvent)
    requires Owned(st) && e !in {GCBegin, GCOutput} && st'.jobs == st.jobs && st'.files == Signal(st.files, fs, e)
    ensures Owned(st')
  {
    hide Owned, Signal;
    forall f | f in st'.files && st'.files[f].state in {BeingGC, PendingGC}
      ensures f in st.files && st.files[f].state == st'.files[f].state
    {
      SignalQuiet(st.files, fs, e, f);
    }
    QuietOwned(st, st');
  }

  lemma MarkOwned(st: State, f: nat, e: FileEvent)
    requires Owned(st) && CanMark(st, f, e)
    ensures Owned(st.(files := Signal(st.files, {f}, e)))
  {
    hide Owned;
    SignalOwned(st, st.(files := Signal(st.files, {f}, e)), {f}, e);
  }

  lemma AddedOwned(st: State, out: map<nat, Records>, sorted: bool, onlyValue: bool, e: FileEvent, next: nat)
    requires Owned(st) && e in {Reset, FlushOrCompactionOutput}
    ensures Owned(WithNewFiles(st, out, sorted, onlyValue, e, next))
  {
    hide Owned;
    QuietOwned(st, WithNewFiles(st, out, sorted, onlyValue, e, next));
  }

  lemma MoveOwned(st: State, j: nat, src: BlobIndex, dst: BlobIndex)
    requires Owned(st) && CanMove(st, j, src, dst)
    ensures Owned(GcMoved(st, j, src, dst))
  {
    hide VisCell;
    var st' := GcMoved(st, j, src, dst);
    if st'.files == st.files {
      QuietOwned(st, st');
    } else {
      var rec := st.files[src.file].records[src.handle];
      var mid := WithNewFiles(st, SoleRecord(rec.key, rec.value, dst), false, false, Reset, dst.file + 1);
      AddedOwned(st, SoleRecord(rec.key, rec.value, dst), false, false, Reset, dst.file + 1);
      hide Owned;
      assert st'.files == mid.files;
      QuietOwned(mid, st');
    }
  }

  lemma ScanOwned(st: State, j: nat, src: BlobIndex, dst: BlobIndex)
    requires Owned(st) && CanScan(st, j, src, dst)
    ensures Owned(GcScanned(st, j, src, dst))
  {
    hide Owned, VisCell;
    QuietOwned(st, GcScanned(st, j, src, dst));
  }

  lemma RewriteOwned(st: State, j: nat)
    requires Owned(st) && Enabled(st, GcRewrite(j))
    ensures Owned(RewrittenChecked(st, j))
  {
    hide Owned, VisCell;
    QuietOwned(st, RewrittenChecked(st, j));
  }

  lemma LessOwned(st: State, st': State)
    requires Owned(st) && st'.jobs == st.jobs
    requires forall f :: f in st'.files ==>
               f in st.files && (st'.files[f].state == st.files[f].state || st'.files[f].state == Obsolete)
    ensures Owned(st')
  {
    hide Owned;
    QuietOwned(st, st');
  }

  lemma DeleteOwned(st: State, f: nat)
    requires Owned(st) && CanDelete(st, f)
    ensures Owned(LevelMergeDeleted(st, f))
  {
    hide Owned;
    LessOwned(st, LevelMergeDeleted(st, f));
  }

  lemma CrashOwned(st: State)
    ensures Owned(Recovered(st))
  {
  }

  lemma StepOwned(st: State, a: Action)
    requires Inv(st) && Owned(st) && Enabled(st, a)
    ensures Owned(Apply(st, a))
  {
    hide Inv, Owned, Signal, Register, MarkObsolete, VisCell, CanScan, CanMark, CanDelete, CanFinishBuild, CanStartGc;
    match a
    case PutSeparated(k, v, idx) => AddedOwned(st, SoleRecord(k, v, idx), false, false, Reset, idx.file + 1);
      LessOwned(WithNewFiles(st, SoleRecord(k, v, idx), false, false, Reset, idx.file + 1), PutApart(st, k, v, idx));
    case BuildFinish(j, flush, outputs, plan, next) =>
      AddedOwned(st, outputs, true, st.config.levelMerge, FlushOrCompactionOutput, next);
      LessOwned(WithNewFiles(st, outputs, true, st.config.levelMerge, FlushOrCompactionOutput, next), Apply(st, a));
    case BuildComplete(j, touched) =>
      SignalOwned(st, Apply(st, a), st.builds[j].outputs + touched,
                  if st.builds[j].flush then FlushCompleted else CompactionCompleted);
    case GcStart(j, inputs) => StartOwned(st, j, inputs);
    case GcScan(j, src, dst) => ScanOwned(st, j, src, dst);
    case GcMove(j, src, dst) => MoveOwned(st, j, src, dst);
    case GcInstall(j) => InstallOwned(st, j);
    case GcRewrite(j) => RewriteOwned(st, j);
    case GcFinish(j) => FinishOwned(st, j);
    case GcAbort(j) => AbortOwned(st, j);
    case Mark(f, e) => MarkOwned(st, f, e);
    case LevelMergeDelete(f) => DeleteOwned(st, f);
    case Crash => CrashOwned(st);
    case _ => LessOwned(st, Apply(st, a));
  }

  lemma {:induction false} RunOwned(st: State, run: seq<Action>)
    requires Inv(st) && Owned(st) && ValidRun(st, run)
    ensures Inv(Exec(st, run)) && Owned(Exec(st, run))
    decreases |run|
  {
    hide Inv, Owned, Enabled, Apply;
    if run != [] {
      StepOwned(st, run[0]);
      StepKeeps(st, run[0]);
      RunOwned(Apply(st, run[0]), run[1..]);
    }
  }

  // ---------------------------------------------------------------- no file is forgotten

  /** The picker may take the file as far as its kind goes. */
  predicate Collectable(config: Config, bf: BlobFile) { config.levelMerge ==> !bf.sorted }

  /** In every reachable state, a live file that waits for no SST and belongs to no running job can be picked for GC. */
  lemma AlwaysPickable(st: State, run: seq<Action>, f: nat, i: nat)
    requires Initial(st) && ValidRun(st, run)
    requires var st' := Exec(st, run);
             && f in st'.files && Collectable(st'.config, st'.files[f]) && st'.files[f].state !in {PendingLSM, Obsolete}
             && i !in st'.jobs && forall j :: j in st'.jobs ==> f !in st'.jobs[j].inputs && f !in st'.jobs[j].out
    ensures Enabled(Exec(st, run), GcStart(i, {f}))
  {
    InitialInv(st);
    assert Owned(st);
    RunOwned(st, run);
    var st' := Exec(st, run);
    assert OwnedBy(st'.jobs, f, st'.files[f].state) && FileOk(st'.config, st'.files[f]);
  }

  lemma Released(files: Files, fs: set<nat>, f: nat)
    requires f in fs && f in files && files[f].state in {BeingGC, PendingGC}
    ensures f in Signal(files, fs, GCCompleted) && Signal(files, fs, GCCompleted)[f] == files[f].(state := Normal)
  {
  }

  lemma NormalPickable(st: State, f: nat, i: nat)
    requires f in st.files && st.files[f].state == Normal && Collectable(st.config, st.files[f]) && i !in st.jobs
    ensures Enabled(st, GcStart(i, {f}))
  {
  }

  /** After a GC is given up, its inputs and its registered outputs can be picked again. */
  lemma AbortReleases(st: State, j: nat, f: nat, i: nat)
    requires Inv(st) && j in st.jobs && i !in st.jobs && f in st.files && Collectable(st.config, st.files[f])
    requires f in st.jobs[j].inputs || (st.jobs[j].installed && f in st.jobs[j].out)
    ensures Enabled(GcAborted(st, j), GcStart(i, {f}))
  {
    hide Inv, Enabled, Signal;
    JobFacts(st, j);
    Released(st.files, st.jobs[j].inputs + (if st.jobs[j].installed then st.jobs[j].out.Keys else {}), f);
    NormalPickable(GcAborted(st, j), f, i);
  }

  /** After a GC its outputs can be picked. */
  lemma FinishReleases(st: State, j: nat, f: nat, i: nat)
    requires Inv(st) && j in st.jobs && st.jobs[j].installed && i !in st.jobs && f in st.jobs[j].out
    ensures f in st.files && f in GcFinished(st, j).files
    ensures Collectable(st.config, st.files[f]) ==> Enabled(GcFinished(st, j), GcStart(i, {f}))
  {
    hide Inv, Enabled, Signal;
    JobFacts(st, j);
    var mid := MarkObsolete(st.files, st.jobs[j].inputs, Latest(st));
    assert f !in st.jobs[j].inputs && mid[f] == st.files[f];
    Released(mid, st.jobs[j].inputs + st.jobs[j].out.Keys, f);
    if Collectable(st.config, st.files[f]) { NormalPickable(GcFinished(st, j), f, i); }
  }

  /** Its inputs are obsolete from the latest sequence number on. */
  lemma FinishRetires(st: State, j: nat, f: nat)
    requires Inv(st) && j in st.jobs && f in st.jobs[j].inputs
    ensures f in GcFinished(st, j).files
    ensures GcFinished(st, j).files[f].state == Obsolete && GcFinished(st, j).files[f].obsoleteAt == Latest(st)
  {
    hide Inv, Signal;
    JobFacts(st, j);
    var mid := MarkObsolete(st.files, st.jobs[j].inputs, Latest(st));
    SignalSkipsObsolete(mid, st.jobs[j].inputs + st.jobs[j].out.Keys, GCCompleted, f);
  }

  /** With no snapshot left, the next purge removes them. */
  lemma FinishThenPurge(st: State, j: nat, f: nat)
    requires Inv(st) && j in st.jobs && st.snaps == map[] && f in st.jobs[j].inputs
    ensures f !in Purged(GcFinished(st, j)).files
  {
    hide Inv, Signal;
    FinishRetires(st, j, f);
  }

  /** A flush or compaction whose completion is handled leaves normal outputs that can be picked. */
  lemma CompleteReleases(st: State, j: nat, touched: set<nat>, f: nat, i: nat)
    requires Inv(st) && Enabled(st, BuildComplete(j, touched)) && f in st.builds[j].outputs && i !in st.jobs
    ensures f in st.files && f in BuildCompleted(st, j, touched).files
    ensures BuildCompleted(st, j, touched).files[f] == st.files[f].(state := Normal)
    ensures Collectable(st.config, st.files[f]) ==> Enabled(BuildCompleted(st, j, touched), GcStart(i, {f}))
  {
    hide Inv;
    FileFacts(st);
    hide Enabled;
    if Collectable(st.config, st.files[f]) { NormalPickable(BuildCompleted(st, j, touched), f, i); }
  }

  /** A marked file is in a state in which the table builder moves its values to new files. */
  lemma MarkTells(st: State, f: nat, e: FileEvent)
    requires Inv(st) && Enabled(st, Mark(f, e)) && st.files[f].state != Obsolete
    ensures var st' := Apply(st, Mark(f, e));
            && f in st'.files
            && st'.files[f].state == (if e == NeedGC || st.files[f].state == ToGC then ToGC else ToMerge)
            && forall g :: g in st.files && g != f ==> g in st'.files && st'.files[g] == st.files[g]
  {
  }

  /** In family 0 a dead sorted file is obsolete from the latest sequence number on, and goes with the next purge. */
  lemma DeleteThenPurge(st: State, f: nat)
    requires Inv(st) && CanDelete(st, f) && st.config.family == 0
    ensures var st' := LevelMergeDeleted(st, f);
            && f in st'.files && st'.files[f].state == Obsolete && st'.files[f].obsoleteAt == Latest(st)
            && (st.snaps == map[] ==> f !in Purged(st').files)
  {
  }

  /** A purge takes only files that are obsolete, and none that became so at or after a live snapshot. */
  lemma PurgeTakes(st: State, f: nat)
    requires f in st.files
    ensures f in Purged(st).files <==>
            st.files[f].state != Obsolete || exists id :: id in st.snaps && st.snaps[id] <= st.files[f].obsoleteAt
    ensures f in Purged(st).files ==> Purged(st).files[f] == st.files[f]
  {
  }

  // ---------------------------------------------------------------- every job can be brought to its end

  predicate StepOf(a: Action, j: nat) {
    || (a.GcScan? && a.job == j) || (a.GcMove? && a.job == j) || (a.GcInstall? && a.job == j)
    || (a.GcRewrite? && a.job == j) || (a.GcFinish? && a.job == j)
  }

  /** The steps of the job alone end it, and its inputs are then obsolete. */
  ghost predicate Ends(st: State, j: nat, inputs: set<nat>, run: seq<Action>) {
    && ValidRun(st, run) && (forall i :: 0 <= i < |run| ==> StepOf(run[i], j))
    && j !in Exec(st, run).jobs
    && forall f :: f in inputs ==> f in Exec(st, run).files && Exec(st, run).files[f].state == Obsolete
  }

  lemma StepFirst(st: State, j: nat, inputs: set<nat>, a: Action, rest: seq<Action>)
    requires Enabled(st, a) && StepOf(a, j) && Ends(Apply(st, a), j, inputs, rest)
    ensures Ends(st, j, inputs, [a] + rest)
  {
    hide Apply, Enabled, StepOf;
    var run := [a] + rest;
    assert run[0] == a && run[1..] == rest;
    assert forall i :: 0 < i < |run| ==> run[i] == rest[i - 1];
  }

  lemma FinishEnds(st: State, j: nat)
    requires Inv(st) && Enabled(st, GcFinish(j))
    ensures Ends(st, j, st.jobs[j].inputs, [GcFinish(j)])
  {
    hide Inv;
    forall f | f in st.jobs[j].inputs
      ensures f in GcFinished(st, j).files && GcFinished(st, j).files[f].state == Obsolete
    {
      FinishRetires(st, j, f);
    }
    hide Signal, MarkObsolete;
    var run := [GcFinish(j)];
    assert run[1..] == [] && run[0] == GcFinish(j) && StepOf(run[0], j);
    assert ValidRun(Apply(st, run[0]), []);
    assert Exec(st, run) == Exec(GcFinished(st, j), []) == GcFinished(st, j);
  }

  /** The step that moves a job on, and what it leaves to do. */
  lemma ScanStep(st: State, j: nat) returns (a: Action)
    requires Inv(st) && j in st.jobs && !st.jobs[j].installed && st.jobs[j].todo != {}
    ensures Enabled(st, a) && StepOf(a, j) && j in Apply(st, a).jobs
    ensures var job' := Apply(st, a).jobs[j];
            !job'.installed && job'.inputs == st.jobs[j].inputs && job'.todo < st.jobs[j].todo
  {
    hide Inv, VisCell, PutApart;
    var src :| src in st.jobs[j].todo;
    var dst := BlobIndex(st.nextFile, src.handle);
    if PutsBack(st.config) {
      a := GcMove(j, src, dst);
    } else {
      forall f | f in st.jobs[j].out ensures f < st.nextFile { OutputBelowCounter(st, j, f); }
      a := GcScan(j, src, dst);
    }
  }

  lemma RewriteStep(st: State, j: nat)
    requires Inv(st) && j in st.jobs && st.jobs[j].installed && st.jobs[j].batches != []
    ensures Enabled(st, GcRewrite(j)) && StepOf(GcRewrite(j), j) && Inv(Apply(st, GcRewrite(j)))
    ensures j in Apply(st, GcRewrite(j)).jobs
    ensures Apply(st, GcRewrite(j)).jobs[j] == st.jobs[j].(batches := st.jobs[j].batches[1..])
  {
    hide Inv, VisCell;
    GcRewriteKeeps(st, j);
  }

  lemma {:induction false} RewritesEnd(st: State, j: nat) returns (run: seq<Action>)
    requires Inv(st) && j in st.jobs && st.jobs[j].installed
    ensures Ends(st, j, st.jobs[j].inputs, run)
    decreases |st.jobs[j].batches|
  {
    if st.jobs[j].batches == [] {
      FinishEnds(st, j);
      run := [GcFinish(j)];
    } else {
      RewriteStep(st, j);
      hide Inv, RewrittenChecked, Ends, StepOf, Apply, Enabled;
      run := RewritesEnd(Apply(st, GcRewrite(j)), j);
      StepFirst(st, j, st.jobs[j].inputs, GcRewrite(j), run);
      run := [GcRewrite(j)] + run;
    }
  }

  /** Whatever the store is like, a started GC can be brought to its end by its own steps. */
  lemma {:induction false} JobCanFinish(st: State, j: nat) returns (run: seq<Action>)
    requires Inv(st) && j in st.jobs
    ensures Ends(st, j, st.jobs[j].inputs, run)
    decreases if st.jobs[j].installed then 0 else 1, |st.jobs[j].todo|
  {
    hide Inv, Ends, StepOf;
    if st.jobs[j].installed {
      run := RewritesEnd(st, j);
    } else if st.jobs[j].todo == {} {
      GcInstallKeeps(st, j);
      var st' := GcInstalled(st, j);
      run := RewritesEnd(st', j);
      InstallIsStep(j);
      StepFirst(st, j, st.jobs[j].inputs, GcInstall(j), run);
      run := [GcInstall(j)] + run;
    } else {
      var a := ScanStep(st, j);
      StepKeeps(st, a);
      hide Apply, Enabled;
      SmallerSet(Apply(st, a).jobs[j].todo, st.jobs[j].todo);
      run := JobCanFinish(Apply(st, a), j);
      StepFirst(st, j, st.jobs[j].inputs, a, run);
      run := [a] + run;
    }
  }

  lemma InstallIsStep(j: nat)
    ensures StepOf(GcInstall(j), j)
  {
  }

  lemma {:induction false} SubsetSize(a: set<BlobIndex>, b: set<BlobIndex>)
    requires a <= b
    ensures |a| <= |b|
    decreases a
  {
    if a != {} {
      var x :| x in a;
      SubsetSize(a - {x}, b - {x});
    }
  }

  lemma SmallerSet(a: set<BlobIndex>, b: set<BlobIndex>)
    requires a < b
    ensures |a| < |b|
  {
    var x :| x in b && x !in a;
    assert a <= b - {x} && |b - {x}| == |b| - 1;
    SubsetSize(a, b - {x});
  }

  /** A GC copies a record if and only if a reader of its key gets its value from there. */
  lemma ScanCopies(st: State, j: nat, src: BlobIndex, dst: BlobIndex)
    requires Inv(st) && CanScan(st, j, src, dst)
    ensures src.file in st.files && src.handle in st.files[src.file].records
    ensures var rec := st.files[src.file].records[src.handle];
            var job, job' := st.jobs[j], GcScanned(st, j, src, dst).jobs[j];
            if VisCell(st.history, rec.key, Latest(st)) == Index(src)
            then && dst.file in job'.out && dst.handle in job'.out[dst.file] && job'.out[dst.file][dst.handle] == rec
                 && job'.batches == job.batches + [Batch(rec.key, src, dst)]
            else job'.out == job.out && job'.batches == job.batches
  {
    hide Inv, VisCell;
    JobFacts(st, j);
  }

  // ---------------------------------------------------------------- level merge and recovery

  /** A sorted file under level merge that no version refers to can be deleted unless it waits for its SST. */
  lemma DeadDeletable(st: State, f: nat)
    requires Inv(st) && st.config.levelMerge && f in st.files && st.files[f].sorted
    requires st.files[f].state !in {PendingLSM, Obsolete}
    requires forall i :: 0 <= i < |st.history| ==> !RefersVersion(st.history[i], f)
    ensures Enabled(st, LevelMergeDelete(f))
  {
    assert FileOk(st.config, st.files[f]);
  }

  /** One that some version refers to, and whose build is over, can be marked. */
  lemma LiveMarkable(st: State, f: nat, i: nat, e: FileEvent)
    requires Inv(st) && st.config.levelMerge && f in st.files && st.files[f].sorted && e in {NeedMerge, NeedGC}
    requires i < |st.history| && RefersVersion(st.history[i], f)
    requires forall b :: b in st.builds ==> f !in st.builds[b].outputs
    ensures Enabled(st, Mark(f, e))
  {
  }

  /** A crash forgets exactly the obsolete files; the others come back normal, with their records. */
  lemma CrashForgets(st: State, f: nat)
    requires Inv(st)
    ensures var st' := Apply(st, Crash);
            && (f in st'.files <==> f in st.files && st.files[f].state != Obsolete)
            && (f in st'.files ==> st'.files[f] == st.files[f].(state := Normal))
            && st'.history == st.history && st'.jobs == map[] && st'.builds == map[] && st'.snaps == map[]
            && st'.registered == st.registered && st'.nextFile == st.nextFile
  {
    hide Inv;
  }
}
