/** What every step of the protocol keeps. */
module TitanInvariant {
  import opened Optional
  import opened BlobFileState
  import opened TitanProtocol

  type Files = map<nat, BlobFile>

  predicate Stored(files: Files, idx: BlobIndex, rec: Record) {
    idx.file in files && idx.handle in files[idx.file].records && files[idx.file].records[idx.handle] == rec
  }

  /** A cell agrees with the value meant, as long as its file is still there. */
  predicate CellOk(k: Key, c: Cell, t: Option<Value>, files: Files, registered: set<nat>) {
    match c
    case Inline(v) => t == Some(v)
    case Tombstone => t == None
    case Index(idx) =>
      t.Some? && idx.file in registered && (idx.file in files ==> Stored(files, idx, Record(k, t.value)))
  }

  ghost predicate Coherent(h: seq<Version>, truth: seq<Option<Value>>, files: Files, registered: set<nat>) {
    && |h| == |truth|
    && forall i :: 0 <= i < |h| && h[i].Live? ==> CellOk(h[i].key, h[i].cell, truth[i], files, registered)
  }

  ghost predicate SnapsOk(h: seq<Version>, snaps: map<nat, nat>) {
    forall id :: id in snaps ==> snaps[id] <= |h|
  }

  /** Every index a reader can see leads to a registered file. */
  ghost predicate Reachable(h: seq<Version>, snaps: map<nat, nat>, files: Files) {
    forall k, s: nat :: s <= |h| && IsView(h, snaps, s) && VisCell(h, k, s).Index? ==>
      VisCell(h, k, s).idx.file in files
  }

  /** No reader at or after the sequence number at which a file became obsolete sees an index into it. */
  ghost predicate Hidden(h: seq<Version>, snaps: map<nat, nat>, files: Files) {
    && (forall f :: f in files && files[f].state == Obsolete ==> files[f].obsoleteAt <= |h|)
    && (forall f, k, s: nat ::
          f in files && files[f].state == Obsolete && files[f].obsoleteAt <= s <= |h| && IsView(h, snaps, s)
          ==> !Refers(VisCell(h, k, s), f))
  }

  predicate FileOk(config: Config, bf: BlobFile) {
    var merged := config.levelMerge && bf.sorted;
    && bf.state != Init
    && bf.onlyValue == merged
    && (merged ==> bf.state !in {BeingGC, PendingGC})
    && (!merged ==> bf.state !in {ToMerge, ToGC})
    && (!config.sepBeforeFlush ==> bf.sorted)
  }

  ghost predicate FilesOk(config: Config, files: Files, registered: set<nat>, nextFile: nat) {
    && (forall f :: f in files ==> f in registered && FileOk(config, files[f]))
    && (forall f :: f in registered ==> f < nextFile)
  }

  predicate BatchOk(files: Files, job: GcJob, b: Batch) {
    && b.src.file in job.inputs
    && b.dst.file in job.out && b.dst.handle in job.out[b.dst.file]
    && job.out[b.dst.file][b.dst.handle].key == b.key
    && Stored(files, b.src, job.out[b.dst.file][b.dst.handle])
  }

  ghost predicate JobOk(config: Config, files: Files, registered: set<nat>, nextFile: nat, job: GcJob) {
    && (forall f :: f in job.inputs ==> f in files && files[f].state == BeingGC)
    && (forall idx :: idx in job.todo ==> idx.file in job.inputs && idx.handle in files[idx.file].records)
    && (forall b :: b in job.batches ==> BatchOk(files, job, b))
    && (forall f :: f in job.out ==>
          if job.installed then f in files && files[f].records == job.out[f] && files[f].state == PendingGC
          else f !in registered && f < nextFile)
    && (config.levelMerge && !config.sepBeforeFlush ==> job.inputs == {})
    && (job.inputs == {} ==> job.out == map[])
  }

  predicate Pending(job: GcJob, k: Key, idx: BlobIndex) {
    exists b :: b in job.batches && b.key == k && b.src == idx
  }

  /** Every key whose latest index lies in an input is still to be scanned or to be rewritten. */
  ghost predicate Covered(h: seq<Version>, job: GcJob) {
    forall k :: VisCell(h, k, |h|).Index? && VisCell(h, k, |h|).idx.file in job.inputs ==>
      (!job.installed && VisCell(h, k, |h|).idx in job.todo) || Pending(job, k, VisCell(h, k, |h|).idx)
  }

  ghost predicate JobsOk(st: State) {
    && (forall j :: j in st.jobs ==> JobOk(st.config, st.files, st.registered, st.nextFile, st.jobs[j]))
    && (forall i, j :: i in st.jobs && j in st.jobs && i != j ==>
          st.jobs[i].inputs !! st.jobs[j].inputs && st.jobs[i].out.Keys !! st.jobs[j].out.Keys)
  }

  ghost predicate JobsCovered(h: seq<Version>, jobs: map<nat, GcJob>) {
    forall j :: j in jobs ==> Covered(h, jobs[j])
  }

  /** A planned version keeps its key and its value and points only into the build's own outputs. */
  predicate PlanOk(h: seq<Version>, truth: seq<Option<Value>>, files: Files, outputs: set<nat>, i: nat, p: Version) {
    && i < |h| && i < |truth| && h[i].Live?
    && (p.Live? ==>
          && p.key == h[i].key
          && truth[i].Some?
          && match p.cell
             case Inline(v) => v == truth[i].value
             case Tombstone => false
             case Index(idx) => idx.file in outputs && Stored(files, idx, Record(p.key, truth[i].value)))
  }

  ghost predicate BuildOk(h: seq<Version>, truth: seq<Option<Value>>, files: Files, b: Build) {
    && (forall f :: f in b.outputs ==> f in files && files[f].state == PendingLSM)
    && (!b.installed ==> forall i :: i in b.plan ==> PlanOk(h, truth, files, b.outputs, i, b.plan[i]))
  }

  ghost predicate BuildsApart(builds: map<nat, Build>) {
    forall a, b :: a in builds && b in builds && a != b ==>
      && builds[a].outputs !! builds[b].outputs
      && (!builds[a].installed && !builds[b].installed ==> builds[a].plan.Keys !! builds[b].plan.Keys)
  }

  ghost predicate BuildsOk(h: seq<Version>, truth: seq<Option<Value>>, files: Files, builds: map<nat, Build>) {
    && (forall b :: b in builds ==> BuildOk(h, truth, files, builds[b]))
    && BuildsApart(builds)
  }

  ghost predicate Inv(st: State) {
    && Coherent(st.history, st.truth, st.files, st.registered)
    && SnapsOk(st.history, st.snaps)
    && Reachable(st.history, st.snaps, st.files)
    && Hidden(st.history, st.snaps, st.files)
    && FilesOk(st.config, st.files, st.registered, st.nextFile)
    && JobsOk(st)
    && JobsCovered(st.history, st.jobs)
    && BuildsOk(st.history, st.truth, st.files, st.builds)
  }

  // ---------------------------------------------------------------- how the visible version moves

  lemma FindIs(h: seq<Version>, k: Key, s: nat, r: int)
    requires s <= |h| && -1 <= r < s
    requires r >= 0 ==> IsFor(h[r], k)
    requires forall j :: r < j < s ==> !IsFor(h[j], k)
    ensures Find(h, k, s) == r
  {
  }

  lemma FindAppend(h: seq<Version>, e: Version, k: Key, s: nat)
    requires e.Live? && s <= |h|
    ensures Find(h + [e], k, s) == Find(h, k, s)
    ensures VisCell(h + [e], k, s) == VisCell(h, k, s)
    ensures Find(h + [e], k, |h| + 1) == if e.key == k then |h| else Find(h, k, |h|)
    ensures VisCell(h + [e], k, |h| + 1) == if e.key == k then e.cell else VisCell(h, k, |h|)
  {
    var h' := h + [e];
    FindIs(h', k, s, Find(h, k, s));
    FindIs(h', k, |h'|, if e.key == k then |h| else Find(h, k, |h|));
  }

  lemma FindSubstituted(h: seq<Version>, plan: map<nat, Version>, k: Key, s: nat)
    requires s <= |h|
    requires forall i :: i in plan ==> i < |h| && h[i].Live? && (plan[i].Live? ==> plan[i].key == h[i].key)
    requires var r := Find(h, k, s); r >= 0 && r in plan ==> plan[r].Live?
    ensures Find(Substituted(h, plan), k, s) == Find(h, k, s)
  {
    FindIs(Substituted(h, plan), k, s, Find(h, k, s));
  }

  // ---------------------------------------------------------------- foreground writes

  lemma AppendKeepsReaders(h: seq<Version>, snaps: map<nat, nat>, files: Files, jobs: map<nat, GcJob>, k: Key, c: Cell)
    requires Reachable(h, snaps, files) && Hidden(h, snaps, files) && JobsCovered(h, jobs)
    requires c.Index? ==> c.idx.file in files && files[c.idx.file].state != Obsolete
    requires forall j :: j in jobs && c.Index? ==> c.idx.file !in jobs[j].inputs
    ensures var h' := h + [Live(k, c)]; Reachable(h', snaps, files) && Hidden(h', snaps, files) && JobsCovered(h', jobs)
  {
    var e := Live(k, c);
    var h' := h + [e];
    forall x, s: nat | s <= |h| ensures VisCell(h', x, s) == VisCell(h, x, s) {
      FindAppend(h, e, x, s);
    }
    forall x ensures VisCell(h', x, |h'|) == if x == k then c else VisCell(h, x, |h|) {
      FindAppend(h, e, x, 0);
    }
  }

  lemma AppendKeepsBuilds(h: seq<Version>, truth: seq<Option<Value>>, files: Files, builds: map<nat, Build>, e: Version,
                          t: Option<Value>)
    requires BuildsOk(h, truth, files, builds)
    ensures BuildsOk(h + [e], truth + [t], files, builds)
  {
    forall b | b in builds ensures BuildOk(h + [e], truth + [t], files, builds[b]) {
      assert BuildOk(h, truth, files, builds[b]);
    }
  }

  lemma AppendKeeps(st: State, k: Key, c: Cell, t: Option<Value>)
    requires Inv(st)
    requires CellOk(k, c, t, st.files, st.registered)
    requires c.Index? ==> c.idx.file in st.files && st.files[c.idx.file].state !in {Obsolete, BeingGC}
    ensures Inv(Appended(st, k, c, t))
  {
    forall j | j in st.jobs && c.Index? ensures c.idx.file !in st.jobs[j].inputs {
      assert JobOk(st.config, st.files, st.registered, st.nextFile, st.jobs[j]);
    }
    AppendKeepsReaders(st.history, st.snaps, st.files, st.jobs, k, c);
    AppendKeepsBuilds(st.history, st.truth, st.files, st.builds, Live(k, c), t);
  }

  // ---------------------------------------------------------------- registering files

  /** st' registers some fresh, well-formed files that are not obsolete, and differs in nothing else. */
  ghost predicate AddsFiles(st: State, st': State) {
    && st' == st.(files := st'.files, registered := st'.registered, nextFile := st'.nextFile)
    && st.registered <= st'.registered && st.nextFile <= st'.nextFile
    && (forall f :: f in st.files ==> f in st'.files && st'.files[f] == st.files[f])
    && (forall f :: f in st'.files && f !in st.files ==>
          && f in st'.registered && f !in st.registered
          && st'.files[f].state != Obsolete && FileOk(st.config, st'.files[f]))
    && (forall f :: f in st'.registered && f !in st.registered ==> f < st'.nextFile)
  }

  lemma AddedFilesKeepJobs(st: State, st': State)
    requires Inv(st) && AddsFiles(st, st')
    requires forall j, f :: j in st.jobs && !st.jobs[j].installed && f in st.jobs[j].out ==> f !in st'.registered
    ensures JobsOk(st')
  {
    forall j | j in st.jobs
      ensures JobOk(st'.config, st'.files, st'.registered, st'.nextFile, st'.jobs[j])
    {
      var job := st.jobs[j];
      assert JobOk(st.config, st.files, st.registered, st.nextFile, job);
      forall b | b in job.batches ensures BatchOk(st'.files, job, b) {
        assert BatchOk(st.files, job, b);
      }
    }
  }

  lemma AddedFilesKeepBuilds(st: State, st': State)
    requires Inv(st) && AddsFiles(st, st')
    ensures BuildsOk(st'.history, st'.truth, st'.files, st'.builds)
  {
    forall b | b in st.builds
      ensures BuildOk(st'.history, st'.truth, st'.files, st.builds[b])
    {
      var build := st.builds[b];
      assert BuildOk(st.history, st.truth, st.files, build);
      if !build.installed {
        forall i | i in build.plan ensures PlanOk(st'.history, st'.truth, st'.files, build.outputs, i, build.plan[i]) {
          assert PlanOk(st.history, st.truth, st.files, build.outputs, i, build.plan[i]);
        }
      }
    }
  }

  lemma AddedFilesKeep(st: State, st': State)
    requires Inv(st) && AddsFiles(st, st')
    requires forall j, f :: j in st.jobs && !st.jobs[j].installed && f in st.jobs[j].out ==> f !in st'.registered
    ensures Inv(st')
  {
    AddedFilesKeepJobs(st, st');
    AddedFilesKeepBuilds(st, st');
    assert Coherent(st'.history, st'.truth, st'.files, st'.registered) by {
      forall i | 0 <= i < |st.history| && st.history[i].Live?
        ensures CellOk(st.history[i].key, st.history[i].cell, st.truth[i], st'.files, st'.registered)
      {
        assert CellOk(st.history[i].key, st.history[i].cell, st.truth[i], st.files, st.registered);
      }
    }
  }

  /** Files numbered from the counter on clash with no registered file and no unregistered GC output. */
  lemma FreshFilesKeep(st: State, st': State)
    requires Inv(st) && AddsFiles(st, st')
    requires forall f :: f in st'.registered && f !in st.registered ==> st.nextFile <= f
    ensures Inv(st')
  {
    forall j, f | j in st.jobs && !st.jobs[j].installed && f in st.jobs[j].out
      ensures f !in st'.registered
    {
      assert JobOk(st.config, st.files, st.registered, st.nextFile, st.jobs[j]);
    }
    AddedFilesKeep(st, st');
  }

  lemma RegisterKeeps(st: State, out: map<nat, Records>, sorted: bool, onlyValue: bool, e: FileEvent, next: nat)
    requires Inv(st) && FreshFiles(st, out.Keys, next)
    requires e in {FlushOrCompactionOutput, GCOutput, Reset}
    requires forall f :: f in out ==> FileOk(st.config, NewFile(out[f], sorted, onlyValue, Moved(Init, e)))
    ensures Inv(WithNewFiles(st, out, sorted, onlyValue, e, next))
  {
    FreshFilesKeep(st, WithNewFiles(st, out, sorted, onlyValue, e, next));
  }

  lemma AppendToNewFile(st: State, out: map<nat, Records>, next: nat, k: Key, v: Value, idx: BlobIndex)
    requires Inv(st) && FreshFiles(st, out.Keys, next) && st.config.sepBeforeFlush
    requires idx.file in out && idx.handle in out[idx.file] && out[idx.file][idx.handle] == Record(k, v)
    ensures Inv(Appended(WithNewFiles(st, out, false, false, Reset, next), k, Index(idx), Some(v)))
  {
    RegisterKeeps(st, out, false, false, Reset, next);
    AppendKeeps(WithNewFiles(st, out, false, false, Reset, next), k, Index(idx), Some(v));
  }

  lemma SoleFileFresh(st: State, k: Key, v: Value, idx: BlobIndex)
    requires Inv(st) && idx.file >= st.nextFile
    ensures FreshFiles(st, SoleRecord(k, v, idx).Keys, idx.file + 1)
    ensures var out := SoleRecord(k, v, idx);
            && idx.file in out && idx.handle in out[idx.file]
            && out[idx.file][idx.handle] == Record(k, v)
    ensures PutApart(st, k, v, idx) ==
              Appended(WithNewFiles(st, SoleRecord(k, v, idx), false, false, Reset, idx.file + 1), k, Index(idx),
                       Some(v))
  {
    hide Appended, WithNewFiles;
  }

  lemma PutSeparatedKeeps(st: State, k: Key, v: Value, idx: BlobIndex)
    requires Inv(st) && st.config.sepBeforeFlush && idx.file >= st.nextFile
    ensures Inv(PutApart(st, k, v, idx))
  {
    hide *;
    SoleFileFresh(st, k, v, idx);
    AppendToNewFile(st, SoleRecord(k, v, idx), idx.file + 1, k, v, idx);
  }

  lemma PlannedIsOk(st: State, outputs: map<nat, Records>, i: nat, p: Version)
    requires Inv(st) && PlanEntryOk(st, outputs, i, p)
    ensures PlanOk(st.history, st.truth,
                   Register(st.files, outputs, true, st.config.levelMerge, FlushOrCompactionOutput),
                   outputs.Keys, i, p)
  {
    assert CellOk(st.history[i].key, st.history[i].cell, st.truth[i], st.files, st.registered);
  }

  lemma AddedBuildKeeps(st: State, j: nat, build: Build)
    requires Inv(st) && j !in st.builds
    requires BuildOk(st.history, st.truth, st.files, build)
    requires forall b :: b in st.builds ==>
      && st.builds[b].outputs !! build.outputs
      && (!st.builds[b].installed ==> st.builds[b].plan.Keys !! build.plan.Keys)
    ensures Inv(st.(builds := st.builds[j := build]))
  {
  }

  lemma BuildFinishKeeps(st: State, j: nat, flush: bool, outputs: map<nat, Records>, plan: map<nat, Version>, next: nat)
    requires Inv(st) && CanFinishBuild(st, j, outputs, plan, next)
    ensures Inv(BuildFinished(st, j, flush, outputs, plan, next))
  {
    RegisterKeeps(st, outputs, true, st.config.levelMerge, FlushOrCompactionOutput, next);
    var mid := WithNewFiles(st, outputs, true, st.config.levelMerge, FlushOrCompactionOutput, next);
    var build := Build(flush, outputs.Keys, plan, false);
    assert BuildOk(mid.history, mid.truth, mid.files, build) by {
      forall i | i in plan ensures PlanOk(mid.history, mid.truth, mid.files, build.outputs, i, plan[i]) {
        PlannedIsOk(st, outputs, i, plan[i]);
      }
    }
    forall b | b in st.builds ensures st.builds[b].outputs !! build.outputs {
      assert BuildOk(st.history, st.truth, st.files, st.builds[b]);
    }
    AddedBuildKeeps(mid, j, build);
  }

  // ---------------------------------------------------------------- snapshots

  lemma TakeSnapshotKeeps(st: State, id: nat)
    requires Inv(st) && id !in st.snaps
    ensures Inv(st.(snaps := st.snaps[id := Latest(st)]))
  {
    var snaps' := st.snaps[id := Latest(st)];
    assert forall s: nat :: IsView(st.history, snaps', s) ==> IsView(st.history, st.snaps, s);
  }

  lemma ReleaseSnapshotKeeps(st: State, id: nat)
    requires Inv(st)
    ensures Inv(st.(snaps := st.snaps - {id}))
  {
    var snaps' := st.snaps - {id};
    assert forall s: nat :: IsView(st.history, snaps', s) ==> IsView(st.history, st.snaps, s);
  }

  // ---------------------------------------------------------------- installing a flush or compaction

  lemma InstallKeepsVisible(st: State, j: nat, k: Key, s: nat)
    requires Inv(st) && CanInstallBuild(st, j)
    requires s <= |st.history| && IsView(st.history, st.snaps, s)
    ensures var r, r' := Find(st.history, k, s), Find(Substituted(st.history, st.builds[j].plan), k, s);
            r' == r || (r' == -1 && st.history[r].cell.Tombstone?)
  {
    var plan := st.builds[j].plan;
    assert BuildOk(st.history, st.truth, st.files, st.builds[j]);
    assert forall i :: i in plan ==> PlanOk(st.history, st.truth, st.files, st.builds[j].outputs, i, plan[i]);
    var r := Find(st.history, k, s);
    if r >= 0 && r in plan && plan[r].Dropped? {
      assert !Invisible(st, r) && HidesNothing(st.history, plan, r);
      FindIs(Substituted(st.history, plan), k, s, -1);
    } else {
      FindSubstituted(st.history, plan, k, s);
    }
  }

  /** What a reader sees after an install: the same version, untouched or replaced by its plan, or still nothing. */
  lemma InstallCell(st: State, j: nat, k: Key, s: nat)
    requires Inv(st) && CanInstallBuild(st, j)
    requires s <= |st.history| && IsView(st.history, st.snaps, s)
    ensures var c := VisCell(st.history, k, s);
            var c' := VisCell(Substituted(st.history, st.builds[j].plan), k, s);
            c' == c || !c'.Index? || c'.idx.file in st.builds[j].outputs
  {
    InstallKeepsVisible(st, j, k, s);
    var r := Find(st.history, k, s);
    var plan := st.builds[j].plan;
    assert BuildOk(st.history, st.truth, st.files, st.builds[j]);
    if r >= 0 && r in plan {
      assert PlanOk(st.history, st.truth, st.files, st.builds[j].outputs, r, plan[r]);
    }
  }

  lemma BuildInstallKeeps(st: State, j: nat)
    requires Inv(st) && CanInstallBuild(st, j)
    ensures Inv(BuildInstalled(st, j))
  {
    var plan := st.builds[j].plan;
    var outs := st.builds[j].outputs;
    var h' := Substituted(st.history, plan);
    var st' := BuildInstalled(st, j);
    assert BuildOk(st.history, st.truth, st.files, st.builds[j]);
    forall i | 0 <= i < |h'| && h'[i].Live?
      ensures CellOk(h'[i].key, h'[i].cell, st.truth[i], st.files, st.registered)
    {
      if i in plan { assert PlanOk(st.history, st.truth, st.files, outs, i, plan[i]); }
    }
    assert forall s: nat :: IsView(h', st.snaps, s) ==> IsView(st.history, st.snaps, s);
    forall k, s: nat | s <= |h'| && IsView(h', st.snaps, s)
      ensures var c := VisCell(st.history, k, s); var c' := VisCell(h', k, s);
              c' == c || !c'.Index? || c'.idx.file in outs
    {
      InstallCell(st, j, k, s);
    }
    assert Reachable(h', st.snaps, st.files);
    assert Hidden(h', st.snaps, st.files);
    assert JobsCovered(h', st.jobs) by {
      forall i, k | i in st.jobs && VisCell(h', k, |h'|).Index? && VisCell(h', k, |h'|).idx.file in st.jobs[i].inputs
        ensures VisCell(h', k, |h'|) == VisCell(st.history, k, |h'|)
      {
        assert JobOk(st.config, st.files, st.registered, st.nextFile, st.jobs[i]);
        assert IsView(h', st.snaps, |h'|);
      }
    }
    assert BuildsOk(h', st.truth, st.files, st'.builds) by {
      forall b | b in st.builds && b != j && !st.builds[b].installed
        ensures BuildOk(h', st.truth, st.files, st.builds[b])
      {
        assert BuildOk(st.history, st.truth, st.files, st.builds[b]);
        assert st.builds[b].plan.Keys !! plan.Keys;
        forall i | i in st.builds[b].plan
          ensures PlanOk(h', st.truth, st.files, st.builds[b].outputs, i, st.builds[b].plan[i])
        {
          assert PlanOk(st.history, st.truth, st.files, st.builds[b].outputs, i, st.builds[b].plan[i]);
          assert i !in plan.Keys;
        }
      }
    }
  }

  // ---------------------------------------------------------------- files changing state

  /** The files change only in state and obsolete mark, and no file becomes or stops being obsolete. */
  ghost predicate Restated(files: Files, files': Files) {
    && files'.Keys == files.Keys
    && forall f :: f in files ==>
         && files'[f].records == files[f].records
         && files'[f].sorted == files[f].sorted && files'[f].onlyValue == files[f].onlyValue
         && (files'[f].state == Obsolete <==> files[f].state == Obsolete)
         && files'[f].obsoleteAt == files[f].obsoleteAt
  }

  lemma RestatedKeepsJob(st: State, files': Files, job: GcJob)
    requires JobOk(st.config, st.files, st.registered, st.nextFile, job)
    requires Restated(st.files, files')
    requires forall f :: f in job.inputs || (job.installed && f in job.out) ==>
               f in files' && files'[f].state == st.files[f].state
    ensures JobOk(st.config, files', st.registered, st.nextFile, job)
  {
    forall b | b in job.batches ensures BatchOk(files', job, b) {
      assert BatchOk(st.files, job, b);
    }
  }

  lemma RestatedKeepsBuild(h: seq<Version>, truth: seq<Option<Value>>, files: Files, files': Files, b: Build)
    requires BuildOk(h, truth, files, b)
    requires Restated(files, files')
    requires forall f :: f in b.outputs ==> files'[f].state == files[f].state
    ensures BuildOk(h, truth, files', b)
  {
    if !b.installed {
      forall i | i in b.plan ensures PlanOk(h, truth, files', b.outputs, i, b.plan[i]) {
        assert PlanOk(h, truth, files, b.outputs, i, b.plan[i]);
      }
    }
  }

  lemma RestatedKeepsReaders(h: seq<Version>, truth: seq<Option<Value>>, snaps: map<nat, nat>, files: Files,
                             files': Files, registered: set<nat>)
    requires Coherent(h, truth, files, registered) && Reachable(h, snaps, files) && Hidden(h, snaps, files)
    requires Restated(files, files')
    ensures Coherent(h, truth, files', registered) && Reachable(h, snaps, files') && Hidden(h, snaps, files')
  {
    forall i | 0 <= i < |h| && h[i].Live? ensures CellOk(h[i].key, h[i].cell, truth[i], files', registered) {
      assert CellOk(h[i].key, h[i].cell, truth[i], files, registered);
    }
  }

  /** No running job or build has a hold on these files. */
  ghost predicate Free(st: State, fs: set<nat>) {
    && (forall j, f :: j in st.jobs && f in fs ==>
         f !in st.jobs[j].inputs && (st.jobs[j].installed ==> f !in st.jobs[j].out))
    && (forall b, f :: b in st.builds && f in fs ==> f !in st.builds[b].outputs)
  }

  /** Restating files that no job or build holds keeps everything. */
  lemma RestatedKeeps(st: State, files': Files, fs: set<nat>)
    requires Inv(st) && Restated(st.files, files') && Free(st, fs)
    requires forall f :: f in files' && f !in fs ==> files'[f] == st.files[f]
    requires forall f :: f in files' && f in fs ==> FileOk(st.config, files'[f])
    ensures Inv(st.(files := files'))
  {
    RestatedKeepsReaders(st.history, st.truth, st.snaps, st.files, files', st.registered);
    forall j | j in st.jobs ensures JobOk(st.config, files', st.registered, st.nextFile, st.jobs[j]) {
      assert JobOk(st.config, st.files, st.registered, st.nextFile, st.jobs[j]);
      RestatedKeepsJob(st, files', st.jobs[j]);
    }
    forall b | b in st.builds ensures BuildOk(st.history, st.truth, files', st.builds[b]) {
      assert BuildOk(st.history, st.truth, st.files, st.builds[b]);
      RestatedKeepsBuild(st.history, st.truth, st.files, files', st.builds[b]);
    }
  }

  lemma DroppedBuildKeeps(st: State, j: nat)
    requires Inv(st)
    ensures Inv(st.(builds := st.builds - {j}))
  {
  }

  lemma DroppedJobKeeps(st: State, j: nat)
    requires Inv(st)
    ensures Inv(st.(jobs := st.jobs - {j}))
  {
  }

  /** Files in none of the states jobs and builds hold them in are free. */
  lemma FreeByState(st: State, fs: set<nat>)
    requires Inv(st)
    requires forall f :: f in fs && f in st.files ==> st.files[f].state !in {BeingGC, PendingGC, PendingLSM}
    requires fs <= st.files.Keys
    ensures Free(st, fs)
  {
    forall j, f | j in st.jobs && f in fs
      ensures f !in st.jobs[j].inputs && (st.jobs[j].installed ==> f !in st.jobs[j].out)
    {
      assert JobOk(st.config, st.files, st.registered, st.nextFile, st.jobs[j]);
    }
    forall b, f | b in st.builds && f in fs ensures f !in st.builds[b].outputs {
      assert BuildOk(st.history, st.truth, st.files, st.builds[b]);
    }
  }

  lemma SignalRestates(files: Files, fs: set<nat>, e: FileEvent)
    requires forall f :: f in fs && f in files ==>
               (Moved(files[f].state, e) == Obsolete <==> files[f].state == Obsolete)
    ensures Restated(files, Signal(files, fs, e))
    ensures forall f :: f in files && f !in fs ==> Signal(files, fs, e)[f] == files[f]
    ensures forall f :: f in files && f in fs ==>
              Signal(files, fs, e)[f] == files[f].(state := Moved(files[f].state, e))
  {
  }

  lemma SignalKeeps(st: State, fs: set<nat>, e: FileEvent)
    requires Inv(st) && Free(st, fs)
    requires forall f :: f in fs && f in st.files ==>
      && FileOk(st.config, st.files[f].(state := Moved(st.files[f].state, e)))
      && (Moved(st.files[f].state, e) == Obsolete <==> st.files[f].state == Obsolete)
    ensures Inv(st.(files := Signal(st.files, fs, e)))
  {
    SignalRestates(st.files, fs, e);
    RestatedKeeps(st, Signal(st.files, fs, e), fs);
  }

  /** A completed build gives up its outputs, which no other job or build holds. */
  lemma CompletedIsFree(st: State, j: nat, touched: set<nat>)
    requires Inv(st) && CanCompleteBuild(st, j, touched)
    ensures Free(st.(builds := st.builds - {j}), st.builds[j].outputs)
    ensures forall f :: f in st.builds[j].outputs ==> f in st.files && st.files[f].state == PendingLSM
  {
    assert BuildOk(st.history, st.truth, st.files, st.builds[j]);
    forall i, f | i in st.jobs && f in st.builds[j].outputs
      ensures f !in st.jobs[i].inputs && (st.jobs[i].installed ==> f !in st.jobs[i].out)
    {
      assert JobOk(st.config, st.files, st.registered, st.nextFile, st.jobs[i]);
    }
  }

  /** The files a flush event moves: its outputs, and files an aborted build left pending. */
  function PendingOf(files: Files, fs: set<nat>): set<nat> {
    set f | f in fs && f in files && files[f].state == PendingLSM
  }

  lemma FlushMovesPending(files: Files, fs: set<nat>)
    ensures Signal(files, fs, FlushCompleted) == Signal(files, PendingOf(files, fs), FlushCompleted)
  {
  }

  lemma BuildCompleteKeeps(st: State, j: nat, touched: set<nat>)
    requires Inv(st) && CanCompleteBuild(st, j, touched)
    ensures Inv(BuildCompleted(st, j, touched))
  {
    var fs := st.builds[j].outputs;
    CompletedIsFree(st, j, touched);
    DroppedBuildKeeps(st, j);
    var mid := st.(builds := st.builds - {j});
    if st.builds[j].flush {
      var pending := PendingOf(st.files, fs + touched);
      FlushMovesPending(st.files, fs + touched);
      PendingIsFree(mid, touched);
      assert Free(mid, pending);
      SignalKeeps(mid, pending, FlushCompleted);
    } else {
      SignalKeeps(mid, fs, CompactionCompleted);
      assert fs + touched == fs;
    }
  }

  lemma PendingIsFree(st: State, fs: set<nat>)
    requires Inv(st)
    requires forall f, b :: f in fs && b in st.builds ==> f !in st.builds[b].outputs
    ensures Free(st, PendingOf(st.files, fs))
  {
    forall j, f | j in st.jobs && f in PendingOf(st.files, fs)
      ensures f !in st.jobs[j].inputs && (st.jobs[j].installed ==> f !in st.jobs[j].out)
    {
      assert JobOk(st.config, st.files, st.registered, st.nextFile, st.jobs[j]);
    }
  }

  lemma MarkKeeps(st: State, f: nat, e: FileEvent)
    requires Inv(st) && CanMark(st, f, e)
    ensures Inv(st.(files := Signal(st.files, {f}, e)))
  {
    assert FileOk(st.config, st.files[f]);
    assert Free(st, {f}) by {
      forall j | j in st.jobs ensures f !in st.jobs[j].inputs && (st.jobs[j].installed ==> f !in st.jobs[j].out) {
        assert JobOk(st.config, st.files, st.registered, st.nextFile, st.jobs[j]);
      }
    }
    SignalKeeps(st, {f}, e);
  }

  // ---------------------------------------------------------------- the phases of a GC job

  lemma StartedIsCovered(st: State, inputs: set<nat>)
    requires Inv(st)
    ensures Covered(st.history, GcJob(inputs, RecordsOf(st.files, inputs), [], map[], false))
  {
    forall k | VisCell(st.history, k, Latest(st)).Index? && VisCell(st.history, k, Latest(st)).idx.file in inputs
      ensures VisCell(st.history, k, Latest(st)).idx in RecordsOf(st.files, inputs)
    {
      VisibleIsStored(st, k, Latest(st));
    }
  }

  lemma GcStartKeeps(st: State, j: nat, inputs: set<nat>)
    requires Inv(st) && CanStartGc(st, j, inputs)
    ensures Inv(GcStarted(st, j, inputs))
  {
    FreeByState(st, inputs);
    SignalKeeps(st, inputs, GCBegin);
    StartedIsCovered(st, inputs);
    AddedJobKeeps(st.(files := Signal(st.files, inputs, GCBegin)), j,
                  GcJob(inputs, RecordsOf(st.files, inputs), [], map[], false));
  }

  /** The record behind an index a reader sees belongs to the key and holds the value meant. */
  lemma VisibleIsStored(st: State, k: Key, s: nat)
    requires Inv(st) && s <= Latest(st) && IsView(st.history, st.snaps, s)
    requires VisCell(st.history, k, s).Index?
    ensures var i := Find(st.history, k, s);
            i >= 0 && st.truth[i].Some? && Stored(st.files, VisCell(st.history, k, s).idx, Record(k, st.truth[i].value))
  {
    var i := Find(st.history, k, s);
    assert CellOk(st.history[i].key, st.history[i].cell, st.truth[i], st.files, st.registered);
  }

  lemma AddedJobKeeps(st: State, j: nat, job: GcJob)
    requires Inv(st) && j !in st.jobs
    requires JobOk(st.config, st.files, st.registered, st.nextFile, job) && Covered(st.history, job)
    requires forall i :: i in st.jobs ==> st.jobs[i].inputs !! job.inputs && st.jobs[i].out.Keys !! job.out.Keys
    ensures Inv(st.(jobs := st.jobs[j := job]))
  {
  }

  lemma KeptRecordOk(config: Config, files: Files, registered: set<nat>, next: nat, next': nat, job: GcJob,
                     src: BlobIndex, dst: BlobIndex, rec: Record)
    requires JobOk(config, files, registered, next, job) && !job.installed && src in job.todo && Stored(files, src, rec)
    requires if dst.file in job.out then dst.handle !in job.out[dst.file] && next' == next
             else dst.file !in registered && next <= dst.file < next'
    ensures var part := if dst.file in job.out then job.out[dst.file] else map[];
            JobOk(config, files, registered, next', job.(todo := job.todo - {src},
                                                       batches := job.batches + [Batch(rec.key, src, dst)],
                                                       out := job.out[dst.file := part[dst.handle := rec]]))
  {
    var part := if dst.file in job.out then job.out[dst.file] else map[];
    var job' := job.(todo := job.todo - {src}, batches := job.batches + [Batch(rec.key, src, dst)],
                     out := job.out[dst.file := part[dst.handle := rec]]);
    forall b | b in job'.batches ensures BatchOk(files, job', b) {
      assert b in job.batches ==> BatchOk(files, job, b);
    }
  }

  lemma ScanKeepsJob(st: State, j: nat, src: BlobIndex, dst: BlobIndex)
    requires Inv(st) && CanScan(st, j, src, dst)
    ensures var st' := GcScanned(st, j, src, dst); JobOk(st.config, st.files, st.registered, st'.nextFile, st'.jobs[j])
  {
    var job := st.jobs[j];
    assert JobOk(st.config, st.files, st.registered, st.nextFile, job);
    var rec := st.files[src.file].records[src.handle];
    if VisCell(st.history, rec.key, Latest(st)) == Index(src) {
      if dst.file in job.out { OutputBelowCounter(st, j, dst.file); }
      KeptRecordOk(st.config, st.files, st.registered, st.nextFile, GcScanned(st, j, src, dst).nextFile, job, src, dst,
                   rec);
    } else {
      DiscardedRecordOk(st.config, st.files, st.registered, st.nextFile, job, src);
      if dst.file in job.out { OutputBelowCounter(st, j, dst.file); }
    }
  }

  lemma DiscardedRecordOk(config: Config, files: Files, registered: set<nat>, next: nat, job: GcJob, src: BlobIndex)
    requires JobOk(config, files, registered, next, job)
    ensures JobOk(config, files, registered, next, job.(todo := job.todo - {src}))
  {
    var job' := job.(todo := job.todo - {src});
    forall b | b in job'.batches ensures BatchOk(files, job', b) {
      assert BatchOk(files, job, b);
    }
  }

  lemma ScanKeepsCovered(st: State, j: nat, src: BlobIndex, dst: BlobIndex)
    requires Inv(st) && CanScan(st, j, src, dst)
    ensures Covered(st.history, Scanned(st, st.jobs[j], src, dst))
  {
    var job := st.jobs[j];
    var job' := Scanned(st, job, src, dst);
    assert JobOk(st.config, st.files, st.registered, st.nextFile, job);
    forall k | VisCell(st.history, k, Latest(st)).Index? && VisCell(st.history, k, Latest(st)).idx.file in job.inputs
      ensures VisCell(st.history, k, Latest(st)).idx in job'.todo
              || Pending(job', k, VisCell(st.history, k, Latest(st)).idx)
    {
      var idx := VisCell(st.history, k, Latest(st)).idx;
      VisibleIsStored(st, k, Latest(st));
      if idx == src {
        assert job'.batches[|job.batches|] == Batch(k, src, dst);
      } else if Pending(job, k, idx) {
        var b :| b in job.batches && b.key == k && b.src == idx;
        assert b in job'.batches;
      }
    }
  }

  lemma ReplacedJobKeeps(st: State, j: nat, job: GcJob, next: nat)
    requires Inv(st) && j in st.jobs && st.nextFile <= next
    requires JobOk(st.config, st.files, st.registered, next, job) && Covered(st.history, job)
    requires job.inputs == st.jobs[j].inputs
    requires forall i :: i in st.jobs && i != j ==> st.jobs[i].out.Keys !! job.out.Keys
    ensures Inv(st.(jobs := st.jobs[j := job], nextFile := next))
  {
    forall i | i in st.jobs && i != j ensures JobOk(st.config, st.files, st.registered, next, st.jobs[i]) {
      assert JobOk(st.config, st.files, st.registered, st.nextFile, st.jobs[i]);
    }
  }

  lemma GcScanKeeps(st: State, j: nat, src: BlobIndex, dst: BlobIndex)
    requires Inv(st) && CanScan(st, j, src, dst)
    ensures Inv(GcScanned(st, j, src, dst))
  {
    ScanKeepsJob(st, j, src, dst);
    ScanKeepsCovered(st, j, src, dst);
    var st' := GcScanned(st, j, src, dst);
    forall i, f | i in st.jobs && i != j && f in st.jobs[i].out ensures f !in st'.jobs[j].out {
      OutputBelowCounter(st, i, f);
    }
    ReplacedJobKeeps(st, j, st'.jobs[j], st'.nextFile);
  }

  /** After the put, if any, no key has its latest index at the source. */
  lemma PutBackHides(st: State, j: nat, src: BlobIndex, dst: BlobIndex)
    requires Inv(st) && CanMove(st, j, src, dst)
    ensures src.file in st.files && src.handle in st.files[src.file].records
    ensures var mid := PutBack(st, src, dst);
            && mid.jobs == st.jobs && mid.config == st.config
            && src.file in mid.files && mid.files[src.file] == st.files[src.file]
            && VisCell(mid.history, st.files[src.file].records[src.handle].key, Latest(mid)) != Index(src)
  {
    assert JobOk(st.config, st.files, st.registered, st.nextFile, st.jobs[j]);
    var rec := st.files[src.file].records[src.handle];
    if VisCell(st.history, rec.key, Latest(st)) == Index(src) {
      FindAppend(st.history, Live(rec.key, Index(dst)), rec.key, 0);
    }
  }

  lemma PutBackKeeps(st: State, j: nat, src: BlobIndex, dst: BlobIndex)
    requires Inv(st) && CanMove(st, j, src, dst)
    ensures Inv(PutBack(st, src, dst))
  {
    hide Inv, PutApart;
    PutBackHides(st, j, src, dst);
    var rec := st.files[src.file].records[src.handle];
    PutSeparatedKeeps(st, rec.key, rec.value, dst);
  }

  /** A move is a separated put of the same value followed by the scan of a record that is no longer the latest. */
  lemma GcMoveKeeps(st: State, j: nat, src: BlobIndex, dst: BlobIndex)
    requires Inv(st) && CanMove(st, j, src, dst)
    ensures Inv(GcMoved(st, j, src, dst))
  {
    hide Inv, PutBack, VisCell;
    PutBackHides(st, j, src, dst);
    PutBackKeeps(st, j, src, dst);
    var mid := PutBack(st, src, dst);
    forall f | f in mid.jobs[j].out ensures f < mid.nextFile { OutputBelowCounter(mid, j, f); }
    var away := BlobIndex(mid.nextFile, src.handle);
    GcScanKeeps(mid, j, src, away);
    assert GcScanned(mid, j, src, away) == GcMoved(st, j, src, dst);
  }

  lemma OutputBelowCounter(st: State, j: nat, f: nat)
    requires Inv(st) && j in st.jobs && f in st.jobs[j].out
    ensures f < st.nextFile
  {
    assert JobOk(st.config, st.files, st.registered, st.nextFile, st.jobs[j]);
  }

  lemma InstalledJobOk(config: Config, files: Files, registered: set<nat>, next: nat, job: GcJob)
    requires JobOk(config, files, registered, next, job) && !job.installed && job.todo == {}
    requires files.Keys <= registered
    ensures JobOk(config, Register(files, job.out, !config.sepBeforeFlush, false, GCOutput), registered + job.out.Keys,
                  next,
                  job.(installed := true))
  {
    var files' := Register(files, job.out, !config.sepBeforeFlush, false, GCOutput);
    var job' := job.(installed := true);
    forall f | f in job.inputs ensures f in files' && files'[f] == files[f] {
      assert f !in job.out;
    }
    forall b | b in job.batches ensures BatchOk(files', job', b) {
      assert BatchOk(files, job, b);
    }
  }

  /** GC outputs are read with the framing they are written with: under level merge they are unsorted. */
  lemma OutputsWellFormed(config: Config, files: Files, registered: set<nat>, next: nat, job: GcJob)
    requires JobOk(config, files, registered, next, job)
    ensures forall f :: f in job.out ==>
              FileOk(config, NewFile(job.out[f], !config.sepBeforeFlush, false, Moved(Init, GCOutput)))
  {
  }

  lemma OutputsAddFiles(st: State, out: map<nat, Records>)
    requires st.files.Keys <= st.registered
    requires forall f :: f in out ==> f !in st.registered && f < st.nextFile
    requires forall f :: f in out ==>
               FileOk(st.config, NewFile(out[f], !st.config.sepBeforeFlush, false, Moved(Init, GCOutput)))
    ensures AddsFiles(st, WithNewFiles(st, out, !st.config.sepBeforeFlush, false, GCOutput, st.nextFile))
  {
  }

  lemma OutputsRegistered(st: State, j: nat)
    requires Inv(st) && j in st.jobs && !st.jobs[j].installed
    ensures Inv(WithNewFiles(st.(jobs := st.jobs - {j}), st.jobs[j].out, !st.config.sepBeforeFlush, false, GCOutput,
                             st.nextFile))
  {
    hide Inv;
    JobFacts(st, j);
    var mid := st.(jobs := st.jobs - {j});
    var out := st.jobs[j].out;
    var mid' := WithNewFiles(mid, out, !st.config.sepBeforeFlush, false, GCOutput, st.nextFile);
    DroppedJobKeeps(st, j);
    OutputsWellFormed(st.config, st.files, st.registered, st.nextFile, st.jobs[j]);
    OutputsAddFiles(mid, out);
    forall i, f | i in mid.jobs && !mid.jobs[i].installed && f in mid.jobs[i].out ensures f !in mid'.registered {
      JobFacts(st, i);
    }
    AddedFilesKeep(mid, mid');
  }

  lemma JobFacts(st: State, j: nat)
    requires Inv(st) && j in st.jobs
    ensures JobOk(st.config, st.files, st.registered, st.nextFile, st.jobs[j]) && Covered(st.history, st.jobs[j])
    ensures st.files.Keys <= st.registered
    ensures forall f :: f in st.files ==> FileOk(st.config, st.files[f])
    ensures forall i :: i in st.jobs && i != j ==>
              st.jobs[i].inputs !! st.jobs[j].inputs && st.jobs[i].out.Keys !! st.jobs[j].out.Keys
  {
  }

  lemma InstalledCovered(h: seq<Version>, job: GcJob)
    requires Covered(h, job) && job.todo == {}
    ensures Covered(h, job.(installed := true))
  {
  }

  lemma GcInstallKeeps(st: State, j: nat)
    requires Inv(st) && j in st.jobs && !st.jobs[j].installed && st.jobs[j].todo == {}
    ensures Inv(GcInstalled(st, j))
  {
    hide Inv, JobOk, Covered, Register;
    JobFacts(st, j);
    var job := st.jobs[j].(installed := true);
    var mid := WithNewFiles(st.(jobs := st.jobs - {j}), st.jobs[j].out, !st.config.sepBeforeFlush, false, GCOutput,
                            st.nextFile);
    OutputsRegistered(st, j);
    InstalledJobOk(st.config, st.files, st.registered, st.nextFile, st.jobs[j]);
    InstalledCovered(st.history, st.jobs[j]);
    AddedJobKeeps(mid, j, job);
    assert mid.(jobs := mid.jobs[j := job]) == GcInstalled(st, j);
  }

  /** Once the key of the first batch has moved on, the batch is no longer needed. */
  lemma TailCovered(h: seq<Version>, job: GcJob)
    requires Covered(h, job) && job.installed && job.batches != []
    requires VisCell(h, job.batches[0].key, |h|) != Index(job.batches[0].src)
    ensures Covered(h, job.(batches := job.batches[1..]))
  {
    var job' := job.(batches := job.batches[1..]);
    forall k | VisCell(h, k, |h|).Index? && VisCell(h, k, |h|).idx.file in job.inputs
      ensures Pending(job', k, VisCell(h, k, |h|).idx)
    {
      var idx := VisCell(h, k, |h|).idx;
      var b :| b in job.batches && b.key == k && b.src == idx;
      assert b != job.batches[0];
      assert b in job.batches[1..];
    }
  }

  lemma TailKeeps(st: State, j: nat)
    requires Inv(st) && j in st.jobs && st.jobs[j].installed && st.jobs[j].batches != []
    requires var b := st.jobs[j].batches[0]; VisCell(st.history, b.key, Latest(st)) != Index(b.src)
    ensures Inv(st.(jobs := st.jobs[j := st.jobs[j].(batches := st.jobs[j].batches[1..])]))
  {
    var job := st.jobs[j];
    var job' := job.(batches := job.batches[1..]);
    assert JobOk(st.config, st.files, st.registered, st.nextFile, job);
    TailCovered(st.history, job);
    forall b | b in job'.batches ensures BatchOk(st.files, job', b) {
      assert b in job.batches;
      assert BatchOk(st.files, job, b);
    }
    ReplacedJobKeeps(st, j, job', st.nextFile);
  }

  /** The target of a rewrite is a registered output holding the record the scan copied. */
  lemma BatchTarget(st: State, j: nat)
    requires Inv(st) && j in st.jobs && st.jobs[j].installed && st.jobs[j].batches != []
    ensures var b := st.jobs[j].batches[0];
            && b.dst.file in st.files && st.files[b.dst.file].state == PendingGC
            && b.dst.handle in st.files[b.dst.file].records
            && st.files[b.dst.file].records[b.dst.handle].key == b.key
            && Stored(st.files, b.src, st.files[b.dst.file].records[b.dst.handle])
            && st.files[b.src.file].state == BeingGC
  {
    var b := st.jobs[j].batches[0];
    assert JobOk(st.config, st.files, st.registered, st.nextFile, st.jobs[j]);
    assert BatchOk(st.files, st.jobs[j], b);
  }

  lemma GcRewriteKeeps(st: State, j: nat)
    requires Inv(st) && j in st.jobs && st.jobs[j].installed && st.jobs[j].batches != []
    ensures Inv(RewrittenChecked(st, j))
  {
    var b := st.jobs[j].batches[0];
    if VisCell(st.history, b.key, Latest(st)) == Index(b.src) {
      BatchTarget(st, j);
      assert b.dst.file in st.registered;
      AppendKeeps(st, b.key, Index(b.dst), ValueAt(st.files, b.dst));
      FindAppend(st.history, Live(b.key, Index(b.dst)), b.key, 0);
      TailKeeps(Appended(st, b.key, Index(b.dst), ValueAt(st.files, b.dst)), j);
    } else {
      TailKeeps(st, j);
    }
  }

  /** Deleting files whose records no key has as its latest version. */
  lemma ObsoleteKeepsReaders(h: seq<Version>, truth: seq<Option<Value>>, snaps: map<nat, nat>, files: Files,
                             registered: set<nat>, fs: set<nat>)
    requires Coherent(h, truth, files, registered) && Reachable(h, snaps, files) && Hidden(h, snaps, files)
    requires forall f :: f in fs ==> f in files && files[f].state != Obsolete
    requires forall k, f :: f in fs ==> !Refers(VisCell(h, k, |h|), f)
    ensures var files' := MarkObsolete(files, fs, |h|);
            Coherent(h, truth, files', registered) && Reachable(h, snaps, files') && Hidden(h, snaps, files')
  {
    var files' := MarkObsolete(files, fs, |h|);
    forall i | 0 <= i < |h| && h[i].Live? ensures CellOk(h[i].key, h[i].cell, truth[i], files', registered) {
      assert CellOk(h[i].key, h[i].cell, truth[i], files, registered);
    }
  }

  lemma ObsoleteKeepsJobs(st: State, fs: set<nat>)
    requires JobsOk(st) && Free(st, fs)
    ensures JobsOk(st.(files := MarkObsolete(st.files, fs, Latest(st))))
  {
    var files' := MarkObsolete(st.files, fs, Latest(st));
    forall j | j in st.jobs ensures JobOk(st.config, files', st.registered, st.nextFile, st.jobs[j]) {
      assert JobOk(st.config, st.files, st.registered, st.nextFile, st.jobs[j]);
      forall b | b in st.jobs[j].batches ensures BatchOk(files', st.jobs[j], b) {
        assert BatchOk(st.files, st.jobs[j], b);
      }
    }
  }

  lemma ObsoleteKeepsBuilds(st: State, fs: set<nat>)
    requires BuildsOk(st.history, st.truth, st.files, st.builds) && Free(st, fs)
    ensures BuildsOk(st.history, st.truth, MarkObsolete(st.files, fs, Latest(st)), st.builds)
  {
    var files' := MarkObsolete(st.files, fs, Latest(st));
    forall b | b in st.builds ensures BuildOk(st.history, st.truth, files', st.builds[b]) {
      assert BuildOk(st.history, st.truth, st.files, st.builds[b]);
      if !st.builds[b].installed {
        forall i | i in st.builds[b].plan
          ensures PlanOk(st.history, st.truth, files', st.builds[b].outputs, i, st.builds[b].plan[i])
        {
          assert PlanOk(st.history, st.truth, st.files, st.builds[b].outputs, i, st.builds[b].plan[i]);
        }
      }
    }
  }

  lemma ObsoleteKeeps(st: State, fs: set<nat>)
    requires Inv(st) && Free(st, fs)
    requires forall f :: f in fs ==> f in st.files && st.files[f].state != Obsolete
    requires forall k, f :: f in fs ==> !Refers(VisCell(st.history, k, |st.history|), f)
    ensures Inv(st.(files := MarkObsolete(st.files, fs, Latest(st))))
  {
    ObsoleteKeepsReaders(st.history, st.truth, st.snaps, st.files, st.registered, fs);
    ObsoleteKeepsJobs(st, fs);
    ObsoleteKeepsBuilds(st, fs);
  }

  lemma LevelMergeDeleteKeeps(st: State, f: nat)
    requires Inv(st) && CanDelete(st, f)
    ensures Inv(LevelMergeDeleted(st, f))
  {
    FreeByState(st, {f});
    forall k ensures !Refers(VisCell(st.history, k, |st.history|), f) {
      var i := Find(st.history, k, |st.history|);
      assert i >= 0 ==> !RefersVersion(st.history[i], f);
    }
    ObsoleteKeeps(st, {f});
  }

  /** When a job ends, no other job or build holds its files. */
  lemma JobFilesFree(st: State, j: nat)
    requires Inv(st) && j in st.jobs
    ensures var mid := st.(jobs := st.jobs - {j});
            && Free(mid, st.jobs[j].inputs)
            && (st.jobs[j].installed ==> Free(mid, st.jobs[j].out.Keys))
  {
    var mid := st.(jobs := st.jobs - {j});
    var job := st.jobs[j];
    assert JobOk(st.config, st.files, st.registered, st.nextFile, job);
    forall i, f | i in mid.jobs && (f in job.inputs || (job.installed && f in job.out))
      ensures f !in st.jobs[i].inputs && (st.jobs[i].installed ==> f !in st.jobs[i].out)
    {
      assert JobOk(st.config, st.files, st.registered, st.nextFile, st.jobs[i]);
    }
    forall b, f | b in st.builds && (f in job.inputs || (job.installed && f in job.out))
      ensures f !in st.builds[b].outputs
    {
      assert BuildOk(st.history, st.truth, st.files, st.builds[b]);
    }
  }

  lemma GcAbortKeeps(st: State, j: nat)
    requires Inv(st) && j in st.jobs
    ensures Inv(GcAborted(st, j))
  {
    hide Inv;
    var job := st.jobs[j];
    JobFacts(st, j);
    JobFilesFree(st, j);
    DroppedJobKeeps(st, j);
    var fs := job.inputs + (if job.installed then job.out.Keys else {});
    SignalKeeps(st.(jobs := st.jobs - {j}), fs, GCCompleted);
  }

  /** Ending a job: the outputs become normal and the inputs obsolete. */
  lemma FinishedFiles(files: Files, job: GcJob, s: nat)
    requires forall f :: f in job.inputs ==> f in files && files[f].state == BeingGC
    requires forall f :: f in job.out ==> f in files && files[f].state == PendingGC
    ensures Signal(MarkObsolete(files, job.inputs, s), job.inputs + job.out.Keys, GCCompleted)
         == MarkObsolete(Signal(files, job.out.Keys, GCCompleted), job.inputs, s)
  {
  }

  lemma GcFinishKeeps(st: State, j: nat)
    requires Inv(st) && j in st.jobs && st.jobs[j].installed && st.jobs[j].batches == []
    ensures Inv(GcFinished(st, j))
  {
    hide Inv;
    var job := st.jobs[j];
    JobFacts(st, j);
    JobFilesFree(st, j);
    DroppedJobKeeps(st, j);
    var mid := st.(jobs := st.jobs - {j});
    SignalKeeps(mid, job.out.Keys, GCCompleted);
    var mid' := mid.(files := Signal(mid.files, job.out.Keys, GCCompleted));
    FinishedFiles(st.files, job, Latest(st));
    ObsoleteKeeps(mid', job.inputs);
  }

  // ---------------------------------------------------------------- purge and crash

  /** The files that are left: everything but some obsolete files that no reader can reach. */
  ghost predicate Shrunk(h: seq<Version>, snaps: map<nat, nat>, files: Files, files': Files) {
    && files'.Keys <= files.Keys
    && (forall f :: f in files' ==> files'[f] == files[f])
    && (forall f :: f in files && f !in files' ==>
          && files[f].state == Obsolete
          && forall k, s: nat :: s <= |h| && IsView(h, snaps, s) ==> !Refers(VisCell(h, k, s), f))
  }

  lemma ShrunkKeepsJobs(st: State, files': Files)
    requires JobsOk(st) && Shrunk(st.history, st.snaps, st.files, files')
    ensures JobsOk(st.(files := files'))
  {
    forall j | j in st.jobs ensures JobOk(st.config, files', st.registered, st.nextFile, st.jobs[j]) {
      assert JobOk(st.config, st.files, st.registered, st.nextFile, st.jobs[j]);
      forall b | b in st.jobs[j].batches ensures BatchOk(files', st.jobs[j], b) {
        assert BatchOk(st.files, st.jobs[j], b);
      }
    }
  }

  lemma ShrunkKeepsBuilds(st: State, files': Files)
    requires BuildsOk(st.history, st.truth, st.files, st.builds) && Shrunk(st.history, st.snaps, st.files, files')
    ensures BuildsOk(st.history, st.truth, files', st.builds)
  {
    forall b | b in st.builds ensures BuildOk(st.history, st.truth, files', st.builds[b]) {
      assert BuildOk(st.history, st.truth, st.files, st.builds[b]);
      if !st.builds[b].installed {
        forall i | i in st.builds[b].plan
          ensures PlanOk(st.history, st.truth, files', st.builds[b].outputs, i, st.builds[b].plan[i])
        {
          assert PlanOk(st.history, st.truth, st.files, st.builds[b].outputs, i, st.builds[b].plan[i]);
        }
      }
    }
  }

  lemma ShrunkKeeps(st: State, files': Files)
    requires Inv(st) && Shrunk(st.history, st.snaps, st.files, files')
    ensures Inv(st.(files := files'))
  {
    ShrunkKeepsJobs(st, files');
    ShrunkKeepsBuilds(st, files');
    forall i | 0 <= i < |st.history| && st.history[i].Live?
      ensures CellOk(st.history[i].key, st.history[i].cell, st.truth[i], files', st.registered)
    {
      assert CellOk(st.history[i].key, st.history[i].cell, st.truth[i], st.files, st.registered);
    }
  }

  lemma PurgeKeeps(st: State)
    requires Inv(st)
    ensures Inv(Purged(st))
  {
    ShrunkKeeps(st, Purged(st).files);
  }

  lemma MemoryLostKeeps(st: State)
    requires Inv(st)
    ensures Inv(st.(snaps := map[], builds := map[], jobs := map[]))
  {
    assert forall s: nat :: IsView(st.history, map[], s) ==> IsView(st.history, st.snaps, s);
  }

  function Survivors(files: Files): Files {
    map f | f in files && files[f].state != Obsolete :: files[f]
  }

  function Restarted(files: Files): Files {
    map f | f in files :: files[f].(state := Normal)
  }

  lemma SurvivorsKeep(st: State)
    requires Inv(st) && st.snaps == map[]
    ensures Inv(st.(files := Survivors(st.files)))
  {
    ShrunkKeeps(st, Survivors(st.files));
  }

  lemma CrashKeeps(st: State)
    requires Inv(st)
    ensures Inv(Recovered(st))
  {
    hide Inv;
    var mid := st.(snaps := map[], builds := map[], jobs := map[]);
    MemoryLostKeeps(st);
    SurvivorsKeep(mid);
    RecoveredStates(mid.(files := Survivors(st.files)));
    assert Recovered(st).files == Restarted(Survivors(st.files));
  }

  lemma RecoveredStates(st: State)
    requires Inv(st) && st.jobs == map[] && st.builds == map[]
    requires forall f :: f in st.files ==> st.files[f].state != Obsolete
    ensures Inv(st.(files := Restarted(st.files)))
  {
    RestatedKeeps(st, Restarted(st.files), st.files.Keys);
  }

  // ---------------------------------------------------------------- every step

  lemma InitialInv(st: State)
    requires Initial(st)
    ensures Inv(st)
  {
  }

  lemma StepKeeps(st: State, a: Action)
    requires Inv(st) && Enabled(st, a)
    ensures Inv(Apply(st, a))
  {
    hide Inv;
    match a
    case Put(k, v) => AppendKeeps(st, k, Inline(v), Some(v));
    case Delete(k) => AppendKeeps(st, k, Tombstone, None);
    case PutSeparated(k, v, idx) => PutSeparatedKeeps(st, k, v, idx);
    case TakeSnapshot(id) => TakeSnapshotKeeps(st, id);
    case ReleaseSnapshot(id) => ReleaseSnapshotKeeps(st, id);
    case BuildFinish(j, flush, outputs, plan, next) => BuildFinishKeeps(st, j, flush, outputs, plan, next);
    case BuildInstall(j) => BuildInstallKeeps(st, j);
    case BuildComplete(j, touched) => BuildCompleteKeeps(st, j, touched);
    case BuildAbort(j) => DroppedBuildKeeps(st, j);
    case GcStart(j, inputs) => GcStartKeeps(st, j, inputs);
    case GcScan(j, src, dst) => GcScanKeeps(st, j, src, dst);
    case GcMove(j, src, dst) => GcMoveKeeps(st, j, src, dst);
    case GcInstall(j) => GcInstallKeeps(st, j);
    case GcRewrite(j) => GcRewriteKeeps(st, j);
    case GcFinish(j) => GcFinishKeeps(st, j);
    case GcAbort(j) => GcAbortKeeps(st, j);
    case Mark(f, e) => MarkKeeps(st, f, e);
    case LevelMergeDelete(f) => LevelMergeDeleteKeeps(st, f);
    case Purge => PurgeKeeps(st);
    case Crash => CrashKeeps(st);
  }
}
