/**
 The store as a state machine. The LSM tree is a history of versions, one per sequence
 number; values live in blob files; flushes, compactions and garbage collections run in
 phases that interleave with foreground writes, snapshots, purges and crashes.
 */
module TitanProtocol {
  import opened Optional
  import opened BlobFileState

  type Key(==, !new)
  type Value(==, !new)

  datatype BlobHandle = BlobHandle(offset: nat, size: nat)
  datatype BlobIndex = BlobIndex(file: nat, handle: BlobHandle)
  datatype Record = Record(key: Key, value: Value)
  type Records = map<BlobHandle, Record>

  /** What the LSM stores for one version of a key. */
  datatype Cell = Inline(value: Value) | Index(idx: BlobIndex) | Tombstone
  datatype Version = Live(key: Key, cell: Cell) | Dropped

  /** `onlyValue` is the framing the records were written with. */
  datatype BlobFile = BlobFile(sorted: bool, onlyValue: bool, records: Records, state: FileState, obsoleteAt: nat)

  /** `family` is the column family the store is run for. */
  datatype Config = Config(levelMerge: bool, sepBeforeFlush: bool, family: nat)

  /** One rewrite of a GC job: `key` moves from `src` to `dst`. */
  datatype Batch = Batch(key: Key, src: BlobIndex, dst: BlobIndex)

  /** `todo` holds the records not yet scanned; `out` the output files, registered once `installed`. */
  datatype GcJob = GcJob(inputs: set<nat>, todo: set<BlobIndex>, batches: seq<Batch>, out: map<nat, Records>,
                         installed: bool)

  /** A flush or compaction whose blob files are registered; `plan` says what it puts for each version it rewrites. */
  datatype Build = Build(flush: bool, outputs: set<nat>, plan: map<nat, Version>, installed: bool)

  /**
   `history[i]` is the version with sequence number i + 1. `truth[i]` is an auxiliary
   variable: the value the client meant with that version, None for a deletion.
   `registered` holds every file number the manifest has ever added.
   */
  datatype State = State(
    config: Config,
    history: seq<Version>,
    truth: seq<Option<Value>>,
    files: map<nat, BlobFile>,
    registered: set<nat>,
    nextFile: nat,
    snaps: map<nat, nat>,
    builds: map<nat, Build>,
    jobs: map<nat, GcJob>)

  // ---------------------------------------------------------------- reading

  function Latest(st: State): nat { |st.history| }

  predicate IsFor(v: Version, k: Key) { v.Live? && v.key == k }

  /** The newest version of k among the first s, or -1. */
  function Find(h: seq<Version>, k: Key, s: nat): (r: int)
    requires s <= |h|
    ensures -1 <= r < s
    ensures r >= 0 ==> IsFor(h[r], k)
    ensures forall j :: r < j < s ==> !IsFor(h[j], k)
  {
    if s == 0 then -1 else if IsFor(h[s - 1], k) then s - 1 else Find(h, k, s - 1)
  }

  function VisCell(h: seq<Version>, k: Key, s: nat): Cell
    requires s <= |h|
  {
    var i := Find(h, k, s);
    if i < 0 then Tombstone else h[i].cell
  }

  datatype ReadResult = Found(value: Value) | NotFound | Corruption

  /** Reading an index fails when the file is gone, the record is missing or the framing is not the one written. */
  function Resolve(st: State, c: Cell): ReadResult {
    match c
    case Inline(v) => Found(v)
    case Tombstone => NotFound
    case Index(idx) =>
      if idx.file !in st.files then Corruption
      else
        var f := st.files[idx.file];
        if f.onlyValue != (st.config.levelMerge && f.sorted) || idx.handle !in f.records then Corruption
        else Found(f.records[idx.handle].value)
  }

  function Read(st: State, k: Key, s: nat): ReadResult
    requires s <= Latest(st)
  {
    Resolve(st, VisCell(st.history, k, s))
  }

  /** The sequence numbers a reader can be at: the latest one and every live snapshot. */
  predicate IsView(h: seq<Version>, snaps: map<nat, nat>,
                   s: nat) { s == |h| || exists id :: id in snaps && snaps[id] == s }

  // ---------------------------------------------------------------- steps

  datatype Action =
    | Put(key: Key, value: Value)
    | PutSeparated(key: Key, value: Value, index: BlobIndex)
    | Delete(key: Key)
    | TakeSnapshot(id: nat)
    | ReleaseSnapshot(id: nat)
    | BuildFinish(job: nat, flush: bool, outputs: map<nat, Records>, plan: map<nat, Version>, next: nat)
    | BuildInstall(job: nat)
    | BuildComplete(job: nat, touched: set<nat>)
    | BuildAbort(job: nat)
    | GcStart(job: nat, inputs: set<nat>)
    | GcScan(job: nat, src: BlobIndex, dst: BlobIndex)
    | GcMove(job: nat, src: BlobIndex, dst: BlobIndex)
    | GcInstall(job: nat)
    | GcRewrite(job: nat)
    | GcFinish(job: nat)
    | GcAbort(job: nat)
    | Mark(file: nat, event: FileEvent)
    | LevelMergeDelete(file: nat)
    | Purge
    | Crash

  predicate Refers(c: Cell, f: nat) { c.Index? && c.idx.file == f }

  predicate RefersVersion(v: Version, f: nat) { v.Live? && Refers(v.cell, f) }

  /**
   * What the table builder guarantees of one rewritten version: same key, same value, in one of its own files or
   * inline.
   */
  predicate PlanEntryOk(st: State, outputs: map<nat, Records>, i: nat, p: Version) {
    && i < |st.history|
    && st.history[i].Live?
    && (p.Live? ==>
          && p.key == st.history[i].key
          && Resolve(st, st.history[i].cell).Found?
          && var v := Resolve(st, st.history[i].cell).value;
             match p.cell
             case Inline(w) => w == v
             case Tombstone => false
             case Index(idx) =>
               idx.file in outputs && idx.handle in outputs[idx.file] &&
               outputs[idx.file][idx.handle] == Record(p.key, v))
  }

  predicate FreshFiles(st: State, fs: set<nat>, next: nat) {
    st.nextFile <= next && forall f :: f in fs ==> st.nextFile <= f < next
  }

  /** No reader at a live view sees version i: compaction may drop it. */
  ghost predicate Invisible(st: State, i: nat)
    requires i < |st.history| && st.history[i].Live?
  {
    forall s: nat :: s <= |st.history| && IsView(st.history, st.snaps, s) ==>
      Find(st.history, st.history[i].key, s) != i
  }

  /** A tombstone below which the compaction leaves no version of its key. */
  ghost predicate HidesNothing(h: seq<Version>, plan: map<nat, Version>, i: nat)
    requires i < |h| && h[i].Live?
  {
    h[i].cell.Tombstone? && forall j :: 0 <= j < i ==> !IsFor(Substituted(h, plan)[j], h[i].key)
  }

  function NewFile(records: Records, sorted: bool, onlyValue: bool, state: FileState): BlobFile {
    BlobFile(sorted, onlyValue, records, state, 0)
  }

  /** Registers several files at once, as one manifest edit does. */
  function Register(files: map<nat, BlobFile>, out: map<nat, Records>, sorted: bool, onlyValue: bool,
                    e: FileEvent): map<nat, BlobFile> {
    files + map f | f in out :: NewFile(out[f], sorted, onlyValue, Moved(Init, e))
  }

  /** Sends an event to each file of a set. */
  function Signal(files: map<nat, BlobFile>, fs: set<nat>, e: FileEvent): map<nat, BlobFile> {
    map f | f in files :: if f in fs then files[f].(state := Moved(files[f].state, e)) else files[f]
  }

  /** Marks the files of a set obsolete at sequence number s. */
  function MarkObsolete(files: map<nat, BlobFile>, fs: set<nat>, s: nat): map<nat, BlobFile> {
    map f | f in files ::
      if f in fs then files[f].(state := Moved(files[f].state, FileEvent.Delete), obsoleteAt := s) else files[f]
  }

  function Substituted(h: seq<Version>, plan: map<nat, Version>): (r: seq<Version>)
    ensures |r| == |h|
    ensures forall i :: 0 <= i < |h| ==> r[i] == if i in plan then plan[i] else h[i]
  {
    seq(|h|, i requires 0 <= i < |h| => if i in plan then plan[i] else h[i])
  }

  function RecordsOf(files: map<nat, BlobFile>, fs: set<nat>): set<BlobIndex>
  {
    set f, h | f in fs && f in files && h in files[f].records :: BlobIndex(f, h)
  }

  /** Every live snapshot is newer than the sequence number at which the file became obsolete. */
  predicate Purgeable(st: State, f: nat) {
    f in st.files && st.files[f].state == Obsolete &&
    forall id :: id in st.snaps ==> st.snaps[id] > st.files[f].obsoleteAt
  }

  // Guards

  ghost predicate CanFinishBuild(st: State, j: nat, outputs: map<nat, Records>, plan: map<nat, Version>, next: nat) {
    && j !in st.builds
    && FreshFiles(st, outputs.Keys, next)
    && (forall i :: i in plan ==> PlanEntryOk(st, outputs, i, plan[i]))
    && (forall b :: b in st.builds && !st.builds[b].installed ==> st.builds[b].plan.Keys !! plan.Keys)
  }

  ghost predicate CanInstallBuild(st: State, j: nat) {
    && j in st.builds && !st.builds[j].installed
    && (forall i :: i in st.builds[j].plan && st.builds[j].plan[i].Dropped? && i < |st.history| && st.history[i].Live?
          ==> Invisible(st, i) || HidesNothing(st.history, st.builds[j].plan, i))
  }

  /** Besides its own outputs, a flushed memtable can hold indexes put there by GC or by separation before flush. */
  predicate CanCompleteBuild(st: State, j: nat, touched: set<nat>) {
    && j in st.builds && st.builds[j].installed
    && (!st.builds[j].flush ==> touched == {})
    && (forall f :: f in touched ==>
          && f in st.files
          && (st.config.levelMerge ==> !st.files[f].sorted)
          && (forall b :: b in st.builds ==> f !in st.builds[b].outputs))
  }

  /** The picker takes files in state Normal, and under level merge only unsorted ones. */
  predicate CanStartGc(st: State, j: nat, inputs: set<nat>) {
    && j !in st.jobs
    && (forall f :: f in inputs ==>
          && f in st.files && st.files[f].state == Normal
          && (st.config.levelMerge ==> !st.files[f].sorted))
  }

  predicate CanScan(st: State, j: nat, src: BlobIndex, dst: BlobIndex) {
    && j in st.jobs && !st.jobs[j].installed
    && src in st.jobs[j].todo
    && (dst.file in st.jobs[j].out || dst.file >= st.nextFile)
    && (dst.file in st.jobs[j].out ==> dst.handle !in st.jobs[j].out[dst.file])
  }

  /**
   * Values are separated before the memtable and never merged by level: GC puts records back through the front door.
   */
  predicate PutsBack(config: Config) { config.sepBeforeFlush && !config.levelMerge }

  predicate CanMove(st: State, j: nat, src: BlobIndex, dst: BlobIndex) {
    && PutsBack(st.config)
    && j in st.jobs && !st.jobs[j].installed
    && src in st.jobs[j].todo
    && dst.file >= st.nextFile
  }

  /** Under level merge, a completed compaction marks sorted files that live SSTs refer to. */
  predicate CanMark(st: State, f: nat, e: FileEvent) {
    && st.config.levelMerge && e in {NeedMerge, NeedGC}
    && f in st.files && st.files[f].sorted
    && (exists i :: 0 <= i < |st.history| && RefersVersion(st.history[i], f))
    && (forall b :: b in st.builds ==> f !in st.builds[b].outputs)
  }

  /** Under level merge, a sorted file that no live SST refers to any more is deleted. */
  predicate CanDelete(st: State, f: nat) {
    && st.config.levelMerge && f in st.files && st.files[f].sorted
    && st.files[f].state in {Normal, ToMerge, ToGC}
    && (forall i :: 0 <= i < |st.history| ==> !RefersVersion(st.history[i], f))
  }

  ghost predicate Enabled(st: State, a: Action) {
    match a
    case Put(_, _) => true
    case Delete(_) => true
    case PutSeparated(_, _, idx) => st.config.sepBeforeFlush && idx.file >= st.nextFile
    case TakeSnapshot(id) => id !in st.snaps
    case ReleaseSnapshot(id) => id in st.snaps
    case BuildFinish(j, _, outputs, plan, next) => CanFinishBuild(st, j, outputs, plan, next)
    case BuildInstall(j) => CanInstallBuild(st, j)
    case BuildComplete(j, touched) => CanCompleteBuild(st, j, touched)
    case BuildAbort(j) => j in st.builds && !st.builds[j].installed
    case GcStart(j, inputs) => CanStartGc(st, j, inputs)
    case GcScan(j, src, dst) => !PutsBack(st.config) && CanScan(st, j, src, dst)
    case GcMove(j, src, dst) => CanMove(st, j, src, dst)
    case GcInstall(j) => j in st.jobs && !st.jobs[j].installed && st.jobs[j].todo == {}
    case GcRewrite(j) => j in st.jobs && st.jobs[j].installed && st.jobs[j].batches != []
    case GcFinish(j) => j in st.jobs && st.jobs[j].installed && st.jobs[j].batches == []
    case GcAbort(j) => j in st.jobs
    case Mark(f, e) => CanMark(st, f, e)
    case LevelMergeDelete(f) => CanDelete(st, f)
    case Purge => true
    case Crash => true
  }

  // Effects

  function Appended(st: State, k: Key, c: Cell, t: Option<Value>): State {
    st.(history := st.history + [Live(k, c)], truth := st.truth + [t])
  }

  /** One record of a GC scan: keep it exactly when it is the latest version of its key. */
  function Scanned(st: State, job: GcJob, src: BlobIndex, dst: BlobIndex): GcJob
  {
    if src.file in st.files && src.handle in st.files[src.file].records then
      var rec := st.files[src.file].records[src.handle];
      if VisCell(st.history, rec.key, Latest(st)) == Index(src) then
        var part := if dst.file in job.out then job.out[dst.file] else map[];
        job.(todo := job.todo - {src},
             batches := job.batches + [Batch(rec.key, src, dst)],
             out := job.out[dst.file := part[dst.handle := rec]])
      else job.(todo := job.todo - {src})
    else job.(todo := job.todo - {src})
  }

  function ValueAt(files: map<nat, BlobFile>, idx: BlobIndex): Option<Value> {
    if idx.file in files && idx.handle in files[idx.file].records
    then Some(files[idx.file].records[idx.handle].value) else None
  }

  /** The first pending rewrite, written without looking at the LSM again. */
  function RewrittenPlain(st: State, j: nat): State
    requires j in st.jobs && st.jobs[j].batches != []
  {
    var b := st.jobs[j].batches[0];
    Appended(st, b.key, Index(b.dst), ValueAt(st.files, b.dst))
      .(jobs := st.jobs[j := st.jobs[j].(batches := st.jobs[j].batches[1..])])
  }

  /** The first pending rewrite under the write callback: written only if the key still has the index the scan saw. */
  function RewrittenChecked(st: State, j: nat): State
    requires j in st.jobs && st.jobs[j].batches != []
  {
    var b := st.jobs[j].batches[0];
    if VisCell(st.history, b.key, Latest(st)) == Index(b.src) then RewrittenPlain(st, j)
    else st.(jobs := st.jobs[j := st.jobs[j].(batches := st.jobs[j].batches[1..])])
  }

  function SoleRecord(k: Key, v: Value, idx: BlobIndex): map<nat, Records> {
    map[idx.file := map[idx.handle := Record(k, v)]]
  }

  /** A write separated before the memtable: the value goes to an unsorted blob file, the index to the LSM. */
  function PutApart(st: State, k: Key, v: Value, idx: BlobIndex): State {
    Appended(WithNewFiles(st, SoleRecord(k, v, idx), false, false, Reset, idx.file + 1), k, Index(idx), Some(v))
  }

  /** One manifest edit that adds files and moves the file-number counter. */
  function WithNewFiles(st: State, out: map<nat, Records>, sorted: bool, onlyValue: bool, e: FileEvent,
                        next: nat): State {
    st.(files := Register(st.files, out, sorted, onlyValue, e), registered := st.registered + out.Keys,
        nextFile := next)
  }

  function BuildFinished(st: State, j: nat, flush: bool, outputs: map<nat, Records>, plan: map<nat, Version>,
                         next: nat): State {
    WithNewFiles(st, outputs, true, st.config.levelMerge, FlushOrCompactionOutput, next)
      .(builds := st.builds[j := Build(flush, outputs.Keys, plan, false)])
  }

  function BuildInstalled(st: State, j: nat): State
    requires j in st.builds
  {
    st.(history := Substituted(st.history, st.builds[j].plan),
        builds := st.builds[j := st.builds[j].(installed := true)])
  }

  function BuildCompleted(st: State, j: nat, touched: set<nat>): State
    requires j in st.builds
  {
    var e := if st.builds[j].flush then FlushCompleted else CompactionCompleted;
    st.(files := Signal(st.files, st.builds[j].outputs + touched, e), builds := st.builds - {j})
  }

  function GcStarted(st: State, j: nat, inputs: set<nat>): State {
    st.(files := Signal(st.files, inputs, GCBegin),
        jobs := st.jobs[j := GcJob(inputs, RecordsOf(st.files, inputs), [], map[], false)])
  }

  function GcScanned(st: State, j: nat, src: BlobIndex, dst: BlobIndex): State
    requires j in st.jobs
  {
    var job := Scanned(st, st.jobs[j], src, dst);
    st.(jobs := st.jobs[j := job],
        nextFile := if dst.file in job.out && dst.file >= st.nextFile then dst.file + 1 else st.nextFile)
  }

  /** The record with the latest version of its key is written again as a separated put; any other is skipped. */
  function PutBack(st: State, src: BlobIndex, dst: BlobIndex): State {
    if src.file in st.files && src.handle in st.files[src.file].records then
      var rec := st.files[src.file].records[src.handle];
      if VisCell(st.history, rec.key, Latest(st)) == Index(src) then PutApart(st, rec.key, rec.value, dst) else st
    else st
  }

  function GcMoved(st: State, j: nat, src: BlobIndex, dst: BlobIndex): State
    requires j in st.jobs
  {
    PutBack(st, src, dst).(jobs := st.jobs[j := st.jobs[j].(todo := st.jobs[j].todo - {src})])
  }

  function GcInstalled(st: State, j: nat): State
    requires j in st.jobs
  {
    WithNewFiles(st, st.jobs[j].out, !st.config.sepBeforeFlush, false, GCOutput, st.nextFile)
      .(jobs := st.jobs[j := st.jobs[j].(installed := true)])
  }

  /** Inputs are deleted in the manifest and all files of the job released, under one hold of the mutex. */
  function GcFinished(st: State, j: nat): State
    requires j in st.jobs
  {
    st.(files := Signal(MarkObsolete(st.files, st.jobs[j].inputs, Latest(st)),
                        st.jobs[j].inputs + st.jobs[j].out.Keys, GCCompleted),
        jobs := st.jobs - {j})
  }

  function GcAborted(st: State, j: nat): State
    requires j in st.jobs
  {
    st.(files := Signal(st.files, st.jobs[j].inputs + (if st.jobs[j].installed then st.jobs[j].out.Keys else {}),
                        GCCompleted),
        jobs := st.jobs - {j})
  }

  /** The deletion record does not name its column family, so it is refused outside family 0 and nothing changes. */
  function LevelMergeDeleted(st: State, f: nat): State {
    if st.config.family == 0 then st.(files := MarkObsolete(st.files, {f}, Latest(st))) else st
  }

  function Purged(st: State): State {
    st.(files := map f | f in st.files && !Purgeable(st, f) :: st.files[f])
  }

  /** Memory is lost; the manifest brings back every file it has not deleted; the LSM is durable. */
  function Recovered(st: State): State {
    st.(files := map f | f in st.files && st.files[f].state != Obsolete
                   :: st.files[f].(state := Moved(Init, DbRestart)),
        snaps := map[], builds := map[], jobs := map[])
  }

  ghost function Apply(st: State, a: Action): State
    requires Enabled(st, a)
  {
    match a
    case Put(k, v) => Appended(st, k, Inline(v), Some(v))
    case Delete(k) => Appended(st, k, Tombstone, None)
    case PutSeparated(k, v, idx) => PutApart(st, k, v, idx)
    case TakeSnapshot(id) => st.(snaps := st.snaps[id := Latest(st)])
    case ReleaseSnapshot(id) => st.(snaps := st.snaps - {id})
    case BuildFinish(j, flush, outputs, plan, next) => BuildFinished(st, j, flush, outputs, plan, next)
    case BuildInstall(j) => BuildInstalled(st, j)
    case BuildComplete(j, touched) => BuildCompleted(st, j, touched)
    case BuildAbort(j) => st.(builds := st.builds - {j})
    case GcStart(j, inputs) => GcStarted(st, j, inputs)
    case GcScan(j, src, dst) => GcScanned(st, j, src, dst)
    case GcMove(j, src, dst) => GcMoved(st, j, src, dst)
    case GcInstall(j) => GcInstalled(st, j)
    case GcRewrite(j) => RewrittenChecked(st, j)
    case GcFinish(j) => GcFinished(st, j)
    case GcAbort(j) => GcAborted(st, j)
    case Mark(f, e) => st.(files := Signal(st.files, {f}, e))
    case LevelMergeDelete(f) => LevelMergeDeleted(st, f)
    case Purge => Purged(st)
    case Crash => Recovered(st)
  }

  predicate Initial(st: State) {
    && st.history == [] && st.truth == [] && st.files == map[] && st.registered == {}
    && st.snaps == map[] && st.builds == map[] && st.jobs == map[]
  }
}
