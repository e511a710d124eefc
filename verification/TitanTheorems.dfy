/** What clients of the store are promised, over every run of the protocol. */
module TitanTheorems {
  import opened Optional
  import opened BlobFileState
  import opened TitanProtocol
  import opened TitanInvariant

  // ---------------------------------------------------------------- reads tell the truth

  /** The value meant by the newest version of k among the first s. */
  function TruthAt(h: seq<Version>, truth: seq<Option<Value>>, k: Key, s: nat): Option<Value>
    requires s <= |h| == |truth|
  {
    var i := Find(h, k, s);
    if i < 0 then None else truth[i]
  }

  function AsRead(t: Option<Value>): ReadResult {
    match t
    case None => NotFound
    case Some(v) => Found(v)
  }

  /** A read at a live view never fails and returns the value meant. */
  lemma ReadIsTruth(st: State, k: Key, s: nat)
    requires Inv(st) && s <= Latest(st) && IsView(st.history, st.snaps, s)
    ensures Read(st, k, s) == AsRead(TruthAt(st.history, st.truth, k, s))
  {
    var i := Find(st.history, k, s);
    if i >= 0 {
      assert CellOk(st.history[i].key, st.history[i].cell, st.truth[i], st.files, st.registered);
      if st.history[i].cell.Index? {
        VisibleIsStored(st, k, s);
        assert FileOk(st.config, st.files[st.history[i].cell.idx.file]);
      }
    }
  }

  // ---------------------------------------------------------------- refinement of a map with snapshots

  /** The abstract store: a map, and a copy of it for each live snapshot. */
  datatype Spec = Spec(now: map<Key, Value>, snaps: map<nat, map<Key, Value>>)

  function Lookup(m: map<Key, Value>, k: Key): Option<Value> {
    if k in m then Some(m[k]) else None
  }

  /** Only foreground operations and a crash, which ends all snapshots, show at this level. */
  function SpecStep(sp: Spec, a: Action): Spec {
    match a
    case Put(k, v) => sp.(now := sp.now[k := v])
    case PutSeparated(k, v, _) => sp.(now := sp.now[k := v])
    case Delete(k) => sp.(now := sp.now - {k})
    case TakeSnapshot(id) => sp.(snaps := sp.snaps[id := sp.now])
    case ReleaseSnapshot(id) => sp.(snaps := sp.snaps - {id})
    case Crash => sp.(snaps := map[])
    case _ => sp
  }

  lemma TruthDomain(st: State)
    requires Inv(st)
    ensures |st.truth| == |st.history|
    ensures forall id :: id in st.snaps ==> st.snaps[id] <= |st.history|
  {
  }

  ghost predicate Refines(st: State, sp: Spec) {
    && Inv(st)
    && sp.snaps.Keys == st.snaps.Keys
    && (forall k :: TruthAt(st.history, st.truth, k, |st.history|) == Lookup(sp.now, k))
    && (forall id, k :: id in st.snaps ==> TruthAt(st.history, st.truth, k, st.snaps[id]) == Lookup(sp.snaps[id], k))
  }

  lemma AppendRefines(st: State, sp: Spec, k: Key, c: Cell, t: Option<Value>)
    requires Refines(st, sp) && Inv(Appended(st, k, c, t))
    ensures Refines(Appended(st, k, c, t), sp.(now := if t.Some? then sp.now[k := t.value] else sp.now - {k}))
  {
    var st' := Appended(st, k, c, t);
    forall x, s: nat | s <= |st.history|
      ensures TruthAt(st'.history, st'.truth, x, s) == TruthAt(st.history, st.truth, x, s)
    {
      FindAppend(st.history, Live(k, c), x, s);
    }
    forall x
      ensures TruthAt(st'.history, st'.truth, x, |st'.history|) ==
                if x == k then t else TruthAt(st.history, st.truth, x, |st.history|)
    {
      FindAppend(st.history, Live(k, c), x, 0);
    }
  }

  lemma InstallRefines(st: State, sp: Spec, j: nat)
    requires Refines(st, sp) && CanInstallBuild(st, j) && Inv(BuildInstalled(st, j))
    ensures Refines(BuildInstalled(st, j), sp)
  {
    var st' := BuildInstalled(st, j);
    forall k, s: nat | s <= |st.history| && IsView(st.history, st.snaps, s)
      ensures TruthAt(st'.history, st'.truth, k, s) == TruthAt(st.history, st.truth, k, s)
    {
      InstallKeepsVisible(st, j, k, s);
      var r := Find(st.history, k, s);
      if r >= 0 { assert CellOk(k, st.history[r].cell, st.truth[r], st.files, st.registered); }
    }
    assert forall id :: id in st.snaps ==> IsView(st.history, st.snaps, st.snaps[id]);
  }

  /** A checked rewrite appends a version with the value its key already has. */
  lemma RewriteRefines(st: State, sp: Spec, j: nat)
    requires Refines(st, sp) && Enabled(st, GcRewrite(j))
    ensures Refines(RewrittenChecked(st, j), sp)
  {
    hide Inv;
    GcRewriteKeeps(st, j);
    TruthDomain(st);
    JobFacts(st, j);
    var b := st.jobs[j].batches[0];
    if VisCell(st.history, b.key, |st.history|) == Index(b.src) {
      BatchTarget(st, j);
      VisibleIsStored(st, b.key, |st.history|);
      var t := ValueAt(st.files, b.dst);
      assert TruthAt(st.history, st.truth, b.key, |st.history|) == t == Lookup(sp.now, b.key);
      AppendKeeps(st, b.key, Index(b.dst), t);
      AppendRefines(st, sp, b.key, Index(b.dst), t);
      assert sp.now[b.key := t.value] == sp.now;
    }
  }

  lemma QuietRefines(st: State, st': State, sp: Spec)
    requires Refines(st, sp) && Inv(st')
    requires st'.history == st.history && st'.truth == st.truth && st'.snaps == st.snaps
    ensures Refines(st', sp)
  {
  }

  lemma SnapshotRefines(st: State, sp: Spec, a: Action)
    requires Refines(st, sp) && Enabled(st, a) && Inv(Apply(st, a))
    requires a.TakeSnapshot? || a.ReleaseSnapshot? || a.Crash?
    ensures Refines(Apply(st, a), SpecStep(sp, a))
  {
    hide Inv;
    TruthDomain(st);
    TruthDomain(Apply(st, a));
  }

  /** Every step of the protocol is a step of the abstract store. */
  lemma StepRefines(st: State, sp: Spec, a: Action)
    requires Refines(st, sp) && Enabled(st, a)
    ensures Refines(Apply(st, a), SpecStep(sp, a))
  {
    hide Inv;
    StepKeeps(st, a);
    match a
    case TakeSnapshot(id) => SnapshotRefines(st, sp, a);
    case ReleaseSnapshot(id) => SnapshotRefines(st, sp, a);
    case Crash => SnapshotRefines(st, sp, a);
    case Put(k, v) => AppendRefines(st, sp, k, Inline(v), Some(v));
    case Delete(k) => AppendRefines(st, sp, k, Tombstone, None);
    case PutSeparated(k, v, idx) =>
      PutSeparatedRefines(st, sp, k, v, idx);
    case BuildInstall(j) => InstallRefines(st, sp, j);
    case GcRewrite(j) => RewriteRefines(st, sp, j);
    case GcMove(j, src, dst) => MoveRefines(st, sp, j, src, dst);
    case _ => QuietRefines(st, Apply(st, a), sp);
  }

  lemma PutSeparatedRefines(st: State, sp: Spec, k: Key, v: Value, idx: BlobIndex)
    requires Refines(st, sp) && Enabled(st, PutSeparated(k, v, idx))
    ensures Refines(PutApart(st, k, v, idx), sp.(now := sp.now[k := v]))
  {
    hide Inv;
    PutSeparatedKeeps(st, k, v, idx);
    TruthDomain(st);
    var mid := WithNewFiles(st, SoleRecord(k, v, idx), false, false, Reset, idx.file + 1);
    RegisterKeeps(st, SoleRecord(k, v, idx), false, false, Reset, idx.file + 1);
    AppendRefines(mid, sp, k, Index(idx), Some(v));
  }

  /** A record put back has the value its key already has. */
  lemma MoveRefines(st: State, sp: Spec, j: nat, src: BlobIndex, dst: BlobIndex)
    requires Refines(st, sp) && CanMove(st, j, src, dst)
    ensures Refines(GcMoved(st, j, src, dst), sp)
  {
    hide Inv, PutApart;
    GcMoveKeeps(st, j, src, dst);
    PutBackKeeps(st, j, src, dst);
    PutBackHides(st, j, src, dst);
    TruthDomain(st);
    var rec := st.files[src.file].records[src.handle];
    if VisCell(st.history, rec.key, |st.history|) == Index(src) {
      VisibleIsStored(st, rec.key, |st.history|);
      assert Lookup(sp.now, rec.key) == Some(rec.value);
      PutSeparatedRefines(st, sp, rec.key, rec.value, dst);
      assert sp.now[rec.key := rec.value] == sp.now;
    }
    QuietRefines(PutBack(st, src, dst), GcMoved(st, j, src, dst), sp);
  }

  // ---------------------------------------------------------------- runs

  ghost predicate ValidRun(st: State, run: seq<Action>)
    decreases |run|
  {
    run == [] || (Enabled(st, run[0]) && ValidRun(Apply(st, run[0]), run[1..]))
  }

  ghost function Exec(st: State, run: seq<Action>): State
    requires ValidRun(st, run)
    decreases |run|
  {
    if run == [] then st else Exec(Apply(st, run[0]), run[1..])
  }

  function SpecExec(sp: Spec, run: seq<Action>): Spec
    decreases |run|
  {
    if run == [] then sp else SpecExec(SpecStep(sp, run[0]), run[1..])
  }

  lemma {:induction false} RunRefines(st: State, sp: Spec, run: seq<Action>)
    requires Refines(st, sp) && ValidRun(st, run)
    ensures Refines(Exec(st, run), SpecExec(sp, run))
    decreases |run|
  {
    if run != [] {
      StepRefines(st, sp, run[0]);
      RunRefines(Apply(st, run[0]), SpecStep(sp, run[0]), run[1..]);
    }
  }

  /**
   Safety over whole runs: whatever flushes, compactions, GC jobs, purges and crashes are
   interleaved with foreground operations, a read of any key at the latest sequence or at
   any live snapshot returns what a plain map with snapshots would return.
   */
  lemma StoreIsAMap(st: State, run: seq<Action>, k: Key)
    requires Initial(st) && ValidRun(st, run)
    ensures var st' := Exec(st, run);
            var sp := SpecExec(Spec(map[], map[]), run);
            && Read(st', k, Latest(st')) == AsRead(Lookup(sp.now, k))
            && sp.snaps.Keys == st'.snaps.Keys
            && (forall id :: id in st'.snaps ==>
                  && st'.snaps[id] <= Latest(st')
                  && Read(st', k, st'.snaps[id]) == AsRead(Lookup(sp.snaps[id], k)))
  {
    InitialInv(st);
    RunRefines(st, Spec(map[], map[]), run);
    var st' := Exec(st, run);
    ReadIsTruth(st', k, Latest(st'));
    forall id | id in st'.snaps
      ensures st'.snaps[id] <= Latest(st')
      ensures Read(st', k, st'.snaps[id]) == AsRead(TruthAt(st'.history, st'.truth, k, st'.snaps[id]))
    {
      ReadIsTruth(st', k, st'.snaps[id]);
    }
  }

  /** No dangling pointer: in every reachable state each index a reader can see leads to its record. */
  lemma NoDanglingPointer(st: State, run: seq<Action>, k: Key, s: nat)
    requires Initial(st) && ValidRun(st, run)
    requires var st' := Exec(st, run);
             s <= Latest(st') && IsView(st'.history, st'.snaps, s) && VisCell(st'.history, k, s).Index?
    ensures var st' := Exec(st, run);
            var idx := VisCell(st'.history, k, s).idx;
            && idx.file in st'.files && idx.handle in st'.files[idx.file].records
            && st'.files[idx.file].records[idx.handle].key == k
            && Read(st', k, s) == Found(st'.files[idx.file].records[idx.handle].value)
  {
    InitialInv(st);
    RunRefines(st, Spec(map[], map[]), run);
    VisibleIsStored(Exec(st, run), k, s);
    ReadIsTruth(Exec(st, run), k, s);
  }

  // ---------------------------------------------------------------- background steps are invisible

  predicate Background(a: Action) {
    || a.BuildFinish? || a.BuildInstall? || a.BuildComplete? || a.BuildAbort?
    || a.GcStart? || a.GcScan? || a.GcMove? || a.GcInstall?
    || a.GcRewrite? || a.GcFinish? || a.GcAbort? || a.Mark? || a.LevelMergeDelete? || a.Purge?
  }

  /** The map a reader at sequence number s sees. */
  function ViewOf(st: State, s: nat): map<Key, Value>
    requires s <= |st.history| == |st.truth|
  {
    map v | v in st.history && v.Live? && TruthAt(st.history, st.truth, v.key, s).Some?
      :: v.key := TruthAt(st.history, st.truth, v.key, s).value
  }

  lemma ViewIsTruth(st: State, s: nat, k: Key)
    requires s <= |st.history| == |st.truth|
    ensures Lookup(ViewOf(st, s), k) == TruthAt(st.history, st.truth, k, s)
  {
    var i := Find(st.history, k, s);
    if i >= 0 && st.truth[i].Some? {
      assert st.history[i] in st.history;
    }
  }

  ghost function AbsOf(st: State): Spec
    requires Inv(st)
  {
    Spec(ViewOf(st, |st.history|), map id | id in st.snaps :: ViewOf(st, st.snaps[id]))
  }

  lemma AbsRefines(st: State)
    requires Inv(st)
    ensures Refines(st, AbsOf(st))
  {
    forall k, s: nat | s <= |st.history| ensures TruthAt(st.history, st.truth, k, s) == Lookup(ViewOf(st, s), k) {
      ViewIsTruth(st, s, k);
    }
  }

  /** Transparency: no flush, compaction, GC or purge step changes what any reader sees, latest or at a snapshot. */
  lemma BackgroundIsTransparent(st: State, a: Action, k: Key)
    requires Inv(st) && Enabled(st, a) && Background(a)
    ensures var st' := Apply(st, a);
            && Read(st', k, Latest(st')) == Read(st, k, Latest(st))
            && st'.snaps == st.snaps
            && (forall id :: id in st.snaps ==>
                  st.snaps[id] <= Latest(st) <= Latest(st') && Read(st', k, st.snaps[id]) == Read(st, k, st.snaps[id]))
  {
    var st' := Apply(st, a);
    AbsRefines(st);
    StepRefines(st, AbsOf(st), a);
    BackgroundKeepsSnapshots(st, a);
    BackgroundIsIdle(AbsOf(st), a);
    ReadIsTruth(st, k, Latest(st));
    ReadIsTruth(st', k, Latest(st'));
    forall id | id in st.snaps
      ensures st.snaps[id] <= Latest(st) <= Latest(st') && Read(st', k, st.snaps[id]) == Read(st, k, st.snaps[id])
    {
      ReadIsTruth(st, k, st.snaps[id]);
      ReadIsTruth(st', k, st.snaps[id]);
    }
  }

  lemma BackgroundKeepsSnapshots(st: State, a: Action)
    requires Enabled(st, a) && Background(a)
    ensures Apply(st, a).snaps == st.snaps && Latest(st) <= Latest(Apply(st, a))
  {
  }

  lemma BackgroundIsIdle(sp: Spec, a: Action)
    requires Background(a)
    ensures SpecStep(sp, a) == sp
  {
  }

  /** A state refines one map with snapshots only. */
  lemma RefinedOnce(st: State, sp: Spec, sq: Spec)
    requires Refines(st, sp) && Refines(st, sq)
    ensures sp == sq
  {
    SameMap(sp.now, sq.now);
    forall id | id in st.snaps ensures sp.snaps[id] == sq.snaps[id] { SameMap(sp.snaps[id], sq.snaps[id]); }
  }

  lemma SameMap(m: map<Key, Value>, n: map<Key, Value>)
    requires forall k :: Lookup(m, k) == Lookup(n, k)
    ensures m == n
  {
    assert forall k :: (k in m <==> Lookup(m, k).Some?) && (k in n <==> Lookup(n, k).Some?);
  }

  /** The contents of the store, now and at every snapshot, are the same after any background step. */
  lemma BackgroundKeepsContents(st: State, a: Action)
    requires Inv(st) && Enabled(st, a) && Background(a)
    ensures Inv(Apply(st, a)) && AbsOf(Apply(st, a)) == AbsOf(st)
  {
    hide Inv, AbsOf, Refines, Apply, Enabled, Background, SpecStep;
    AbsRefines(st);
    StepRefines(st, AbsOf(st), a);
    BackgroundIsIdle(AbsOf(st), a);
    StepKeeps(st, a);
    AbsRefines(Apply(st, a));
    RefinedOnce(Apply(st, a), AbsOf(st), AbsOf(Apply(st, a)));
  }

  // ---------------------------------------------------------------- the write callback matters

  /** After an unchecked rewrite its key reads as the value the scan copied, whatever it read as before. */
  lemma ReadAfterPlainRewrite(st: State, j: nat, k: Key)
    requires Inv(st) && Enabled(st, GcRewrite(j))
    ensures var b := st.jobs[j].batches[0];
            && ValueAt(st.files, b.dst).Some?
            && Read(RewrittenPlain(st, j), k, Latest(st) + 1) ==
               if k == b.key then Found(ValueAt(st.files, b.dst).value) else Read(st, k, Latest(st))
  {
    hide Inv;
    var b := st.jobs[j].batches[0];
    BatchTarget(st, j);
    JobFacts(st, j);
    FindAppend(st.history, Live(b.key, Index(b.dst)), k, 0);
  }

  /**
   The rewrite as it is called, without the write callback, is invisible exactly when the
   key still reads as the value the scan copied.
   */
  lemma PlainRewriteExact(st: State, j: nat)
    requires Inv(st) && Enabled(st, GcRewrite(j))
    ensures var b := st.jobs[j].batches[0];
            && ValueAt(st.files, b.dst).Some?
            && ((forall k :: Read(RewrittenPlain(st, j), k, Latest(st) + 1) == Read(st, k, Latest(st)))
                <==> Read(st, b.key, Latest(st)) == Found(ValueAt(st.files, b.dst).value))
  {
    hide Inv, Read;
    var b := st.jobs[j].batches[0];
    ReadAfterPlainRewrite(st, j, b.key);
    forall k
      ensures Read(RewrittenPlain(st, j), k, Latest(st) + 1) ==
              if k == b.key then Found(ValueAt(st.files, b.dst).value) else Read(st, k, Latest(st))
    {
      ReadAfterPlainRewrite(st, j, k);
    }
  }

  /** A foreground write between the scan and an unchecked rewrite is lost; the checked rewrite keeps it. */
  lemma PlainRewriteLosesUpdate(st: State, j: nat, w: Value)
    requires Inv(st) && Enabled(st, GcRewrite(j))
    requires ValueAt(st.files, st.jobs[j].batches[0].dst) != Some(w)
    ensures var k := st.jobs[j].batches[0].key;
            var mid := Apply(st, Put(k, w));
            && Read(mid, k, Latest(mid)) == Found(w)
            && Read(RewrittenPlain(mid, j), k, Latest(mid) + 1) != Found(w)
            && RewrittenChecked(mid, j).history == mid.history
  {
    var b := st.jobs[j].batches[0];
    var mid := Apply(st, Put(b.key, w));
    BatchTarget(st, j);
    FindAppend(st.history, Live(b.key, Inline(w)), b.key, 0);
    FindAppend(mid.history, Live(b.key, Index(b.dst)), b.key, 0);
  }

  /** A key deleted between the scan and an unchecked rewrite comes back. */
  lemma PlainRewriteResurrects(st: State, j: nat)
    requires Inv(st) && Enabled(st, GcRewrite(j))
    ensures var k := st.jobs[j].batches[0].key;
            var mid := Apply(st, Action.Delete(k));
            && Read(mid, k, Latest(mid)) == NotFound
            && Read(RewrittenPlain(mid, j), k, Latest(mid) + 1).Found?
            && RewrittenChecked(mid, j).history == mid.history
  {
    var b := st.jobs[j].batches[0];
    var mid := Apply(st, Action.Delete(b.key));
    BatchTarget(st, j);
    assert FileOk(st.config, st.files[b.dst.file]);
    hide Inv;
    FindAppend(st.history, Live(b.key, Tombstone), b.key, 0);
    FindAppend(mid.history, Live(b.key, Index(b.dst)), b.key, 0);
  }

  /**
   A record put back without looking at its key again, as GC does when values are separated before the memtable,
   is invisible exactly when the key still reads as the record's value.
   */
  lemma PutBackExact(st: State, k: Key, v: Value, dst: BlobIndex)
    requires Inv(st) && PutsBack(st.config) && dst.file >= st.nextFile
    ensures (forall x :: Read(PutApart(st, k, v, dst), x, Latest(st) + 1) == Read(st, x, Latest(st)))
            <==> Read(st, k, Latest(st)) == Found(v)
  {
    hide Read;
    forall x
      ensures Read(PutApart(st, k, v, dst), x, Latest(st) + 1) == if x == k then Found(v) else Read(st, x, Latest(st))
    {
      ReadAfterPutBack(st, k, v, dst, x);
    }
    ReadAfterPutBack(st, k, v, dst, k);
  }

  lemma PutApartAdds(st: State, k: Key, v: Value, dst: BlobIndex)
    requires Inv(st) && dst.file >= st.nextFile
    ensures var st' := PutApart(st, k, v, dst);
            && st'.config == st.config && st'.history == st.history + [Live(k, Index(dst))]
            && dst.file in st'.files
            && st'.files[dst.file] == BlobFile(false, false, map[dst.handle := Record(k, v)], Normal, 0)
            && forall f :: f in st.files ==> f in st'.files && st'.files[f] == st.files[f]
  {
    hide Inv;
    FileFacts(st);
  }

  lemma ReadAfterPutBack(st: State, k: Key, v: Value, dst: BlobIndex, x: Key)
    requires Inv(st) && PutsBack(st.config) && dst.file >= st.nextFile
    ensures Latest(PutApart(st, k, v, dst)) == Latest(st) + 1
    ensures Read(PutApart(st, k, v, dst), x, Latest(st) + 1) == if x == k then Found(v) else Read(st, x, Latest(st))
  {
    hide Inv, PutApart, VisCell;
    PutApartAdds(st, k, v, dst);
    FindAppend(st.history, Live(k, Index(dst)), x, 0);
    if VisCell(st.history, x, Latest(st)).Index? { VisibleIsStored(st, x, Latest(st)); }
  }

  // ---------------------------------------------------------------- the oldest snapshot must be read with the purge

  predicate Takes(st: State, oldest: nat, f: nat) {
    f in st.files && st.files[f].state == Obsolete && oldest > st.files[f].obsoleteAt
  }

  /** A purge that uses a given oldest snapshot sequence, possibly read earlier. */
  function PurgedWith(st: State, oldest: nat): State {
    st.(files := map f | f in st.files && !Takes(st, oldest, f) :: st.files[f])
  }

  /** A purge is safe as long as the number it uses is no newer than any live snapshot. */
  lemma PurgeSafe(st: State, oldest: nat)
    requires Inv(st)
    requires forall id :: id in st.snaps ==> oldest <= st.snaps[id]
    ensures Inv(PurgedWith(st, oldest))
  {
    ShrunkKeeps(st, PurgedWith(st, oldest).files);
  }

  /** Some reader at a live view gets an index into the file. */
  ghost predicate Seen(st: State, f: nat) {
    exists k, s: nat :: s <= |st.history| && IsView(st.history, st.snaps, s) && Refers(VisCell(st.history, k, s), f)
  }

  lemma PurgedRead(st: State, oldest: nat, k: Key, s: nat)
    requires Inv(st) && s <= Latest(st) && IsView(st.history, st.snaps, s)
    ensures var c := VisCell(st.history, k, s);
            if c.Index? && Takes(st, oldest, c.idx.file)
            then && Read(st, k, s).Found? && Read(PurgedWith(st, oldest), k, s) == Corruption
                 && s < st.files[c.idx.file].obsoleteAt
            else Read(PurgedWith(st, oldest), k, s) == Read(st, k, s)
  {
    ReadIsTruth(st, k, s);
    if VisCell(st.history, k, s).Index? { VisibleIsStored(st, k, s); }
  }

  /** A purge changes no read at a live view if and only if it takes no file that such a reader still sees. */
  lemma PurgeExact(st: State, oldest: nat)
    requires Inv(st)
    ensures (forall k, s: nat :: s <= Latest(st) && IsView(st.history, st.snaps, s) ==>
               Read(PurgedWith(st, oldest), k, s) == Read(st, k, s))
            <==> (forall f :: Takes(st, oldest, f) ==> !Seen(st, f))
  {
    hide Inv, Read;
    forall k, s: nat | s <= Latest(st) && IsView(st.history, st.snaps, s)
      ensures var c := VisCell(st.history, k, s);
              if c.Index? && Takes(st, oldest, c.idx.file)
              then Seen(st, c.idx.file) && Read(PurgedWith(st, oldest), k, s) != Read(st, k, s)
              else Read(PurgedWith(st, oldest), k, s) == Read(st, k, s)
    {
      PurgedRead(st, oldest, k, s);
    }
  }

  // ---------------------------------------------------------------- file life cycle

  predicate Allowed(s: FileState, e: FileEvent) { Transit(s, e).Some? }

  ghost predicate AllAllowed(files: Files, fs: set<nat>, e: FileEvent) {
    forall f :: f in fs ==> f in files && Allowed(files[f].state, e)
  }

  /** Every transition the step makes passes the assertions of the source. */
  ghost predicate NoAssertFails(st: State, a: Action)
    requires Enabled(st, a)
  {
    match a
    case PutSeparated(_, _, _) => Allowed(Init, Reset)
    case GcMove(_, _, _) => Allowed(Init, Reset)
    case BuildFinish(_, _, _, _, _) => Allowed(Init, FlushOrCompactionOutput)
    case BuildComplete(j, touched) =>
      AllAllowed(st.files, st.builds[j].outputs + touched,
                 if st.builds[j].flush then FlushCompleted else CompactionCompleted)
    case GcStart(_, inputs) => AllAllowed(st.files, inputs, GCBegin)
    case GcInstall(_) => Allowed(Init, GCOutput)
    case GcFinish(j) =>
      && AllAllowed(st.files, st.jobs[j].inputs, FileEvent.Delete)
      && AllAllowed(MarkObsolete(st.files, st.jobs[j].inputs, Latest(st)), st.jobs[j].inputs + st.jobs[j].out.Keys,
                    GCCompleted)
    case GcAbort(j) =>
      AllAllowed(st.files, st.jobs[j].inputs + (if st.jobs[j].installed then st.jobs[j].out.Keys else {}), GCCompleted)
    case Mark(f, e) => AllAllowed(st.files, {f}, e)
    case LevelMergeDelete(f) => AllAllowed(st.files, {f}, FileEvent.Delete)
    case Crash => Allowed(Init, DbRestart)
    case _ => true
  }

  lemma FileFacts(st: State)
    requires Inv(st)
    ensures forall f :: f in st.files ==> f in st.registered && FileOk(st.config, st.files[f])
    ensures forall f :: f in st.registered ==> f < st.nextFile
    ensures forall b, f :: b in st.builds && f in st.builds[b].outputs ==>
              f in st.files && st.files[f].state == PendingLSM
  {
    forall b, f | b in st.builds && f in st.builds[b].outputs ensures f in st.files && st.files[f].state == PendingLSM {
      assert BuildOk(st.history, st.truth, st.files, st.builds[b]);
    }
  }

  lemma CompleteAllowed(st: State, j: nat, touched: set<nat>)
    requires Inv(st) && CanCompleteBuild(st, j, touched)
    ensures AllAllowed(st.files, st.builds[j].outputs + touched,
                       if st.builds[j].flush then FlushCompleted else CompactionCompleted)
  {
    hide Inv;
    FileFacts(st);
  }

  lemma FinishAllowed(files: Files, job: GcJob, s: nat)
    requires forall f :: f in job.inputs ==> f in files && files[f].state == BeingGC
    requires forall f :: f in job.out ==> f in files && files[f].state == PendingGC
    ensures AllAllowed(files, job.inputs, FileEvent.Delete)
    ensures AllAllowed(MarkObsolete(files, job.inputs, s), job.inputs + job.out.Keys, GCCompleted)
    ensures AllAllowed(files, job.inputs + job.out.Keys, GCCompleted)
  {
  }

  lemma NoAssertFires(st: State, a: Action)
    requires Inv(st) && Enabled(st, a)
    ensures NoAssertFails(st, a)
  {
    hide Inv, FileOk;
    match a
    case BuildComplete(j, touched) => CompleteAllowed(st, j, touched);
    case GcFinish(j) =>
      JobFacts(st, j);
      FinishAllowed(st.files, st.jobs[j], Latest(st));
    case GcAbort(j) => JobFacts(st, j);
    case _ =>
  }

  lemma SignalSkipsObsolete(files: Files, fs: set<nat>, e: FileEvent, f: nat)
    requires f in files && files[f].state == Obsolete
    requires e in {FlushCompleted, CompactionCompleted, GCCompleted, GCBegin, NeedMerge, NeedGC}
    ensures f in Signal(files, fs, e) && Signal(files, fs, e)[f] == files[f]
  {
  }

  lemma FinishSkipsObsolete(st: State, j: nat, f: nat)
    requires Inv(st) && j in st.jobs && f in st.files && st.files[f].state == Obsolete
    ensures f in GcFinished(st, j).files && GcFinished(st, j).files[f] == st.files[f]
  {
    hide Inv, Moved;
    JobFacts(st, j);
    var files' := MarkObsolete(st.files, st.jobs[j].inputs, Latest(st));
    SignalSkipsObsolete(files', st.jobs[j].inputs + st.jobs[j].out.Keys, GCCompleted, f);
  }

  lemma NewFilesAreNew(st: State, a: Action, f: nat)
    requires Inv(st) && Enabled(st, a) && f in st.registered
    requires a.PutSeparated? || a.BuildFinish? || a.GcMove? || a.GcInstall?
    ensures var st' := Apply(st, a);
            f in st'.registered && (f in st'.files <==> f in st.files)
            && (f in st.files ==> st'.files[f] == st.files[f])
  {
    hide Inv, Moved, FileOk;
    FileFacts(st);
    if a.GcInstall? { JobFacts(st, a.job); }
  }

  /** Obsolete is absorbing: an obsolete file stays so, with the same mark, until it is gone for good. */
  lemma ObsoleteIsAbsorbing(st: State, a: Action, f: nat)
    requires Inv(st) && Enabled(st, a)
    requires f in st.registered && (f in st.files ==> st.files[f].state == Obsolete)
    ensures var st' := Apply(st, a);
            && f in st'.registered
            && (f in st'.files ==> f in st.files && st'.files[f] == st.files[f])
  {
    hide Inv, Moved, Signal, MarkObsolete, Register;
    if a.PutSeparated? || a.BuildFinish? || a.GcMove? || a.GcInstall? {
      NewFilesAreNew(st, a, f);
    } else if f in st.files {
      match a
      case BuildComplete(j, touched) =>
        SignalSkipsObsolete(st.files, st.builds[j].outputs + touched,
                            if st.builds[j].flush then FlushCompleted else CompactionCompleted, f);
      case GcStart(j, inputs) => SignalSkipsObsolete(st.files, inputs, GCBegin, f);
      case GcAbort(j) =>
        SignalSkipsObsolete(st.files, st.jobs[j].inputs + (if st.jobs[j].installed then st.jobs[j].out.Keys else {}),
                            GCCompleted, f);
      case Mark(g, e) => SignalSkipsObsolete(st.files, {g}, e, f);
      case GcFinish(j) => FinishSkipsObsolete(st, j, f);
      case LevelMergeDelete(g) => DeleteSkipsOthers(st.files, {g}, Latest(st), f);
      case _ =>
    } else {
      SignalsAddNothing(st, a, f);
    }
  }

  lemma DeleteSkipsOthers(files: Files, fs: set<nat>, s: nat, f: nat)
    requires f in files && f !in fs
    ensures f in MarkObsolete(files, fs, s) && MarkObsolete(files, fs, s)[f] == files[f]
  {
  }

  lemma SignalsAddNothing(st: State, a: Action, f: nat)
    requires Enabled(st, a) && f !in st.files && !(a.PutSeparated? || a.BuildFinish? || a.GcMove? || a.GcInstall?)
    ensures f !in Apply(st, a).files && Apply(st, a).registered == st.registered
  {
  }

  /**
   * A file is an input of at most one running GC, and no GC picks the output of a flush or compaction still under way.
   */
  lemma PickedOnce(st: State, run: seq<Action>, f: nat, i: nat, j: nat)
    requires Initial(st) && ValidRun(st, run)
    requires var st' := Exec(st, run); i in st'.jobs && f in st'.jobs[i].inputs
    ensures var st' := Exec(st, run);
            && (j in st'.jobs && f in st'.jobs[j].inputs ==> i == j)
            && (forall b :: b in st'.builds ==> f !in st'.builds[b].outputs)
            && (forall inputs :: CanStartGc(st', j, inputs) ==> f !in inputs)
  {
    InitialInv(st);
    RunRefines(st, Spec(map[], map[]), run);
    var st' := Exec(st, run);
    assert JobOk(st'.config, st'.files, st'.registered, st'.nextFile, st'.jobs[i]);
    forall b | b in st'.builds ensures f !in st'.builds[b].outputs {
      assert BuildOk(st'.history, st'.truth, st'.files, st'.builds[b]);
    }
  }

  /** Over whole runs no assertion of the file life cycle fires. */
  lemma LifecycleSafe(st: State, run: seq<Action>, a: Action)
    requires Initial(st) && ValidRun(st, run) && Enabled(Exec(st, run), a)
    ensures NoAssertFails(Exec(st, run), a)
  {
    InitialInv(st);
    RunRefines(st, Spec(map[], map[]), run);
    NoAssertFires(Exec(st, run), a);
  }

  // ---------------------------------------------------------------- deletions outside column family 0

  /** A sorted file under level merge in a column family other than 0. */
  predicate Stuck(st: State, f: nat) {
    st.config.levelMerge && st.config.family != 0 && f in st.files && st.files[f].sorted
    && st.files[f].state != Obsolete
  }

  lemma SignalSkipsDelete(files: Files, fs: set<nat>, e: FileEvent, f: nat)
    requires f in files && files[f].state != Obsolete && e != FileEvent.Delete
    ensures var files' := Signal(files, fs, e);
            f in files' && files'[f].sorted == files[f].sorted && files'[f].state != Obsolete
  {
  }

  lemma FinishSkipsSorted(st: State, j: nat, f: nat)
    requires Inv(st) && j in st.jobs && Stuck(st, f)
    ensures Stuck(GcFinished(st, j), f)
  {
    JobFacts(st, j);
    assert FileOk(st.config, st.files[f]);
    hide Inv, Moved, Signal, MarkObsolete;
    DeleteSkipsOthers(st.files, st.jobs[j].inputs, Latest(st), f);
    SignalSkipsDelete(MarkObsolete(st.files, st.jobs[j].inputs, Latest(st)), st.jobs[j].inputs + st.jobs[j].out.Keys,
                      GCCompleted, f);
  }

  lemma StuckNew(st: State, a: Action, f: nat)
    requires Inv(st) && Enabled(st, a) && Stuck(st, f)
    requires (a.PutSeparated? || a.BuildFinish? || a.GcMove? || a.GcInstall?)
    ensures Stuck(Apply(st, a), f)
  {
    hide Inv, Register, VisCell, Scanned;
    FileFacts(st);
    NewFilesAreNew(st, a, f);
  }

  lemma StuckSignal(st: State, fs: set<nat>, e: FileEvent, f: nat)
    requires Stuck(st, f) && e != FileEvent.Delete
    ensures Stuck(st.(files := Signal(st.files, fs, e)), f)
  {
    hide Signal;
    SignalSkipsDelete(st.files, fs, e, f);
  }

  lemma StuckStep(st: State, a: Action, f: nat)
    requires Inv(st) && Enabled(st, a) && Stuck(st, f)
    ensures Stuck(Apply(st, a), f)
  {
    hide Inv, Signal, MarkObsolete, Register, PutBack, PutApart, VisCell, Scanned, CanFinishBuild, CanScan, CanMark,
         GcFinished;
    match a
    case BuildComplete(j, touched) =>
      StuckSignal(st, st.builds[j].outputs + touched,
                  if st.builds[j].flush then FlushCompleted else CompactionCompleted, f);
    case GcStart(j, inputs) => StuckSignal(st, inputs, GCBegin, f);
    case GcAbort(j) =>
      StuckSignal(st, st.jobs[j].inputs + (if st.jobs[j].installed then st.jobs[j].out.Keys else {}), GCCompleted, f);
    case Mark(g, e) => StuckMark(st, g, e, f);
    case GcFinish(j) => FinishSkipsSorted(st, j, f);
    case _ => if a.PutSeparated? || a.BuildFinish? || a.GcMove? || a.GcInstall? { StuckNew(st, a, f); }
  }

  lemma StuckMark(st: State, g: nat, e: FileEvent, f: nat)
    requires Stuck(st, f) && CanMark(st, g, e)
    ensures Stuck(st.(files := Signal(st.files, {g}, e)), f)
  {
    StuckSignal(st, {g}, e, f);
  }

  /** Outside family 0 no run ever removes a sorted file, dead or not, nor marks it for removal. */
  lemma {:induction false} SortedFilesStay(st: State, run: seq<Action>, f: nat)
    requires Inv(st) && ValidRun(st, run) && Stuck(st, f)
    ensures Stuck(Exec(st, run), f)
    decreases |run|
  {
    if run != [] {
      StuckStep(st, run[0], f);
      StepKeeps(st, run[0]);
      SortedFilesStay(Apply(st, run[0]), run[1..], f);
    }
  }
}
