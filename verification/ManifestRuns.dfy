/** Runs of the file set that reach the states in which the manifest goes wrong. */
module ManifestRuns {
  import opened Optional
  import opened Coding
  import opened ManifestLog
  import opened Manifest

  lemma OneAddition(next: Option<nat>, cf: nat, f: BlobFileMeta)
    ensures Gather(map[], VersionEdit(next, cf, [f], [], map[])) == Some(map[cf := CfEdits(map[f.number := f], map[])])
  {
    assert AddAll(map[], [f]) == Some(map[f.number := f]) by { assert AddAll(map[], [f][..0]) == Some(map[]); }
  }

  lemma OneDeletion(next: Option<nat>, cf: nat, n: nat, s: nat)
    ensures Gather(map[], VersionEdit(next, cf, [], [(n, s)], map[])) == Some(map[cf := CfEdits(map[], map[n := s])])
  {
    var ds: seq<(nat, nat)> := [(n, s)];
    assert DeleteAll(map[], ds) == Some(map[n := s]) by { assert DeleteAll(map[], ds[..0]) == Some(map[]); }
  }

  function With(s: Storage, f: BlobFileMeta): Storage { s[f.number := Entry(f, None)] }

  /** A file with a fresh number joins column family cf. */
  method AddFresh(files: BlobFileSet, cf: nat, size: nat) returns (f: BlobFileMeta)
    requires files.Valid() && files.Careful() && cf in files.families
    requires forall n :: n in files.families[cf] ==> n < files.nextFile
    modifies files
    ensures files.Valid() && files.Careful() && f.number == old(files.nextFile) && files.nextFile == f.number + 1
    ensures files.families == old(files.families)[cf := With(old(files.families)[cf], f)]
    ensures f.number in EditsOf(files.manifest, cf).added
  {
    hide Climbs, LastNext, HasNext, Below, Faithful, GatherAll, Gather, Accepts, AppliedAll, NumberSet, Unused, With;
    var n := files.NewFileNumber();
    f := BlobFileMeta(n, size, 1, 0, 0, [], []);
    var edit := VersionEdit(None, cf, [f], [], map[]);
    FreshAdded(files.families, cf, f);
    ghost var before := files.manifest;
    var s := files.LogAndApply(edit);
    AddedIsKnown(before, edit.(next := Some(files.nextFile)), f);
  }

  lemma FreshAdded(st: map<nat, Storage>, cf: nat, f: BlobFileMeta)
    requires cf in st && f.number !in st[cf]
    ensures var e := VersionEdit(None, cf, [f], [], map[]);
            && e.added == [f] && e.cf == cf && NumberSet(e.added) == {f.number}
            && Accepts(st, e) && AppliedAll(Gather(map[], e).value, st) == st[cf := With(st[cf], f)]
  {
    OneAddition(None, cf, f);
    assert Numbers([f]) == [f.number];
    var g := CfEdits(map[f.number := f], map[]);
    assert Applied(g, st[cf]) == With(st[cf], f);
  }

  lemma AddedIsKnown(log: seq<VersionEdit>, e: VersionEdit, f: BlobFileMeta)
    requires GatherAll(log + [e]).Some? && e.added == [f]
    ensures f.number in EditsOf(log + [e], e.cf).added
  {
    GatherAppend(log, e);
    AddAllExact(EditsOf(log, e.cf).added, [f]);
    assert Numbers([f])[0] in Numbers([f]);
  }

  /**
   * A file is added, deleted and purged; then its number comes back. The record is accepted, and from then on
   * the manifest cannot be replayed.
   */
  method ReuseNumber(size: nat) returns (files: BlobFileSet, s: Status)
    ensures files.Valid() && s == Ok && GatherAll(files.manifest).None?
  {
    hide Climbs, LastNext, HasNext, Below, Faithful, GatherAll, Gather, Accepts, AppliedAll, NumberSet, Unused;
    files := new BlobFileSet({0});
    files.Open();
    var f := AddFresh(files, 0, size);
    DropAndPurge(files, f);
    ghost var log, st := files.manifest, files.families;
    var again := VersionEdit(None, 0, [f], [], map[]);
    ReusedNumberBreaksReplay(log, st, 0, f);
    s := files.LogAndApply(again);
    GatherAppend(log, again);
    GatherAppend(log, again.(next := Some(files.nextFile)));
    NextIgnored(again, Some(files.nextFile));
  }

  lemma NextIgnored(e: VersionEdit, next: Option<nat>)
    ensures forall c :: Gather(c, e.(next := next)) == Gather(c, e)
  {
  }

  /** The only file of family 0 is deleted at sequence 0 and purged. */
  method DropAndPurge(files: BlobFileSet, f: BlobFileMeta)
    requires files.Valid() && files.Careful() && files.families == map[0 := With(map[], f)] && f.number < files.nextFile
    requires f.number in EditsOf(files.manifest, 0).added
    modifies files
    ensures files.Valid() && files.Careful() && files.families == map[0 := map[]]
    ensures f.number < files.nextFile && f.number in EditsOf(files.manifest, 0).added
  {
    hide Climbs, LastNext, HasNext, Below, Faithful, GatherAll, Gather, Accepts, AppliedAll, NumberSet, Unused, With;
    var ds: seq<(nat, nat)> := [(f.number, 0)];
    SoleDropped(f, ds);
    ghost var log := files.manifest;
    var s := files.LogAndApply(DeletionRecord(ds));
    AdditionsStay(log, DeletionRecord(ds).(next := Some(files.nextFile)), 0, f.number);
    files.Purge(1);
  }

  lemma SoleDropped(f: BlobFileMeta, ds: seq<(nat, nat)>)
    requires ds == [(f.number, 0)]
    ensures var st: map<nat, Storage>, e := map[0 := With(map[], f)], DeletionRecord(ds);
            && e.cf == 0 && e.added == [] && NumberSet(e.added) == {} && Accepts(st, e)
            && var next := AppliedAll(Gather(map[], e).value, st);
            next == map[0 := map[f.number := Entry(f, Some(0))]]
  {
    OneDeletion(None, 0, f.number, 0);
    var g := CfEdits(map[], map[f.number := 0]);
    assert Sealable(g, With(map[], f));
    assert Applied(g, With(map[], f)) == map[f.number := Entry(f, Some(0))];
  }

  lemma AdditionsStay(log: seq<VersionEdit>, e: VersionEdit, cf: nat, n: nat)
    requires GatherAll(log).Some? && GatherAll(log + [e]).Some? && n in EditsOf(log, cf).added
    ensures n in EditsOf(log + [e], cf).added
  {
    GatherAppend(log, e);
    AddAllExact(EditsOf(log, e.cf).added, e.added);
  }

  /** A compaction in a family other than 0 asks for a file without live data to be deleted: the file stays for good. */
  method DeletionMissesFamily(family: nat, size: nat) returns (files: BlobFileSet, f: BlobFileMeta, s: Status)
    requires family != 0
    ensures files.Valid() && s != Ok
    ensures family in files.families && f.number in Live(files.families[family])
  {
    files := new BlobFileSet({0, family});
    files.Open();
    f := AddFresh(files, family, size);
    var ds: seq<(nat, nat)> := [(f.number, 0)];
    assert Firsts(ds) == [f.number];
    DeletionExact(files.families, family, ds);
    s := files.LogAndApply(DeletionRecord(ds));
  }
}
