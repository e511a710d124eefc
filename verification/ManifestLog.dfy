/** Manifest records and what a sequence of them stands for. */
module ManifestLog {
  import opened Optional
  import opened Coding

  /** The persistent fields of a blob file. */
  datatype BlobFileMeta = BlobFileMeta(number: nat, size: nat, entries: nat, fileType: nat, level: nat,
                                       smallest: Bytes, largest: Bytes)

  /**
   * One manifest record. Deleted files carry the sequence number at which they became obsolete; updates carry
   * discardable sizes, which play no part in which files exist.
   */
  datatype VersionEdit = VersionEdit(next: Option<nat>, cf: nat, added: seq<BlobFileMeta>, deleted: seq<(nat, nat)>,
                                     updated: map<nat, nat>)

  /** What a collector has gathered for one column family. */
  datatype CfEdits = CfEdits(added: map<nat, BlobFileMeta>, deleted: map<nat, nat>)

  const NO_EDITS := CfEdits(map[], map[])

  /** Adding files one by one; None when a number comes twice. */
  function AddAll(m: map<nat, BlobFileMeta>, fs: seq<BlobFileMeta>): Option<map<nat, BlobFileMeta>>
    decreases |fs|
  {
    if fs == [] then Some(m)
    else
      match AddAll(m, fs[..|fs| - 1])
      case None => None
      case Some(r) =>
        var f := fs[|fs| - 1];
        if f.number in r then None else Some(r[f.number := f])
  }

  function DeleteAll(m: map<nat, nat>, ds: seq<(nat, nat)>): Option<map<nat, nat>>
    decreases |ds|
  {
    if ds == [] then Some(m)
    else
      match DeleteAll(m, ds[..|ds| - 1])
      case None => None
      case Some(r) =>
        var d := ds[|ds| - 1];
        if d.0 in r then None else Some(r[d.0 := d.1])
  }

  function Gathered(c: map<nat, CfEdits>, cf: nat): CfEdits { if cf in c then c[cf] else NO_EDITS }

  /** One more record; None when it repeats an addition or a deletion. */
  function Gather(c: map<nat, CfEdits>, e: VersionEdit): Option<map<nat, CfEdits>> {
    var g := Gathered(c, e.cf);
    match AddAll(g.added, e.added)
    case None => None
    case Some(added) =>
      match DeleteAll(g.deleted, e.deleted)
      case None => None
      case Some(deleted) => Some(c[e.cf := CfEdits(added, deleted)])
  }

  function GatherAll(log: seq<VersionEdit>): Option<map<nat, CfEdits>>
    decreases |log|
  {
    if log == [] then Some(map[])
    else
      match GatherAll(log[..|log| - 1])
      case None => None
      case Some(c) => Gather(c, log[|log| - 1])
  }

  lemma GatherAppend(log: seq<VersionEdit>, e: VersionEdit)
    ensures GatherAll(log + [e]) == match GatherAll(log) case None => None case Some(c) => Gather(c, e)
  {
    assert (log + [e])[..|log|] == log;
  }

  // ---------------------------------------------------------------- when gathering succeeds

  function Numbers(fs: seq<BlobFileMeta>): seq<nat> { seq(|fs|, i requires 0 <= i < |fs| => fs[i].number) }

  function Firsts(ds: seq<(nat, nat)>): seq<nat> { seq(|ds|, i requires 0 <= i < |ds| => ds[i].0) }

  /** The numbers a log adds to, and deletes from, one column family, in order. */
  function AddedNumbers(log: seq<VersionEdit>, cf: nat): seq<nat>
    decreases |log|
  {
    if log == [] then []
    else AddedNumbers(log[..|log| - 1], cf) + if log[|log| - 1].cf == cf then Numbers(log[|log| - 1].added) else []
  }

  function DeletedNumbers(log: seq<VersionEdit>, cf: nat): seq<nat>
    decreases |log|
  {
    if log == [] then []
    else DeletedNumbers(log[..|log| - 1], cf) + if log[|log| - 1].cf == cf then Firsts(log[|log| - 1].deleted) else []
  }

  predicate Distinct(s: seq<nat>) { forall i, j :: 0 <= i < j < |s| ==> s[i] != s[j] }

  lemma {:induction false} AddAllExact(m: map<nat, BlobFileMeta>, fs: seq<BlobFileMeta>)
    ensures AddAll(m, fs).Some? <==> Distinct(Numbers(fs)) && forall n :: n in Numbers(fs) ==> n !in m
    ensures AddAll(m, fs).Some? ==>
              forall n :: n in AddAll(m, fs).value <==> n in m || n in Numbers(fs)
    decreases |fs|
  {
    if fs != [] {
      var k := |fs| - 1;
      AddAllExact(m, fs[..k]);
      assert Numbers(fs) == Numbers(fs[..k]) + [fs[k].number];
      SplitDistinct(Numbers(fs[..k]), fs[k].number);
    }
  }

  lemma {:induction false} DeleteAllExact(m: map<nat, nat>, ds: seq<(nat, nat)>)
    ensures DeleteAll(m, ds).Some? <==> Distinct(Firsts(ds)) && forall n :: n in Firsts(ds) ==> n !in m
    ensures DeleteAll(m, ds).Some? ==>
              forall n :: n in DeleteAll(m, ds).value <==> n in m || n in Firsts(ds)
    decreases |ds|
  {
    if ds != [] {
      var k := |ds| - 1;
      DeleteAllExact(m, ds[..k]);
      assert Firsts(ds) == Firsts(ds[..k]) + [ds[k].0];
      SplitDistinct(Firsts(ds[..k]), ds[k].0);
    }
  }

  lemma SplitDistinct(s: seq<nat>, x: nat)
    ensures Distinct(s + [x]) <==> Distinct(s) && x !in s
    ensures forall n :: n in s + [x] <==> n in s || n == x
  {
    if Distinct(s + [x]) {
      forall i, j | 0 <= i < j < |s| ensures s[i] != s[j] {
        assert (s + [x])[i] == s[i] && (s + [x])[j] == s[j];
      }
      forall i | 0 <= i < |s| ensures s[i] != x {
        assert (s + [x])[i] == s[i] && (s + [x])[|s|] == x;
      }
    }
  }

  lemma JoinDistinct(a: seq<nat>, b: seq<nat>)
    ensures Distinct(a + b) <==> Distinct(a) && Distinct(b) && forall n :: n in b ==> n !in a
    ensures forall n :: n in a + b <==> n in a || n in b
  {
    var s := a + b;
    assert forall i :: 0 <= i < |a| ==> a[i] == s[i];
    assert forall i :: 0 <= i < |b| ==> b[i] == s[|a| + i];
    if Distinct(s) {
      forall i, j | 0 <= i < |a| && 0 <= j < |b| ensures a[i] != b[j] {
        assert s[i] != s[|a| + j];
      }
    } else {
      var i, j :| 0 <= i < j < |s| && s[i] == s[j];
      assert i < |a| <= j ==> s[j] in b && s[i] in a;
      assert |a| <= i ==> b[i - |a|] == b[j - |a|];
    }
  }

  predicate Once(log: seq<VersionEdit>, cf: nat) {
    Distinct(AddedNumbers(log, cf)) && Distinct(DeletedNumbers(log, cf))
  }

  ghost predicate Mirrors(g: CfEdits, added: seq<nat>, deleted: seq<nat>) {
    (forall n :: n in g.added <==> n in added) && (forall n :: n in g.deleted <==> n in deleted)
  }

  /** One record: it is taken exactly when it keeps its column family free of repetitions. */
  lemma GatherExact(c: map<nat, CfEdits>, e: VersionEdit, added: seq<nat>, deleted: seq<nat>)
    requires Mirrors(Gathered(c, e.cf), added, deleted) && Distinct(added) && Distinct(deleted)
    ensures Gather(c, e).Some? <==> Distinct(added + Numbers(e.added)) && Distinct(deleted + Firsts(e.deleted))
    ensures Gather(c, e).Some? ==>
              Mirrors(Gathered(Gather(c, e).value, e.cf), added + Numbers(e.added), deleted + Firsts(e.deleted))
  {
    hide Distinct;
    var g := Gathered(c, e.cf);
    JoinDistinct(added, Numbers(e.added));
    JoinDistinct(deleted, Firsts(e.deleted));
    AddAllExact(g.added, e.added);
    DeleteAllExact(g.deleted, e.deleted);
  }

  /** Gathering a log succeeds exactly when no column family has a number added twice or deleted twice. */
  lemma {:induction false} GatherAllExact(log: seq<VersionEdit>)
    ensures GatherAll(log).Some? <==> forall cf :: Once(log, cf)
    ensures GatherAll(log).Some? ==> forall cf ::
              Mirrors(Gathered(GatherAll(log).value, cf), AddedNumbers(log, cf), DeletedNumbers(log, cf))
    decreases |log|
  {
    hide Once, Distinct, Mirrors, Gather;
    if log == [] {
      EmptyOnce();
    } else {
      var before, e := log[..|log| - 1], log[|log| - 1];
      GatherAllExact(before);
      forall cf ensures Once(log, cf) ==> Once(before, cf) { OnceStep(log, cf); }
      if GatherAll(before).Some? {
        var c := GatherAll(before).value;
        assert Once(before, e.cf);
        OnceGather(c, log);
        forall cf | cf != e.cf ensures Once(log, cf) == Once(before, cf) { OnceStep(log, cf); }
        if GatherAll(log).Some? {
          GatherOthers(c, e);
          forall cf
            ensures Mirrors(Gathered(GatherAll(log).value, cf), AddedNumbers(log, cf), DeletedNumbers(log, cf))
          {
            AddedStep(log, cf);
          }
        }
      }
    }
  }

  lemma OnceGather(c: map<nat, CfEdits>, log: seq<VersionEdit>)
    requires log != []
    requires var e := log[|log| - 1]; var before := log[..|log| - 1];
             Once(before, e.cf) && Mirrors(Gathered(c, e.cf), AddedNumbers(before, e.cf), DeletedNumbers(before, e.cf))
    ensures var e := log[|log| - 1];
            && (Gather(c, e).Some? <==> Once(log, e.cf))
            && (Gather(c, e).Some? ==>
                  Mirrors(Gathered(Gather(c, e).value, e.cf), AddedNumbers(log, e.cf), DeletedNumbers(log, e.cf)))
  {
    hide Distinct, Mirrors, Gather;
    var e, before := log[|log| - 1], log[..|log| - 1];
    AddedStep(log, e.cf);
    GatherExact(c, e, AddedNumbers(before, e.cf), DeletedNumbers(before, e.cf));
  }

  lemma OnceStep(log: seq<VersionEdit>, cf: nat)
    requires log != []
    ensures Once(log, cf) ==> Once(log[..|log| - 1], cf)
    ensures log[|log| - 1].cf != cf ==> Once(log, cf) == Once(log[..|log| - 1], cf)
  {
    hide Distinct;
    var e, before := log[|log| - 1], log[..|log| - 1];
    AddedStep(log, cf);
    OnceShrinks(AddedNumbers(before, cf), Numbers(e.added));
    OnceShrinks(DeletedNumbers(before, cf), Firsts(e.deleted));
  }

  lemma EmptyOnce()
    ensures forall cf :: Once([], cf) && Mirrors(NO_EDITS, AddedNumbers([], cf), DeletedNumbers([], cf))
  {
  }

  lemma OnceShrinks(a: seq<nat>, b: seq<nat>)
    ensures Distinct(a + b) ==> Distinct(a)
  {
    JoinDistinct(a, b);
  }

  lemma GatherOthers(c: map<nat, CfEdits>, e: VersionEdit)
    ensures Gather(c, e).Some? ==> forall cf :: cf != e.cf ==> Gathered(Gather(c, e).value, cf) == Gathered(c, cf)
  {
  }

  lemma AddedStep(log: seq<VersionEdit>, cf: nat)
    requires log != []
    ensures var e := log[|log| - 1]; var before := log[..|log| - 1];
            && AddedNumbers(log, cf) ==
                (if e.cf == cf then AddedNumbers(before, cf) + Numbers(e.added) else AddedNumbers(before, cf))
            && DeletedNumbers(log, cf) ==
                (if e.cf == cf then DeletedNumbers(before, cf) + Firsts(e.deleted) else DeletedNumbers(before, cf))
  {
  }
}
