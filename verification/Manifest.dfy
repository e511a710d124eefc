/** The edit collector, the set of blob files it is applied to, and recovery from the manifest. */
module Manifest {
  import opened Optional
  import opened Coding
  import opened ManifestLog

  datatype Status = Ok | Corruption | Incomplete | NotFound

  /** A file known to a column family, with the sequence at which it became obsolete, if it has. */
  datatype Entry = Entry(meta: BlobFileMeta, obsolete: Option<nat>)

  type Storage = map<nat, Entry>

  function Live(s: Storage): map<nat, BlobFileMeta> { map n | n in s && s[n].obsolete.None? :: s[n].meta }

  /** What is left of a batch once paired additions and deletions cancel. */
  function Remaining(g: CfEdits): map<nat, BlobFileMeta> { map n | n in g.added && n !in g.deleted :: g.added[n] }

  predicate Sealable(g: CfEdits, s: Storage) {
    && (forall n :: n in g.added ==> n !in s)
    && (forall n :: n in g.deleted && n !in g.added ==> n in s && s[n].obsolete.None?)
  }

  function Marked(g: CfEdits, s: Storage): Storage {
    map n | n in s :: if n in g.deleted && n !in g.added then s[n].(obsolete := Some(g.deleted[n])) else s[n]
  }

  /** New files join; a number that is already there keeps its file. */
  function Joined(g: CfEdits, s: Storage): Storage {
    map n | n in s.Keys + Remaining(g).Keys :: if n in s then s[n] else Entry(g.added[n], None)
  }

  function Applied(g: CfEdits, s: Storage): Storage { Marked(g, Joined(g, s)) }

  predicate AllSealable(c: map<nat, CfEdits>, st: map<nat, Storage>) {
    forall cf :: cf in c && cf in st ==> Sealable(c[cf], st[cf])
  }

  function AppliedAll(c: map<nat, CfEdits>, st: map<nat, Storage>): map<nat, Storage> {
    map cf | cf in st :: if cf in c then Applied(c[cf], st[cf]) else st[cf]
  }

  /** Next file numbers never go down along a log; the last one stands. */
  predicate Climbs(log: seq<VersionEdit>)
    decreases |log|
  {
    log == [] ||
    var e, before := log[|log| - 1], log[..|log| - 1];
    Climbs(before) && (e.next.Some? ==> LastNext(before) <= e.next.value)
  }

  function LastNext(log: seq<VersionEdit>): nat
    decreases |log|
  {
    if log == [] then 0
    else if log[|log| - 1].next.Some? then log[|log| - 1].next.value
    else LastNext(log[..|log| - 1])
  }

  predicate HasNext(log: seq<VersionEdit>) { exists i :: 0 <= i < |log| && log[i].next.Some? }

  // ---------------------------------------------------------------- the collector

  class EditCollector {
    var status: Status
    var sealed: bool
    var hasNext: bool
    var next: nat
    var families: map<nat, CfEdits>

    constructor ()
      ensures status == Ok && !sealed && !hasNext && next == 0 && families == map[]
    {
      status, sealed, hasNext, next, families := Ok, false, false, 0, map[];
    }

    /** Collects a record's new files, refusing a number that is already there. */
    static method AddFiles(m: map<nat, BlobFileMeta>, fs: seq<BlobFileMeta>) returns (r: Option<map<nat, BlobFileMeta>>)
      ensures r == AddAll(m, fs)
    {
      var added := m;
      for i := 0 to |fs|
        invariant AddAll(m, fs[..i]) == Some(added)
      {
        assert fs[..i + 1][..i] == fs[..i];
        if fs[i].number in added {
          AddAllPrefix(m, fs, i + 1);
          return None;
        }
        added := added[fs[i].number := fs[i]];
      }
      assert fs[..|fs|] == fs;
      return Some(added);
    }

    static method DeleteFiles(m: map<nat, nat>, ds: seq<(nat, nat)>) returns (r: Option<map<nat, nat>>)
      ensures r == DeleteAll(m, ds)
    {
      var deleted := m;
      for i := 0 to |ds|
        invariant DeleteAll(m, ds[..i]) == Some(deleted)
      {
        assert ds[..i + 1][..i] == ds[..i];
        if ds[i].0 in deleted {
          DeleteAllPrefix(m, ds, i + 1);
          return None;
        }
        deleted := deleted[ds[i].0 := ds[i].1];
      }
      assert ds[..|ds|] == ds;
      return Some(deleted);
    }

    method AddEdit(e: VersionEdit) returns (s: Status)
      modifies this
      ensures old(sealed) ==> s == Incomplete && unchanged(this)
      ensures !old(sealed) ==>
                && (s == Ok <==> Gather(old(families), e).Some? && (e.next.Some? ==> old(next) <= e.next.value))
                && sealed == old(sealed)
                && (s == Ok ==> families == Gather(old(families), e).value)
                && (s == Ok && old(status) == Ok ==> status == Ok)
                && (s == Ok ==> next == if e.next.Some? then e.next.value else old(next))
                && (s == Ok ==> hasNext == (old(hasNext) || e.next.Some?))
                && (s != Ok ==> s == Corruption && status == s)
    {
      if sealed { return Incomplete; }
      var g := if e.cf in families then families[e.cf] else NO_EDITS;
      var added := AddFiles(g.added, e.added);
      if added.None? {
        status := Corruption;
        return status;
      }
      var deleted := DeleteFiles(g.deleted, e.deleted);
      if deleted.None? {
        status := Corruption;
        return status;
      }
      families := families[e.cf := CfEdits(added.value, deleted.value)];
      if e.added != [] || e.deleted != [] { status := Ok; }
      if e.next.Some? {
        if e.next.value < next {
          status := Corruption;
          return status;
        }
        next, hasNext := e.next.value, true;
      }
      return Ok;
    }

    /** Adds the records of a log one after the other, stopping at the first that is refused. */
    method AddLog(log: seq<VersionEdit>) returns (s: Status)
      requires status == Ok && !sealed && !hasNext && next == 0 && families == map[]
      modifies this
      ensures s == Ok <==> GatherAll(log).Some? && Climbs(log)
      ensures s == Ok ==> status == Ok && !sealed && GatherAll(log) == Some(families)
                          && next == LastNext(log) && hasNext == HasNext(log)
    {
      hide Gather;
      for i := 0 to |log|
        invariant GatherAll(log[..i]) == Some(families) && Climbs(log[..i])
        invariant next == LastNext(log[..i]) && hasNext == HasNext(log[..i])
        invariant status == Ok && !sealed
      {
        hide HasNext;
        assert log[..i + 1] == log[..i] + [log[i]];
        GatherAppend(log[..i], log[i]);
        s := AddEdit(log[i]);
        if s != Ok {
          RefusedPrefix(log, i + 1);
          return;
        }
        NextAppend(log[..i], log[i]);
      }
      assert log[..|log|] == log;
      return Ok;
    }

    /** Checks one column family. */
    static method SealFamily(g: CfEdits, st: Storage) returns (s: Status)
      ensures s == if Sealable(g, st) then Ok else Corruption
    {
      var todo := g.added.Keys;
      while todo != {}
        invariant todo <= g.added.Keys && forall n :: n in g.added && n !in todo ==> n !in st
      {
        var n :| n in todo;
        if n in st { return Corruption; }
        todo := todo - {n};
      }
      todo := g.deleted.Keys;
      while todo != {}
        invariant todo <= g.deleted.Keys
        invariant forall n :: n in g.deleted && n !in todo && n !in g.added ==> n in st && st[n].obsolete.None?
      {
        var n :| n in todo;
        if n !in g.added && (n !in st || st[n].obsolete.Some?) { return Corruption; }
        todo := todo - {n};
      }
      return Ok;
    }

    /** Either the whole batch fits the file set, or the collector refuses it; the file set is only read. */
    method Seal(files: BlobFileSet) returns (s: Status)
      modifies this`status, this`sealed
      ensures old(status) != Ok ==> s == old(status) && unchanged(this)
      ensures old(status) == Ok ==> s == if AllSealable(families, files.families) then Ok else Corruption
      ensures status == s && (sealed <==> old(sealed) || s == Ok)
    {
      if status != Ok { return status; }
      var todo := families.Keys;
      while todo != {}
        invariant todo <= families.Keys && status == Ok && sealed == old(sealed)
        invariant forall cf :: cf in families && cf !in todo && cf in files.families ==>
                    Sealable(families[cf], files.families[cf])
      {
        hide Sealable;
        var cf :| cf in todo;
        if cf in files.families {
          status := SealFamily(families[cf], files.families[cf]);
          if status != Ok { return status; }
        }
        todo := todo - {cf};
      }
      sealed := true;
      return Ok;
    }

    static method ApplyAdds(g: CfEdits, st: Storage) returns (r: Storage)
      ensures r == Joined(g, st)
    {
      r := st;
      var todo := g.added.Keys;
      while todo != {}
        invariant todo <= g.added.Keys && st.Keys <= r.Keys <= Joined(g, st).Keys
        invariant forall n :: n in Remaining(g) && n !in todo ==> n in r
        invariant forall n :: n in r ==> r[n] == Joined(g, st)[n]
      {
        var n :| n in todo;
        if n !in g.deleted && n !in r { r := r[n := Entry(g.added[n], None)]; }
        todo := todo - {n};
      }
    }

    /** Marks the files that are deleted and not added by the same batch; fails if one of them is missing. */
    static method ApplyDeletes(g: CfEdits, st: Storage) returns (s: Status, r: Storage)
      ensures s == Ok <==> forall n :: n in g.deleted && n !in g.added ==> n in st
      ensures s == Ok ==> r == Marked(g, st)
    {
      r := st;
      var todo := g.deleted.Keys;
      while todo != {}
        invariant todo <= g.deleted.Keys && r.Keys == st.Keys
        invariant forall n :: n in g.deleted && n !in g.added && n !in todo ==> n in st
        invariant forall n :: n in st ==> r[n] == if n in todo then st[n] else Marked(g, st)[n]
      {
        var n :| n in todo;
        if n !in g.added {
          if n !in r { return NotFound, r; }
          r := r[n := r[n].(obsolete := Some(g.deleted[n]))];
        }
        todo := todo - {n};
      }
      return Ok, r;
    }

    /** Applies one column family; a batch that was sealed cannot fail here. */
    static method ApplyFamily(g: CfEdits, st: Storage) returns (s: Status, r: Storage)
      ensures Sealable(g, st) ==> s == Ok && r == Applied(g, st)
    {
      r := ApplyAdds(g, st);
      s, r := ApplyDeletes(g, r);
    }

    method Apply(files: BlobFileSet) returns (s: Status)
      modifies this`status, files`families
      ensures old(status) != Ok ==> s == old(status) && unchanged(files)
      ensures old(status) == Ok && !sealed ==> s == Incomplete && unchanged(files)
      ensures old(status) == Ok && sealed && AllSealable(families, old(files.families)) ==>
                s == Ok && status == Ok && files.families == AppliedAll(families, old(files.families))
    {
      if status != Ok { return status; }
      if !sealed { return Incomplete; }
      var todo := families.Keys;
      ghost var st := files.families;
      while todo != {}
        invariant todo <= families.Keys
        invariant AllSealable(families, st) ==>
                    && status == Ok && files.families.Keys == st.Keys
                    && (forall cf :: cf in st && cf in todo ==> files.families[cf] == st[cf])
                    && (forall cf :: cf in st && cf !in todo ==> files.families[cf] == AppliedAll(families, st)[cf])
      {
        hide Sealable, Applied;
        var cf :| cf in todo;
        if cf in files.families {
          var t, r := ApplyFamily(families[cf], files.families[cf]);
          status := t;
          files.families := files.families[cf := r];
          if status != Ok { return status; }
        }
        todo := todo - {cf};
      }
      return Ok;
    }
  }

  lemma {:induction false} AddAllPrefix(m: map<nat, BlobFileMeta>, fs: seq<BlobFileMeta>, k: nat)
    requires k <= |fs| && AddAll(m, fs[..k]).None?
    ensures AddAll(m, fs).None?
    decreases |fs| - k
  {
    if k < |fs| {
      assert fs[..k + 1][..k] == fs[..k];
      AddAllPrefix(m, fs, k + 1);
    } else {
      assert fs[..k] == fs;
    }
  }

  lemma {:induction false} DeleteAllPrefix(m: map<nat, nat>, ds: seq<(nat, nat)>, k: nat)
    requires k <= |ds| && DeleteAll(m, ds[..k]).None?
    ensures DeleteAll(m, ds).None?
    decreases |ds| - k
  {
    if k < |ds| {
      assert ds[..k + 1][..k] == ds[..k];
      DeleteAllPrefix(m, ds, k + 1);
    } else {
      assert ds[..k] == ds;
    }
  }

  // ---------------------------------------------------------------- what a log says about the files

  function EditsOf(log: seq<VersionEdit>, cf: nat): CfEdits
    requires GatherAll(log).Some?
  {
    Gathered(GatherAll(log).value, cf)
  }

  /** A log from which nothing was repeated describes a column family's live files exactly. */
  predicate Describes(g: CfEdits, s: Storage) {
    Live(s) == Remaining(g) && s.Keys <= g.added.Keys && g.deleted.Keys <= g.added.Keys
  }

  predicate Faithful(log: seq<VersionEdit>, st: map<nat, Storage>) {
    GatherAll(log).Some? ==> forall cf :: cf in st ==> Describes(EditsOf(log, cf), st[cf])
  }

  predicate Accepts(st: map<nat, Storage>, e: VersionEdit) {
    var c := Gather(map[], e);
    c.Some? && AllSealable(c.value, st)
  }

  /** A record repeats no number, adds only unknown files of its family and deletes only live or added ones. */
  ghost predicate Fitting(st: map<nat, Storage>, e: VersionEdit) {
    && Distinct(Numbers(e.added)) && Distinct(Firsts(e.deleted))
    && (e.cf in st ==>
          && (forall n :: n in Numbers(e.added) ==> n !in st[e.cf])
          && (forall n :: n in Firsts(e.deleted) && n !in Numbers(e.added) ==>
                n in st[e.cf] && st[e.cf][n].obsolete.None?))
  }

  /** What it does: added files are there unless they are also deleted, deleted ones are obsolete at their sequence. */
  ghost predicate Effect(st: map<nat, Storage>, next: map<nat, Storage>, e: VersionEdit) {
    && next.Keys == st.Keys && (forall cf :: cf in st && cf != e.cf ==> next[cf] == st[cf])
    && (e.cf in st ==> FamilyEffect(st[e.cf], next[e.cf], e))
  }

  ghost predicate FamilyEffect(s: Storage, t: Storage, e: VersionEdit) {
    && (forall n :: n in t <==> n in s || (n in Numbers(e.added) && n !in Firsts(e.deleted)))
    && (forall f :: f in e.added && f.number !in Firsts(e.deleted) ==> f.number in t && t[f.number] == Entry(f, None))
    && (forall n :: n in s && n !in Firsts(e.deleted) ==> t[n] == s[n])
    && (forall n :: n in s && n in Firsts(e.deleted) ==>
          t[n].meta == s[n].meta && t[n].obsolete.Some? && (n, t[n].obsolete.value) in e.deleted)
  }

  lemma {:induction false} AddedAs(fs: seq<BlobFileMeta>)
    ensures AddAll(map[], fs).Some? ==>
              forall f :: f in fs ==> f.number in AddAll(map[], fs).value && AddAll(map[], fs).value[f.number] == f
    decreases |fs|
  {
    if fs != [] { AddedAs(fs[..|fs| - 1]); }
  }

  lemma FittingIs(st: map<nat, Storage>, e: VersionEdit)
    ensures Accepts(st, e) <==> Fitting(st, e)
  {
    AddAllExact(map[], e.added);
    DeleteAllExact(map[], e.deleted);
    hide AddAll, DeleteAll, Distinct;
    var c := Gather(map[], e);
    if c.Some? { assert c.value == map[e.cf := c.value[e.cf]]; }
  }

  lemma FamilyEffectIs(g: CfEdits, s: Storage, e: VersionEdit)
    requires Sealable(g, s)
    requires forall n :: n in g.added <==> n in Numbers(e.added)
    requires forall f :: f in e.added ==> f.number in g.added && g.added[f.number] == f
    requires forall n :: n in g.deleted <==> n in Firsts(e.deleted)
    requires forall n :: n in g.deleted ==> (n, g.deleted[n]) in e.deleted
    ensures FamilyEffect(s, Applied(g, s), e)
  {
  }

  lemma EffectIs(st: map<nat, Storage>, e: VersionEdit)
    requires Accepts(st, e)
    ensures Effect(st, AppliedAll(Gather(map[], e).value, st), e)
  {
    AddAllExact(map[], e.added);
    DeleteAllExact(map[], e.deleted);
    AddedAs(e.added);
    DeletedAs(e.deleted);
    hide AddAll, DeleteAll, Distinct, FamilyEffect, Applied, Sealable;
    if e.cf in st { FamilyEffectIs(Gather(map[], e).value[e.cf], st[e.cf], e); }
  }

  lemma {:induction false} AddAllJoins(m: map<nat, BlobFileMeta>, fs: seq<BlobFileMeta>)
    ensures AddAll(m, fs).Some? ==> AddAll(map[], fs).Some? && m.Keys !! AddAll(map[], fs).value.Keys
                                    && AddAll(m, fs).value == m + AddAll(map[], fs).value
    ensures AddAll(map[], fs).Some? && m.Keys !! AddAll(map[], fs).value.Keys ==> AddAll(m, fs).Some?
    decreases |fs|
  {
    if fs != [] { AddAllJoins(m, fs[..|fs| - 1]); }
  }

  lemma {:induction false} DeleteAllJoins(m: map<nat, nat>, ds: seq<(nat, nat)>)
    ensures DeleteAll(m, ds).Some? ==> DeleteAll(map[], ds).Some? && m.Keys !! DeleteAll(map[], ds).value.Keys
                                       && DeleteAll(m, ds).value == m + DeleteAll(map[], ds).value
    ensures DeleteAll(map[], ds).Some? && m.Keys !! DeleteAll(map[], ds).value.Keys ==> DeleteAll(m, ds).Some?
    decreases |ds|
  {
    if ds != [] { DeleteAllJoins(m, ds[..|ds| - 1]); }
  }

  /** A sealed record applied to one column family, against the log that now holds the record too. */
  lemma AppliedDescribes(g: CfEdits, e: CfEdits, s: Storage)
    requires Describes(g, s) && Sealable(e, s) && g.added.Keys !! e.added.Keys
    ensures Describes(CfEdits(g.added + e.added, g.deleted + e.deleted), Applied(e, s))
    ensures g.deleted.Keys !! e.deleted.Keys
  {
    var h := CfEdits(g.added + e.added, g.deleted + e.deleted);
    var t := Applied(e, s);
    forall n ensures n in Live(t) <==> n in Remaining(h) {
      assert n in Live(s) <==> n in Remaining(g);
      assert n in e.added ==> (n in t <==> n !in e.deleted);
      assert n !in e.added ==> (n in t <==> n in s);
    }
    forall n | n in Live(t) ensures Live(t)[n] == Remaining(h)[n] {
      assert n !in e.added ==> Live(s)[n] == Remaining(g)[n];
    }
    forall n | n in e.deleted ensures n in h.added && n !in g.deleted {
      assert n !in e.added ==> n in Live(s);
    }
  }

  /** Replay keeps working after an accepted record exactly when its files carry numbers new to the log. */
  lemma AcceptedExact(log: seq<VersionEdit>, st: map<nat, Storage>, e: VersionEdit)
    requires Faithful(log, st) && Accepts(st, e)
    ensures Faithful(log + [e], AppliedAll(Gather(map[], e).value, st))
    ensures e.cf in st ==>
              (GatherAll(log + [e]).Some? <==>
               GatherAll(log).Some?
               && EditsOf(log, e.cf).added.Keys !! Gathered(Gather(map[], e).value, e.cf).added.Keys)
  {
    hide Describes, Sealable, Applied, Live;
    GatherAppend(log, e);
    if GatherAll(log).Some? {
      var c, g, one := GatherAll(log).value, EditsOf(log, e.cf), Gather(map[], e).value;
      AddAllJoins(g.added, e.added);
      DeleteAllJoins(g.deleted, e.deleted);
      if e.cf in st && g.added.Keys !! one[e.cf].added.Keys {
        AppliedDescribes(g, one[e.cf], st[e.cf]);
      }
    }
  }

  // ---------------------------------------------------------------- the file set

  class BlobFileSet {
    var families: map<nat, Storage>
    var nextFile: nat
    var manifest: seq<VersionEdit>
    ghost var issued: set<nat>   // numbers handed out and not yet given to a file

    /** The manifest describes the files, and its next number is above every number in it. */
    ghost predicate Valid()
      reads this
    {
      && Faithful(manifest, families)
      && Climbs(manifest) && HasNext(manifest) && LastNext(manifest) <= nextFile
      && Below(manifest, LastNext(manifest))
    }

    /** The manifest can be replayed, and no number waiting for a file is in it. */
    ghost predicate Careful()
      reads this
    {
      && GatherAll(manifest).Some?
      && forall n :: n in issued ==> n < nextFile && Unused(manifest, n)
    }

    constructor (cfs: set<nat>)
      ensures families == (map cf | cf in cfs :: map[]) && nextFile == 1 && manifest == [] && issued == {}
    {
      families, nextFile, manifest, issued := map cf | cf in cfs :: map[], 1, [], {};
    }

    method NewFileNumber() returns (n: nat)
      requires Valid()
      modifies this`nextFile, this`issued
      ensures Valid() && n == old(nextFile) && nextFile == n + 1 && issued == old(issued) + {n}
      ensures old(Careful()) ==> Careful()
    {
      n := nextFile;
      nextFile := nextFile + 1;
      issued := issued + {n};
      if GatherAll(manifest).Some? { NextUnused(manifest, LastNext(manifest), n); }
    }

    method LogAndApply(edit: VersionEdit) returns (s: Status)
      requires Valid()
      requires forall i :: 0 <= i < |edit.added| ==> edit.added[i].number < nextFile
      modifies this
      ensures Valid()
      ensures s == Ok <==> Accepts(old(families), edit)
      ensures s == Ok <==> Fitting(old(families), edit)
      ensures s == Ok ==> Effect(old(families), families, edit)
      ensures s != Ok ==> unchanged(this)
      ensures s == Ok ==> manifest == old(manifest) + [edit.(next := Some(nextFile))] && nextFile == old(nextFile)
                          && families == AppliedAll(Gather(map[], edit).value, old(families))
      ensures s == Ok ==> issued == old(issued) - NumberSet(edit.added)
      ensures old(Careful()) && edit.cf in old(families) && NumberSet(edit.added) <= old(issued) ==> Careful()
    {
      hide NumberSet, Fitting, Effect;
      FittingIs(families, edit);
      if Accepts(families, edit) { EffectIs(families, edit); }
      var e := edit.(next := Some(nextFile));
      assert Gather(map[], e) == Gather(map[], edit);
      var collector := new EditCollector();
      s := collector.AddEdit(e);
      if s != Ok { return; }
      s := collector.Seal(this);
      if s != Ok { return; }
      NextAppend(manifest, e);
      AcceptedExact(manifest, families, e);
      if GatherAll(manifest).Some? && e.cf in families { IssuedAdded(manifest, families, e, issued); }
      manifest, issued := manifest + [e], issued - NumberSet(edit.added);
      s := collector.Apply(this);
    }

    /** Forgets obsolete files that no snapshot can reach; the live files stay. */
    method Purge(oldest: nat)
      requires Valid()
      modifies this`families
      ensures Valid() && families.Keys == old(families.Keys)
      ensures forall cf, n :: cf in families && n in old(families)[cf] ==>
                (n in families[cf] <==>
                 old(families)[cf][n].obsolete.None? || old(families)[cf][n].obsolete.value >= oldest)
      ensures forall cf, n :: cf in families && n in families[cf] ==>
                n in old(families)[cf] && families[cf][n] == old(families)[cf][n]
      ensures forall cf :: cf in families ==> Live(families[cf]) == Live(old(families)[cf])
    {
      var todo := families.Keys;
      while todo != {}
        invariant todo <= families.Keys && families.Keys == old(families.Keys)
        invariant forall cf :: cf in families ==>
                    families[cf] == if cf in todo then old(families)[cf] else Purged(old(families)[cf], oldest)
      {
        var cf :| cf in todo;
        families := families[cf := Purged(families[cf], oldest)];
        todo := todo - {cf};
      }
      forall cf | cf in families ensures Live(families[cf]) == Live(old(families)[cf]) {
        PurgedLive(old(families)[cf], oldest);
      }
    }

    /** A first start: the manifest begins with a snapshot of nothing. */
    method Open()
      requires forall cf :: cf in families ==> families[cf] == map[]
      modifies this`manifest, this`nextFile, this`issued
      ensures Valid() && Careful() && nextFile == old(nextFile) + 1 && LastNext(manifest) == nextFile && issued == {}
    {
      nextFile, issued := nextFile + 1, {};
      manifest := WriteSnapshot(nextFile, families);
      SnapshotValid(manifest, families);
    }

    /** Replays a log into empty column families. */
    method Recover(log: seq<VersionEdit>) returns (s: Status)
      requires forall cf :: cf in families ==> families[cf] == map[]
      modifies this
      ensures s == Ok <==> Replayable(log, old(families.Keys))
      ensures s == Ok ==> families == Replayed(log, old(families.Keys)) && nextFile == LastNext(log) + 1
      ensures s == Ok && Below(log, LastNext(log)) ==> Valid() && Careful()
    {
      hide AllSealable, AppliedAll, SnapshotOf, Climbs, LastNext, HasNext, Live, Applied;
      var collector := new EditCollector();
      s := collector.AddLog(log);
      if s != Ok { return; }
      IntoEmpty(log, families);
      s := collector.Seal(this);
      if s != Ok { return; }
      s := collector.Apply(this);
      if !collector.hasNext { return Corruption; }
      nextFile, issued := collector.next + 1, {};
      ReplayedKeyed(log, families.Keys);
      manifest := WriteSnapshot(nextFile, families);
      SnapshotValid(manifest, families);
    }
  }

  function NumberSet(fs: seq<BlobFileMeta>): set<nat> { set n | n in Numbers(fs) }

  /** No column family has had a file of this number. */
  ghost predicate Unused(log: seq<VersionEdit>, n: nat)
    requires GatherAll(log).Some?
  {
    forall cf :: n !in EditsOf(log, cf).added
  }

  lemma NextUnused(log: seq<VersionEdit>, bound: nat, n: nat)
    requires GatherAll(log).Some? && Below(log, bound) && bound <= n
    ensures Unused(log, n)
  {
    forall cf ensures n !in EditsOf(log, cf).added { EditsKeyed(log, cf, bound); }
  }

  /** A record whose files use up issued numbers leaves the others unused. */
  lemma IssuedAdded(log: seq<VersionEdit>, st: map<nat, Storage>, e: VersionEdit, issued: set<nat>)
    requires Faithful(log, st) && Accepts(st, e) && e.cf in st && GatherAll(log).Some?
    ensures NumberSet(e.added) <= issued && (forall n :: n in issued ==> Unused(log, n)) ==>
              && GatherAll(log + [e]).Some?
              && forall n :: n in issued - NumberSet(e.added) ==> Unused(log + [e], n)
  {
    hide Faithful, AllSealable, GatherAll, NumberSet, AddAll, DeleteAll;
    if NumberSet(e.added) <= issued && forall n :: n in issued ==> Unused(log, n) {
      AddedNumberSet(e);
      AcceptedExact(log, st, e);
      GatherAppend(log, e);
      var g := EditsOf(log, e.cf);
      AddAllJoins(g.added, e.added);
      assert GatherAll(log + [e]).Some? by {
        forall n | n in NumberSet(e.added) ensures n !in g.added { assert Unused(log, n); }
      }
      var l := log + [e];
      assert EditsOf(l, e.cf).added == g.added + AddAll(map[], e.added).value;
      forall n | n in issued - NumberSet(e.added) ensures Unused(l, n) {
        assert Unused(log, n);
        forall cf ensures n !in EditsOf(l, cf).added {
          assert cf != e.cf ==> EditsOf(l, cf) == EditsOf(log, cf);
        }
      }
    }
  }

  lemma AddedNumberSet(e: VersionEdit)
    ensures AddAll(map[], e.added).Some? ==> AddAll(map[], e.added).value.Keys == NumberSet(e.added)
  {
    AddAllExact(map[], e.added);
  }

  /** What replaying a log puts into empty column families. */
  function Replayed(log: seq<VersionEdit>, cfs: set<nat>): map<nat, Storage>
    requires GatherAll(log).Some?
  {
    map cf | cf in cfs :: Applied(EditsOf(log, cf), map[])
  }

  /** Sealing against, and applying to, empty column families. */
  lemma IntoEmpty(log: seq<VersionEdit>, st: map<nat, Storage>)
    requires GatherAll(log).Some? && forall cf :: cf in st ==> st[cf] == map[]
    ensures AllSealable(GatherAll(log).value, st) <==>
            forall cf :: cf in st ==> EditsOf(log, cf).deleted.Keys <= EditsOf(log, cf).added.Keys
    ensures AppliedAll(GatherAll(log).value, st) == Replayed(log, st.Keys)
  {
  }

  lemma ReplayedKeyed(log: seq<VersionEdit>, cfs: set<nat>)
    requires Replayable(log, cfs)
    ensures forall cf :: cf in cfs ==>
              var s := Replayed(log, cfs)[cf];
              Live(s) == Remaining(EditsOf(log, cf)) && s.Keys == Live(s).Keys && Keyed(Live(s))
              && (Below(log, LastNext(log)) ==> forall n :: n in Live(s) ==> n < LastNext(log))
  {
    hide Applied, Live, Below;
    forall cf | cf in cfs
      ensures var s := Replayed(log, cfs)[cf];
              Live(s) == Remaining(EditsOf(log, cf)) && s.Keys == Live(s).Keys && Keyed(Live(s))
              && (Below(log, LastNext(log)) ==> forall n :: n in Live(s) ==> n < LastNext(log))
    {
      ReplayedFamily(EditsOf(log, cf));
      EditsKeyed(log, cf, LastNext(log));
    }
  }

  /** A log that holds, for the column families outside `todo`, one record with exactly their live files. */
  predicate SnapshotOf(log: seq<VersionEdit>, st: map<nat, Storage>, todo: set<nat>) {
    && GatherAll(log).Some? && OnlyLive(log, st)
    && forall cf :: cf in st ==> FamilyWritten(log, st, todo, cf)
  }

  predicate FamilyWritten(log: seq<VersionEdit>, st: map<nat, Storage>, todo: set<nat>, cf: nat)
    requires GatherAll(log).Some? && cf in st
  {
    EditsOf(log, cf) == if cf in todo then NO_EDITS else CfEdits(Live(st[cf]), map[])
  }

  predicate OnlyLive(log: seq<VersionEdit>, st: map<nat, Storage>) {
    forall i :: 0 <= i < |log| ==> AddsLive(log[i], st)
  }

  predicate AddsLive(e: VersionEdit, st: map<nat, Storage>) {
    forall j :: 0 <= j < |e.added| ==> e.cf in st && e.added[j].number in Live(st[e.cf])
  }

  lemma LiveAdded(st: map<nat, Storage>, cf: nat, fs: seq<BlobFileMeta>)
    requires cf in st && AddAll(map[], fs) == Some(Live(st[cf]))
    ensures AddsLive(VersionEdit(None, cf, fs, [], map[]), st)
  {
    hide Live, AddAll;
    AddAllExact(map[], fs);
    forall j | 0 <= j < |fs| ensures fs[j].number in Live(st[cf]) {
      assert Numbers(fs)[j] in Numbers(fs);
      assert fs[j].number in AddAll(map[], fs).value;
    }
  }

  lemma SnapshotStep(log: seq<VersionEdit>, st: map<nat, Storage>, todo: set<nat>, cf: nat, fs: seq<BlobFileMeta>)
    requires SnapshotOf(log, st, todo) && cf in todo && cf in st && AddAll(map[], fs) == Some(Live(st[cf]))
    ensures SnapshotOf(log + [VersionEdit(None, cf, fs, [], map[])], st, todo - {cf})
  {
    hide Live, GatherAll, AddAll, AddsLive;
    SnapshotGathers(log, st, todo, cf, fs);
    LiveAdded(st, cf, fs);
    var l := log + [VersionEdit(None, cf, fs, [], map[])];
    forall c | c in st ensures FamilyWritten(l, st, todo - {cf}, c) {
      assert FamilyWritten(log, st, todo, c);
      assert c != cf ==> EditsOf(l, c) == EditsOf(log, c);
    }
  }

  lemma SnapshotGathers(log: seq<VersionEdit>, st: map<nat, Storage>, todo: set<nat>, cf: nat, fs: seq<BlobFileMeta>)
    requires SnapshotOf(log, st, todo) && cf in todo && cf in st && AddAll(map[], fs) == Some(Live(st[cf]))
    ensures GatherAll(log + [VersionEdit(None, cf, fs, [], map[])]) ==
            Some(GatherAll(log).value[cf := CfEdits(Live(st[cf]), map[])])
  {
    hide Live;
    GatherAppend(log, VersionEdit(None, cf, fs, [], map[]));
    assert FamilyWritten(log, st, todo, cf);
    assert DeleteAll(map[], []) == Some(map[]);
  }

  /** Writes the next number, then one record per column family holding its live files. */
  method WriteSnapshot(next: nat, st: map<nat, Storage>) returns (log: seq<VersionEdit>)
    requires forall cf :: cf in st ==> Keyed(Live(st[cf]))
    ensures SnapshotOf(log, st, {}) && Climbs(log) && HasNext(log) && LastNext(log) == next
  {
    hide SnapshotOf;
    var first := VersionEdit(Some(next), 0, [], [], map[]);
    FirstRecord(first, st);
    log := [first];
    var todo := st.Keys;
    while todo != {}
      invariant todo <= st.Keys && SnapshotOf(log, st, todo)
      invariant Climbs(log) && HasNext(log) && LastNext(log) == next
    {
      hide Live, Climbs, LastNext, HasNext;
      var cf :| cf in todo;
      var fs := LiveFiles(st[cf]);
      NextAppend(log, VersionEdit(None, cf, fs, [], map[]));
      SnapshotStep(log, st, todo, cf, fs);
      log := log + [VersionEdit(None, cf, fs, [], map[])];
      todo := todo - {cf};
    }
  }

  lemma FirstRecord(e: VersionEdit, st: map<nat, Storage>)
    requires e.next.Some? && e.added == [] && e.deleted == []
    ensures SnapshotOf([e], st, st.Keys) && Climbs([e]) && HasNext([e]) && LastNext([e]) == e.next.value
  {
    assert [] + [e] == [e];
    NextAppend([], e);
    GatherAppend([], e);
  }

  /** A fresh snapshot of files that are all live describes them. */
  lemma SnapshotValid(log: seq<VersionEdit>, st: map<nat, Storage>)
    requires SnapshotOf(log, st, {})
    requires forall cf :: cf in st ==> st[cf].Keys == Live(st[cf]).Keys
    ensures Faithful(log, st) && GatherAll(log).Some?
    ensures forall bound: nat :: (forall cf, n :: cf in st && n in Live(st[cf]) ==> n < bound) ==> Below(log, bound)
  {
    hide Live;
  }

  predicate Replayable(log: seq<VersionEdit>, cfs: set<nat>) {
    && GatherAll(log).Some? && Climbs(log) && HasNext(log)
    && forall cf :: cf in cfs ==> EditsOf(log, cf).deleted.Keys <= EditsOf(log, cf).added.Keys
  }

  function Purged(s: Storage, oldest: nat): Storage {
    map n | n in s && !(s[n].obsolete.Some? && s[n].obsolete.value < oldest) :: s[n]
  }

  lemma PurgedLive(s: Storage, oldest: nat)
    ensures Live(Purged(s, oldest)) == Live(s)
  {
  }

  predicate Keyed(m: map<nat, BlobFileMeta>) { forall n :: n in m ==> m[n].number == n }

  method LiveFiles(s: Storage) returns (fs: seq<BlobFileMeta>)
    requires Keyed(Live(s))
    ensures AddAll(map[], fs) == Some(Live(s))
  {
    fs := [];
    var todo := s.Keys;
    ghost var m: map<nat, BlobFileMeta> := map[];
    while todo != {}
      invariant todo <= s.Keys && AddAll(map[], fs) == Some(m) && m.Keys == Live(s).Keys - todo
      invariant forall n :: n in m ==> m[n] == Live(s)[n]
    {
      var n :| n in todo;
      if s[n].obsolete.None? {
        assert Live(s)[n] == s[n].meta && (fs + [s[n].meta])[..|fs|] == fs;
        fs, m := fs + [s[n].meta], m[n := s[n].meta];
      }
      todo := todo - {n};
    }
    assert m == Live(s);
  }

  lemma ReplayedFamily(g: CfEdits)
    requires g.deleted.Keys <= g.added.Keys
    ensures Live(Applied(g, map[])) == Remaining(g) && Applied(g, map[]).Keys == Live(Applied(g, map[])).Keys
  {
  }

  lemma {:induction false} RefusedPrefix(log: seq<VersionEdit>, k: nat)
    requires k <= |log| && (GatherAll(log[..k]).None? || !Climbs(log[..k]))
    ensures GatherAll(log).None? || !Climbs(log)
    decreases |log| - k
  {
    if k < |log| {
      assert log[..k + 1][..k] == log[..k];
      RefusedPrefix(log, k + 1);
    } else {
      assert log[..k] == log;
    }
  }

  /** What a log gathers is keyed by file number, and bounded when the log is. */
  lemma {:induction false} EditsKeyed(log: seq<VersionEdit>, cf: nat, bound: nat)
    requires GatherAll(log).Some?
    ensures Keyed(EditsOf(log, cf).added)
    ensures Below(log, bound) ==> forall n :: n in EditsOf(log, cf).added ==> n < bound
    decreases |log|
  {
    if log != [] {
      var before, e := log[..|log| - 1], log[|log| - 1];
      EditsKeyed(before, cf, bound);
      assert Below(log, bound) ==> Below(before, bound);
      AddAllKeyed(EditsOf(before, e.cf).added, e.added, bound);
    }
  }

  lemma {:induction false} AddAllKeyed(m: map<nat, BlobFileMeta>, fs: seq<BlobFileMeta>, bound: nat)
    requires AddAll(m, fs).Some?
    ensures Keyed(m) ==> Keyed(AddAll(m, fs).value)
    ensures (forall n :: n in m ==> n < bound) && (forall j :: 0 <= j < |fs| ==> fs[j].number < bound) ==>
              forall n :: n in AddAll(m, fs).value ==> n < bound
    decreases |fs|
  {
    if fs != [] { AddAllKeyed(m, fs[..|fs| - 1], bound); }
  }

  /** Every file number in a log lies below a bound. */
  predicate Below(log: seq<VersionEdit>, bound: nat) {
    forall i, j :: 0 <= i < |log| && 0 <= j < |log[i].added| ==> log[i].added[j].number < bound
  }

  lemma NextAppend(log: seq<VersionEdit>, e: VersionEdit)
    requires Climbs(log) && (e.next.Some? ==> LastNext(log) <= e.next.value)
    ensures Climbs(log + [e])
    ensures LastNext(log + [e]) == if e.next.Some? then e.next.value else LastNext(log)
    ensures HasNext(log + [e]) <==> HasNext(log) || e.next.Some?
  {
    assert (log + [e])[..|log|] == log && (log + [e])[|log|] == e;
    assert forall i :: 0 <= i < |log| ==> (log + [e])[i] == log[i];
  }

  // ---------------------------------------------------------------- crash and recovery

  /**
   * A crash after any accepted record: reopening from the manifest works exactly when no number was added
   * or deleted twice, and then gives back the live files, with a next number above all of them.
   */
  method Reopen(files: BlobFileSet) returns (s: Status, again: BlobFileSet)
    requires files.Valid()
    ensures s == Ok <==> forall cf :: Once(files.manifest, cf)
    ensures fresh(again) && (s == Ok ==> again.Valid() && again.families.Keys == files.families.Keys)
    ensures s == Ok ==> forall cf :: cf in files.families ==>
                          && Live(again.families[cf]) == Live(files.families[cf])
                          && again.families[cf].Keys == Live(again.families[cf]).Keys
                          && forall n :: n in again.families[cf] ==> n < again.nextFile
    ensures files.Careful() ==> s == Ok && again.Careful()
  {
    hide Climbs, LastNext, HasNext, Live, Applied, Below, Once;
    GatherAllExact(files.manifest);
    again := new BlobFileSet(files.families.Keys);
    s := again.Recover(files.manifest);
    if s == Ok { ReplayedKeyed(files.manifest, files.families.Keys); }
  }

  /**
   * A number that comes back after its file was purged is accepted, and the manifest can then no longer be replayed.
   */
  lemma ReusedNumberBreaksReplay(log: seq<VersionEdit>, st: map<nat, Storage>, cf: nat, f: BlobFileMeta)
    requires Faithful(log, st) && GatherAll(log).Some? && cf in st
    requires f.number in EditsOf(log, cf).added && f.number !in st[cf]
    ensures Accepts(st, VersionEdit(None, cf, [f], [], map[]))
    ensures GatherAll(log + [VersionEdit(None, cf, [f], [], map[])]).None?
  {
    hide Describes;
    var e := VersionEdit(None, cf, [f], [], map[]);
    assert AddAll(map[], [f]) == Some(map[f.number := f]) by { assert AddAll(map[], [f][..0]) == Some(map[]); }
    AcceptedExact(log, st, e);
  }

  // ---------------------------------------------------------------- deletions by a compaction

  /** The record of the files a compaction left without live data: its column family is never set and stays 0. */
  function DeletionRecord(ds: seq<(nat, nat)>): VersionEdit { VersionEdit(None, 0, [], ds, map[]) }

  /** Files of one family leave it under their obsolete sequences. */
  predicate DeletesFrom(s: Storage, t: Storage, ds: seq<(nat, nat)>) {
    && t.Keys == s.Keys
    && forall n :: n in s ==>
         && t[n].meta == s[n].meta
         && (if n in Firsts(ds) then t[n].obsolete.Some? && (n, t[n].obsolete.value) in ds
             else t[n].obsolete == s[n].obsolete)
  }

  lemma {:induction false} DeletedAs(ds: seq<(nat, nat)>)
    ensures DeleteAll(map[], ds).Some? ==>
              forall n :: n in DeleteAll(map[], ds).value ==> (n, DeleteAll(map[], ds).value[n]) in ds
    decreases |ds|
  {
    if ds != [] {
      DeletedAs(ds[..|ds| - 1]);
      assert ds[|ds| - 1] in ds;
    }
  }

  /**
   * A compaction in a column family asks for live files of that family to be deleted. The record is accepted
   * if and only if it deletes nothing or the family is 0, and then exactly those files become obsolete.
   */
  lemma DeletionExact(st: map<nat, Storage>, family: nat, ds: seq<(nat, nat)>)
    requires 0 in st && family in st && (family != 0 ==> st[0].Keys !! st[family].Keys)
    requires Distinct(Firsts(ds)) && forall n :: n in Firsts(ds) ==> n in Live(st[family])
    ensures Accepts(st, DeletionRecord(ds)) <==> ds == [] || family == 0
    ensures Accepts(st, DeletionRecord(ds)) ==>
              var next := AppliedAll(Gather(map[], DeletionRecord(ds)).value, st);
              && next.Keys == st.Keys && DeletesFrom(st[0], next[0], ds)
              && forall cf :: cf in st && cf != 0 ==> next[cf] == st[cf]
  {
    DeleteAllExact(map[], ds);
    DeletedAs(ds);
    var g := CfEdits(map[], DeleteAll(map[], ds).value);
    assert Gather(map[], DeletionRecord(ds)) == Some(map[0 := g]);
    hide DeleteAll, Distinct;
    if ds != [] && family != 0 {
      assert Firsts(ds)[0] in g.deleted && Firsts(ds)[0] !in st[0];
    } else {
      assert forall n :: n in g.deleted ==> n in Live(st[0]) by { assert ds == [] ==> Firsts(ds) == []; }
      assert Sealable(g, st[0]);
      assert DeletesFrom(st[0], Applied(g, st[0]), ds);
    }
  }
}
