/** The table builder: it moves values between SST entries and blob files without changing what entries mean. */
module TableBuilder {
  import opened Optional
  import opened Coding
  import opened BlobFormat
  import opened BlobFile
  import BlobFileState

  datatype Kind = PlainValue | Index | Other(code: nat)

  datatype Entry = Entry(key: Bytes, sequence: nat, kind: Kind, value: Bytes)

  datatype StoredFile = StoredFile(sorted: bool, level: int, state: BlobFileState.FileState, bytes: Bytes)

  type Files = map<nat, StoredFile>

  /** What an entry stands for: a value, an index that leads nowhere, or bytes of another kind. */
  datatype Meaning = Means(value: Bytes) | Stuck(index: Bytes) | Uninterpreted(kind: Kind, bytes: Bytes)

  datatype RunMode = Normal | ReadOnly | Fallback

  datatype Options = Options(z: Codec, levelMerge: bool, mode: RunMode, minBlobSize: nat, targetFileSize: nat,
                             mergeLevel: int, targetLevel: int, mergeLowLevel: bool)

  /** A sorted file holds bare values exactly when level merge is on. */
  function Look(o: Options, files: Files, i: BlobIndex): Option<Record> {
    if i.file in files then ReadAt(o.z, files[i.file].bytes, i.handle, o.levelMerge && files[i.file].sorted) else None
  }

  function IndexOf(e: Entry): Option<BlobIndex> {
    if e.kind != Index then None
    else match DecIndex(e.value) case None => None case Some(p) => Some(p.0)
  }

  function Denote(o: Options, files: Files, e: Entry): Meaning {
    if e.kind == PlainValue then Means(e.value)
    else if e.kind != Index then Uninterpreted(e.kind, e.value)
    else
      match IndexOf(e)
      case None => Stuck(e.value)
      case Some(i) => match Look(o, files, i) case None => Stuck(e.value) case Some(r) => Means(r.value)
  }

  /** The files a builder has written, as they will be registered. */
  function Own(o: Options, own: map<nat, Bytes>): Files {
    map n | n in own :: StoredFile(true, o.targetLevel, BlobFileState.PendingLSM, own[n])
  }

  predicate SameMeaning(o: Options, files: Files, own: map<nat, Bytes>, a: Entry, b: Entry) {
    a.key == b.key && a.sequence == b.sequence && Denote(o, files, a) == Denote(o, files + Own(o, own), b)
  }

  /** An entry that points into the builder's files is readable there. */
  predicate Settled(o: Options, own: map<nat, Bytes>, b: Entry) {
    IndexOf(b).Some? && IndexOf(b).value.file in own ==>
      ReadAt(o.z, own[IndexOf(b).value.file], IndexOf(b).value.handle, o.levelMerge).Some?
  }

  /** Output entry by entry the same as what was kept of the input. */
  predicate Preserves(o: Options, files: Files, own: map<nat, Bytes>, kept: seq<Entry>, out: seq<Entry>) {
    && |out| == |kept|
    && forall i :: 0 <= i < |out| ==> SameMeaning(o, files, own, kept[i], out[i]) && Settled(o, own, out[i])
  }

  /** Files only grow, and new files have numbers no entry mentions. */
  predicate Extends(own: map<nat, Bytes>, next: map<nat, Bytes>, out: seq<Entry>) {
    && (forall n :: n in own ==> n in next && own[n] <= next[n])
    && (forall n, i :: n in next && n !in own && 0 <= i < |out| ==>
         IndexOf(out[i]) == None || IndexOf(out[i]).value.file != n)
  }

  lemma EntryStays(o: Options, files: Files, own: map<nat, Bytes>, next: map<nat, Bytes>, a: Entry, b: Entry)
    requires SameMeaning(o, files, own, a, b) && Settled(o, own, b) && Extends(own, next, [b])
    ensures SameMeaning(o, files, next, a, b) && Settled(o, next, b)
  {
    hide ReadAt, DecIndex;
    if IndexOf(b).Some? {
      var i := IndexOf(b).value;
      assert [b][0] == b;
      if i.file in own {
        var tail := next[i.file][|own[i.file]|..];
        assert next[i.file] == own[i.file] + tail;
        ReadGrows(o.z, own[i.file], tail, i.handle, o.levelMerge);
      }
    }
  }

  /** What was already written keeps its meaning while blob files are being added to. */
  lemma PreservesGrows(o: Options, files: Files, own: map<nat, Bytes>, next: map<nat, Bytes>, kept: seq<Entry>,
                       out: seq<Entry>)
    requires Preserves(o, files, own, kept, out) && Extends(own, next, out)
    ensures Preserves(o, files, next, kept, out)
  {
    hide SameMeaning, Settled, IndexOf;
    forall i | 0 <= i < |out| ensures SameMeaning(o, files, next, kept[i], out[i]) && Settled(o, next, out[i]) {
      EntryStays(o, files, own, next, kept[i], out[i]);
    }
  }

  lemma PreservesMeans(o: Options, files: Files, own: map<nat, Bytes>, kept: seq<Entry>, out: seq<Entry>)
    ensures Preserves(o, files, own, kept, out) ==>
              |out| == |kept| && forall i :: 0 <= i < |out| ==> SameMeaning(o, files, own, kept[i], out[i])
  {
    hide SameMeaning, Settled;
  }

  /** An entry copied as it is means the same, as long as it does not point into the builder's files. */
  lemma CopySame(o: Options, files: Files, own: map<nat, Bytes>, e: Entry)
    requires IndexOf(e).Some? ==> IndexOf(e).value.file !in own
    ensures SameMeaning(o, files, own, e, e) && Settled(o, own, e)
  {
    hide ReadAt, DecIndex;
  }

  function Pointing(e: Entry, i: BlobIndex): Entry { Entry(e.key, e.sequence, Index, EncIndex(i)) }

  /** A record is found in a file of the store: bare in a sorted file under level merge, with its key in any other. */
  lemma LookFinds(o: Options, files: Files, n: nat, before: Bytes, r: Record, after: Bytes)
    requires Honest(o.z) && n in files && Packable(o.z, r, o.levelMerge && files[n].sorted)
    requires files[n].bytes == before + EncRecord(o.z, r, o.levelMerge && files[n].sorted) + after
    ensures var h := BlobHandle(|before|, |EncRecord(o.z, r, o.levelMerge && files[n].sorted)|);
            Look(o, files, BlobIndex(n, h)) ==
            Some(Record(if o.levelMerge && files[n].sorted then [] else r.key, r.value))
  {
    hide EncRecord, ReadAt;
    ReadBack(o.z, before, r, o.levelMerge && files[n].sorted, after);
  }

  /** A value appended to a blob file of the builder is what the new index means. */
  lemma MovedSame(o: Options, files: Files, own: map<nat, Bytes>, e: Entry, v: Bytes, n: nat, before: Bytes,
                  after: Bytes)
    requires Honest(o.z) && Packable(o.z, Record(e.key, v), o.levelMerge)
    requires Denote(o, files, e) == Means(v) && n < U64 && |before| < U64
    requires n in own && own[n] == before + EncRecord(o.z, Record(e.key, v), o.levelMerge) + after
    ensures var h := BlobHandle(|before|, |EncRecord(o.z, Record(e.key, v), o.levelMerge)|);
            SameMeaning(o, files, own, e, Pointing(e, BlobIndex(n, h))) && Settled(o, own, Pointing(e, BlobIndex(n, h)))
            && IndexOf(Pointing(e, BlobIndex(n, h))) == Some(BlobIndex(n, h))
  {
    hide ReadAt, DecIndex, EncIndex, EncRecord;
    var r := Record(e.key, v);
    RecordParts(o.z, r, o.levelMerge, []);
    var h := BlobHandle(|before|, |EncRecord(o.z, r, o.levelMerge)|);
    var i := BlobIndex(n, h);
    IndexRoundTrip(i, []);
    assert EncIndex(i) + [] == EncIndex(i);
    ReadBack(o.z, before, r, o.levelMerge, after);
    assert IndexOf(Pointing(e, i)) == Some(i);
  }

  // ---------------------------------------------------------------- collected sizes

  /** The bytes that the entries of an SST refer to in one file, as the size collector adds them up. */
  function Collected(out: seq<Entry>, n: nat): nat
    decreases |out|
  {
    if out == [] then 0
    else
      var b := out[|out| - 1];
      Collected(out[..|out| - 1], n) + if Mentions(b, n) then IndexOf(b).value.handle.size else 0
  }

  /** Every byte of the builder's files besides header and footer is referred to by an entry. */
  predicate Accounted(own: map<nat, Bytes>, current: Option<nat>, out: seq<Entry>) {
    forall n :: n in own ==> Collected(out, n) == |own[n]| - FILE_HEADER - if current == Some(n) then 0 else FOOTER
  }

  lemma CollectedStep(out: seq<Entry>, b: Entry, n: nat)
    ensures Collected(out + [b], n) == Collected(out, n) + if Mentions(b, n) then IndexOf(b).value.handle.size else 0
  {
    assert (out + [b])[..|out|] == out;
  }

  lemma {:induction false} Uncollected(out: seq<Entry>, n: nat)
    requires forall i :: 0 <= i < |out| ==> !Mentions(out[i], n)
    ensures Collected(out, n) == 0
    decreases |out|
  {
    if out != [] { Uncollected(out[..|out| - 1], n); }
  }

  /** An entry that does not point into the builder's files leaves the account as it is. */
  lemma AccountedCopy(own: map<nat, Bytes>, current: Option<nat>, out: seq<Entry>, b: Entry)
    requires Accounted(own, current, out) && forall n :: n in own ==> !Mentions(b, n)
    ensures Accounted(own, current, out + [b])
  {
    forall n | n in own ensures Collected(out + [b], n) == Collected(out, n) { CollectedStep(out, b, n); }
  }

  lemma AccountedOpen(own: map<nat, Bytes>, out: seq<Entry>, n: nat, header: Bytes)
    requires Accounted(own, None, out) && n !in own && |header| == FILE_HEADER
    requires forall i :: 0 <= i < |out| ==> !Mentions(out[i], n)
    ensures Accounted(own[n := header], Some(n), out)
  {
    Uncollected(out, n);
  }

  lemma GrownFile(o: Options, own: map<nat, Bytes>, n: nat, out: seq<Entry>, r: Record)
    requires Accounted(own, Some(n), out) && n in own && Honest(o.z) && Packable(o.z, r, o.levelMerge)
    ensures |own[n]| + |EncRecord(o.z, r, o.levelMerge)| > FILE_HEADER
  {
    hide EncRecord, Honest, Packable, Collected;
    RecordParts(o.z, r, o.levelMerge, []);
  }

  lemma AccountedClose(own: map<nat, Bytes>, n: nat, out: seq<Entry>, footer: Bytes)
    requires Accounted(own, Some(n), out) && n in own && |footer| == FOOTER
    ensures Accounted(own[n := own[n] + footer], None, out)
  {
    hide Collected;
  }

  lemma AccountedAppend(own: map<nat, Bytes>, n: nat, out: seq<Entry>, b: Entry, bytes: Bytes, tail: Bytes)
    requires Accounted(own, Some(n), out) && n in own && (tail == [] || |tail| == FOOTER)
    requires IndexOf(b).Some? && IndexOf(b).value.file == n && IndexOf(b).value.handle.size == |bytes|
    ensures Accounted(own[n := own[n] + bytes + tail], if tail == [] then Some(n) else None, out + [b])
  {
    hide IndexOf;
    forall k | k in own ensures Collected(out + [b], k) == Collected(out, k) + if k == n then |bytes| else 0 {
      CollectedStep(out, b, k);
    }
  }

  lemma {:induction false} SomeMention(out: seq<Entry>, n: nat)
    ensures Collected(out, n) > 0 ==> exists i :: 0 <= i < |out| && Mentions(out[i], n)
    decreases |out|
  {
    hide Mentions;
    if out != [] && !Mentions(out[|out| - 1], n) {
      var front := out[..|out| - 1];
      SomeMention(front, n);
      if i :| 0 <= i < |front| && Mentions(front[i], n) { assert Mentions(out[i], n); }
    }
  }

  /** An entry that points into no sorted file of a lower level, nor into one marked for merge or GC. */
  ghost predicate UpToDate(o: Options, files: Files, b: Entry) {
    IndexOf(b).Some? && IndexOf(b).value.file in files && files[IndexOf(b).value.file].sorted ==>
      && files[IndexOf(b).value.file].level >= o.targetLevel
      && files[IndexOf(b).value.file].state !in {BlobFileState.ToMerge, BlobFileState.ToGC}
  }

  lemma UpToDateMeans(o: Options, files: Files, out: seq<Entry>)
    requires forall i :: 0 <= i < |out| ==> UpToDate(o, files, out[i])
    ensures forall i, n :: 0 <= i < |out| && Mentions(out[i], n) && n in files && files[n].sorted ==>
              files[n].level >= o.targetLevel && files[n].state !in {BlobFileState.ToMerge, BlobFileState.ToGC}
  {
    hide IndexOf;
  }

  /** An entry that points into no file but the builder's. */
  predicate Inward(own: map<nat, Bytes>, b: Entry) { IndexOf(b).Some? ==> IndexOf(b).value.file in own }

  /** Of files that are not the builder's, what was kept is referred to again or not at all. */
  ghost predicate OnlyDrops(own: map<nat, Bytes>, kept: seq<Entry>, out: seq<Entry>) {
    forall n :: n !in own ==> Collected(out, n) <= Collected(kept, n)
  }

  lemma DropsStep(own: map<nat, Bytes>, kept: seq<Entry>, out: seq<Entry>, e: Entry, b: Entry)
    requires OnlyDrops(own, kept, out) && (b == e || Inward(own, b))
    ensures OnlyDrops(own, kept + [e], out + [b])
  {
    hide Collected, IndexOf;
    forall n | n !in own ensures Collected(out + [b], n) <= Collected(kept + [e], n) {
      CollectedStep(out, b, n);
      CollectedStep(kept, e, n);
    }
  }

  // ---------------------------------------------------------------- deleting the open file

  /** An entry that points into a deleted file means nothing any more; every other one means what it did. */
  lemma DeletedMeaning(o: Options, files: Files, own: map<nat, Bytes>, n: nat, a: Entry, b: Entry)
    requires n in own && n !in files && SameMeaning(o, files, own, a, b) && Settled(o, own, b)
    ensures SameMeaning(o, files, own - {n}, a, b) <==> !Mentions(b, n)
    ensures Mentions(b, n) ==> Denote(o, files + Own(o, own - {n}), b).Stuck?
  {
    hide ReadAt, DecIndex;
  }

  /** Deleting the open file breaks the table: its account says that some entry points there. */
  lemma DeletionBreaks(o: Options, files: Files, own: map<nat, Bytes>, n: nat, kept: seq<Entry>, out: seq<Entry>)
    requires Preserves(o, files, own, kept, out) && Accounted(own, Some(n), out)
    requires n in own && n !in files && |own[n]| > FILE_HEADER
    ensures |out| == |kept| && Accounted(own - {n}, None, out) && !Preserves(o, files, own - {n}, kept, out)
    ensures forall i :: 0 <= i < |out| ==>
              (SameMeaning(o, files, own - {n}, kept[i], out[i]) <==> !Mentions(out[i], n))
  {
    hide SameMeaning, Settled, IndexOf, Mentions, Collected;
    forall i | 0 <= i < |out|
      ensures SameMeaning(o, files, own - {n}, kept[i], out[i]) <==> !Mentions(out[i], n)
    {
      DeletedMeaning(o, files, own, n, kept[i], out[i]);
    }
    SomeMention(out, n);
  }

  /** A map holds the collected bytes of exactly the files that entries mention. */
  ghost predicate Tallies(out: seq<Entry>, sizes: map<nat, nat>) {
    forall n :: Tally(out, sizes, n)
  }

  ghost predicate Tally(out: seq<Entry>, sizes: map<nat, nat>, n: nat) {
    && Collected(out, n) == (if n in sizes then sizes[n] else 0)
    && (n in sizes <==> exists i :: 0 <= i < |out| && Mentions(out[i], n))
  }

  function AddUserKey(sizes: map<nat, nat>, b: Entry): map<nat, nat> {
    match IndexOf(b)
    case None => sizes
    case Some(i) => sizes[i.file := (if i.file in sizes then sizes[i.file] else 0) + i.handle.size]
  }

  lemma TallyStep(out: seq<Entry>, sizes: map<nat, nat>, b: Entry, n: nat)
    requires Tally(out, sizes, n)
    ensures Tally(out + [b], AddUserKey(sizes, b), n)
  {
    hide IndexOf;
    CollectedStep(out, b, n);
    hide Collected;
    var all := out + [b];
    assert all[|out|] == b && forall i :: 0 <= i < |out| ==> all[i] == out[i];
    if i :| 0 <= i < |out| && Mentions(out[i], n) { assert Mentions(all[i], n); }
  }

  /** The size collector: one pass over the entries of an SST. */
  method CollectSizes(out: seq<Entry>) returns (sizes: map<nat, nat>)
    ensures Tallies(out, sizes)
  {
    sizes := map[];
    for k := 0 to |out|
      invariant Tallies(out[..k], sizes)
    {
      hide AddUserKey, Tally;
      var next := AddUserKey(sizes, out[k]);
      ghost var seen := out[..k + 1];
      assert seen == out[..k] + [out[k]];
      forall n ensures Tally(seen, next, n) { TallyStep(out[..k], sizes, out[k], n); }
      sizes := next;
    }
    assert out[..|out|] == out;
  }

  /** What the environment answers during one call. */
  datatype Io = Io(newFile: Option<nat>, headerOk: bool, appendOk: bool, finishOk: bool, openOk: bool, readOk: bool)

  /** The number offered for a new file is one nobody uses or mentions. */
  predicate Fresh(n: Option<nat>, files: Files, own: map<nat, Bytes>, out: seq<Entry>, e: Entry) {
    n.Some? ==>
      && n.value < U64 && n.value !in files && n.value !in own && !Mentions(e, n.value)
      && forall i :: 0 <= i < |out| ==> !Mentions(out[i], n.value)
  }

  predicate Mentions(e: Entry, n: nat) { IndexOf(e).Some? && IndexOf(e).value.file == n }

  class TitanTableBuilder {
    const o: Options
    const files: Files
    var statusOk: bool
    var blobOk: bool
    var current: Option<nat>
    var own: map<nat, Bytes>
    var out: seq<Entry>
    ghost var kept: seq<Entry>   // the entries that were written
    ghost var inputs: seq<Option<Entry>>   // what was handed in
    ghost var lost: nat          // how many inputs were not written
    ghost var smooth: bool       // every input was written, and every index among them led to a value

    predicate Ok()
      reads this
    {
      statusOk && Sound()
    }

    /** No blob file failed to be written. */
    predicate Sound()
      reads this`current, this`blobOk
    {
      current.Some? ==> blobOk
    }

    /** What is written so far means what was kept of the input. */
    ghost predicate Faithful()
      reads this`current, this`blobOk, this`own, this`kept, this`out
    {
      && Honest(o.z) && (current.Some? ==> current.value in own && current.value < U64) && own.Keys !! files.Keys
      && (Sound() ==> Preserves(o, files, own, kept, out))
    }

    /** An open file holds a record. */
    predicate Filled()
      reads this`current, this`blobOk, this`own
    {
      current.Some? && Sound() ==> current.value in own && |own[current.value]| > FILE_HEADER
    }

    /** A file is closed as soon as it reaches the target size, and not before. */
    predicate Rotated()
      reads this`current, this`blobOk, this`own
    {
      Closed() && (current.Some? && Sound() ==> current.value in own && |own[current.value]| < o.targetFileSize)
    }

    predicate Closed()
      reads this`current, this`own
    {
      forall n :: n in own && current != Some(n) ==> |own[n]| >= o.targetFileSize + FOOTER
    }

    /** Every input was written. */
    ghost predicate Complete()
      reads this
    {
      |kept| == |inputs| && forall i :: 0 <= i < |kept| ==> inputs[i] == Some(kept[i])
    }

    ghost predicate Valid()
      reads this
    {
      && Faithful() && Filled() && Rotated() && (Sound() ==> Accounted(own, current, out)) && OnlyDrops(own, kept, out)
      && |kept| + lost == |inputs| && (lost == 0 ==> Complete()) && (Ok() ==> lost == 0)
      && (smooth && Strict() ==> forall i :: 0 <= i < |out| ==> UpToDate(o, files, out[i]))
    }

    /** The table goes to a level at which values are merged. */
    predicate Strict() { o.levelMerge && o.mode == Normal && o.targetLevel >= o.mergeLevel }

    constructor (o: Options, files: Files)
      requires Honest(o.z)
      ensures Valid() && Ok() && kept == [] && inputs == [] && lost == 0 && smooth && this.o == o && this.files == files
      ensures out == [] && own == map[] && current == None
    {
      this.o, this.files := o, files;
      statusOk, blobOk, current, own, out := true, true, None, map[], [];
      kept, inputs, lost, smooth := [], [], 0, true;
    }

    /** The environment lets the value into a blob file. */
    predicate Stores(e: Entry, v: Bytes, io: Io)
      reads this`current, this`own
    {
      && (current.None? ==> io.newFile.Some? && io.headerOk)
      && io.appendOk && (!HasRoom(e, v) ==> io.finishOk)
    }

    /** The open file, or a new one, stays below the target size with the value in it. */
    predicate HasRoom(e: Entry, v: Bytes)
      reads this`current, this`own
    {
      var size := if current.Some? && current.value in own then |own[current.value]| else FILE_HEADER;
      size + |EncRecord(o.z, Record(e.key, v), o.levelMerge)| < o.targetFileSize
    }

    /** Appends a value to the current blob file, opening and closing files as needed. */
    method AddBlob(e: Entry, v: Bytes, io: Io) returns (index: Option<BlobIndex>)
      requires Faithful() && Ok() && Fresh(io.newFile, files, own, out, e) && Accounted(own, current, out)
      requires Packable(o.z, Record(e.key, v), o.levelMerge) && Denote(o, files, e) == Means(v)
      requires current.Some? ==> |own[current.value]| < U64
      requires OnlyDrops(own, kept, out) && Closed()
      modifies this`statusOk, this`blobOk, this`current, this`own
      ensures Faithful() && OnlyDrops(own, kept, out) && Rotated()
      ensures forall n :: n in own && n !in old(own) ==> io.newFile == Some(n)
      ensures index.Some? ==>
                && Ok() && SameMeaning(o, files, own, e, Pointing(e, index.value))
                && Settled(o, own, Pointing(e, index.value)) && Filled()
                && index.value.file in own && IndexOf(Pointing(e, index.value)) == index
                && Accounted(own, current, out + [Pointing(e, index.value)])
      ensures index.Some? <==> Ok()
      ensures index.Some? <==> old(Stores(e, v, io))
      ensures index.Some? ==> (current.Some? <==> old(HasRoom(e, v)))
      ensures index.None? && Sound() ==> Accounted(own, current, out) && current.None?
    {
      hide Preserves, Denote, SameMeaning, Settled, Honest, Packable, Pointing, Fresh, Accounted, IndexOf;
      if current.None? {
        var ready := OpenFile(e, io);
        if !ready { return None; }
      }
      index := Append(e, v, io);
    }

    /** Starts a blob file with its header. */
    method OpenFile(e: Entry, io: Io) returns (ready: bool)
      requires Faithful() && Ok() && current.None? && Fresh(io.newFile, files, own, out, e)
      requires Accounted(own, current, out) && Closed()
      modifies this`statusOk, this`blobOk, this`current, this`own
      ensures Faithful() && Closed() && (ready <==> Ok()) && (ready <==> io.newFile.Some? && io.headerOk)
      ensures Sound() ==> Accounted(own, current, out) && (ready || current.None?)
      ensures old(own).Keys <= own.Keys
      ensures ready ==> Accounted(own, current, out) && current.Some? && |own[current.value]| == FILE_HEADER
      ensures forall n :: n in own && n !in old(own) ==> io.newFile == Some(n)
    {
      hide Preserves, FileHeader, Honest, Accounted, IndexOf;
      if io.newFile.None? {
        statusOk := false;
        return false;
      }
      var n, next := io.newFile.value, own[io.newFile.value := FileHeader()];
      PreservesGrows(o, files, own, next, kept, out);
      AccountedOpen(own, out, n, FileHeader());
      current, blobOk, own := Some(n), io.headerOk, next;
      return blobOk;
    }

    /** Appends a record to the open file and closes the file once it is large enough. */
    method Append(e: Entry, v: Bytes, io: Io) returns (index: Option<BlobIndex>)
      requires Faithful() && Ok() && current.Some? && Accounted(own, current, out) && Closed()
      requires Packable(o.z, Record(e.key, v), o.levelMerge) && Denote(o, files, e) == Means(v)
      requires |own[current.value]| < U64
      modifies this`blobOk, this`current, this`own
      ensures Faithful() && own.Keys == old(own.Keys) && Rotated()
      ensures index.Some? ==>
                && Ok() && SameMeaning(o, files, own, e, Pointing(e, index.value))
                && Settled(o, own, Pointing(e, index.value)) && Filled()
                && index.value.file in own && IndexOf(Pointing(e, index.value)) == index
                && Accounted(own, current, out + [Pointing(e, index.value)])
      ensures index.Some? <==> Ok()
      ensures index.Some? <==> io.appendOk && (!old(HasRoom(e, v)) ==> io.finishOk)
      ensures index.Some? ==> (current.Some? <==> old(HasRoom(e, v)))
      ensures Sound() ==> index.Some?
    {
      hide Preserves, EncRecord, FileFooter, Denote, SameMeaning, Settled, Honest, Packable, Pointing, Accounted,
           IndexOf;
      if !io.appendOk {
        blobOk := false;
        return None;
      }
      var n, before, bytes := current.value, own[current.value], EncRecord(o.z, Record(e.key, v), o.levelMerge);
      index := Some(BlobIndex(n, BlobHandle(|before|, |bytes|)));
      var tail: Bytes := [];
      GrownFile(o, own, n, out, Record(e.key, v));
      if |before| + |bytes| >= o.targetFileSize {
        if !io.finishOk {
          blobOk := false;
          return None;
        }
        tail := FileFooter(o.z);
        current := None;
      }
      var next := own[n := before + bytes + tail];
      PreservesGrows(o, files, own, next, kept, out);
      MovedSame(o, files, next, e, v, n, before, tail);
      AccountedAppend(own, n, out, Pointing(e, index.value), bytes, tail);
      own := next;
    }

    /** Every input before the one in hand was written. */
    ghost predicate Between()
      reads this
    {
      && Faithful() && Filled() && Rotated() && OnlyDrops(own, kept, out) && lost == 0
      && |inputs| == |kept| + 1 && (forall i :: 0 <= i < |kept| ==> inputs[i] == Some(kept[i]))
      && (smooth && Strict() ==> forall i :: 0 <= i < |out| ==> UpToDate(o, files, out[i]))
    }

    /** Writes an entry to the SST. */
    method Emit(e: Entry, b: Entry)
      requires Between() && inputs[|kept|] == Some(e)
      requires Sound() ==> SameMeaning(o, files, own, e, b) && Settled(o, own, b) && Accounted(own, current, out + [b])
      requires (b == e || Inward(own, b)) && (smooth && Strict() ==> UpToDate(o, files, b))
      modifies this`out, this`kept
      ensures Valid() && kept == old(kept) + [e] && out == old(out) + [b]
    {
      hide SameMeaning, Settled, Honest, Accounted, OnlyDrops, UpToDate;
      DropsStep(own, kept, out, e, b);
      out, kept := out + [b], kept + [e];
    }

    /** The input in hand is not written. */
    ghost method Lose()
      requires Between() && !Ok() && (Sound() ==> Accounted(own, current, out))
      modifies this`lost
      ensures Valid() && lost == 1
    {
      lost := lost + 1;
    }

    predicate ShouldMerge(n: nat) {
      && n in files && files[n].sorted
      && ((o.targetLevel >= o.mergeLevel && files[n].level < o.targetLevel)
          || files[n].state == BlobFileState.ToMerge || files[n].state == BlobFileState.ToGC)
    }

    predicate Merges(e: Entry) {
      && e.kind == Index && o.levelMerge && (o.targetLevel >= o.mergeLevel || o.mergeLowLevel) && o.mode == Normal
      && IndexOf(e).Some? && ShouldMerge(IndexOf(e).value.file)
    }

    /** Where the value of an entry ends up: inline, in a file of the builder, or where it was. */
    predicate Placed(e: Entry, b: Entry, readOk: bool)
      reads this
    {
      if e.kind == Index && o.mode == Fallback && readOk && Denote(o, files, e).Means? then b.kind == PlainValue
      else if Separates(e) || (Merges(e) && readOk && Denote(o, files, e).Means?)
      then IndexOf(b).Some? && IndexOf(b).value.file in own
      else b == e
    }

    /** The same, spelled out. */
    lemma PlacedMeans(e: Entry, b: Entry, readOk: bool)
      requires Placed(e, b, readOk)
      ensures e.kind == PlainValue ==>
                if |e.value| >= o.minBlobSize && o.mode == Normal then IndexOf(b).Some? && IndexOf(b).value.file in own
                else b == e
      ensures e.kind == Index && o.mode == Fallback ==>
                if readOk && Denote(o, files, e).Means? then b.kind == PlainValue else b == e
      ensures e.kind == Index && Denote(o, files, e).Means? ==> IndexOf(e).Some? && IndexOf(e).value.file in files
      ensures e.kind == Index && o.mode != Fallback ==>
                if && o.mode == Normal && o.levelMerge && readOk && Denote(o, files, e).Means?
                   && files[IndexOf(e).value.file].sorted
                   && (|| (o.targetLevel >= o.mergeLevel && files[IndexOf(e).value.file].level < o.targetLevel)
                       || ((o.targetLevel >= o.mergeLevel || o.mergeLowLevel)
                           && files[IndexOf(e).value.file].state in {BlobFileState.ToMerge, BlobFileState.ToGC}))
                then IndexOf(b).Some? && IndexOf(b).value.file in own
                else b == e
      ensures e.kind.Other? ==> b == e
    {
      hide ReadAt, DecIndex;
    }

    /** An index leads to a value that can be read. */
    predicate Leads(e: Entry, io: Io) { e.kind == Index ==> io.readOk && Denote(o, files, e).Means? }

    predicate Separates(e: Entry) { e.kind == PlainValue && |e.value| >= o.minBlobSize && o.mode == Normal }

    predicate Remerges(e: Entry) {
      e.kind == Index && o.levelMerge && (o.targetLevel >= o.mergeLevel || o.mergeLowLevel) && o.mode == Normal
    }

    /** The entry gets into the SST. */
    predicate Keeps(e: Entry, io: Io)
      reads this`current, this`own
    {
      && ((e.kind == Index && o.mode == Fallback) || Remerges(e) ==> IndexOf(e).Some?)
      && (Separates(e) ==> Stores(e, e.value, io))
    }

    /** It does so without an error that stops the builder. */
    predicate Succeeds(e: Entry, io: Io)
      reads this`current, this`own
    {
      && Keeps(e, io)
      && (Merges(e) ==>
           io.openOk && (io.readOk && Denote(o, files, e).Means? ==> Stores(e, Denote(o, files, e).value, io)))
    }

    /**
     * An input whose key does not parse is None. The input is written if and only if the status is good, the key
     * parses, the index decodes where it has to be decoded and the value is stored where it has to be separated.
     */
    method Add(input: Option<Entry>, io: Io)
      requires Valid()
      requires input.Some? ==> Fresh(io.newFile, files, own, out, input.value)
      requires input.Some? ==> forall n :: n in own ==> !Mentions(input.value, n)
      requires input.Some? && Denote(o, files, input.value).Means? ==>
                 Packable(o.z, Record(input.value.key, Denote(o, files, input.value).value), o.levelMerge)
      requires input.Some? && current.Some? && current.value in own ==> |own[current.value]| < U64
      modifies this
      ensures Valid() && inputs == old(inputs) + [input]
      ensures Ok() <==> old(Ok()) && input.Some? && old(Succeeds(input.value, io))
      ensures if old(Ok()) && input.Some? && old(Keeps(input.value, io))
              then lost == old(lost) && kept == old(kept) + [input.value] && |out| > 0 && out[..|out| - 1] == old(out)
                   && (!Ok() ==> out[|out| - 1] == input.value)
              else lost == old(lost) + 1 && kept == old(kept) && out == old(out)
      ensures Ok() && input.value.kind == PlainValue ==>
                if |input.value.value| >= o.minBlobSize && o.mode == Normal
                then IndexOf(out[|out| - 1]).Some? && IndexOf(out[|out| - 1]).value.file in own
                else out[|out| - 1] == input.value
      ensures Ok() && input.value.kind == Index && o.mode == Fallback ==>
                if io.readOk && Denote(o, files, input.value).Means? then out[|out| - 1].kind == PlainValue
                else out[|out| - 1] == input.value
      ensures Ok() && input.value.kind == Index && o.mode != Fallback ==>
                var e, b := input.value, out[|out| - 1];
                if && o.mode == Normal && o.levelMerge && io.readOk && Denote(o, files, e).Means?
                   && files[IndexOf(e).value.file].sorted
                   && (|| (o.targetLevel >= o.mergeLevel && files[IndexOf(e).value.file].level < o.targetLevel)
                       || ((o.targetLevel >= o.mergeLevel || o.mergeLowLevel)
                           && files[IndexOf(e).value.file].state in {BlobFileState.ToMerge, BlobFileState.ToGC}))
                then IndexOf(b).Some? && IndexOf(b).value.file in own
                else b == e
      ensures Ok() && input.value.kind.Other? ==> out[|out| - 1] == input.value
      ensures smooth <==> old(smooth) && Ok() && Leads(input.value, io)
      ensures !old(Ok()) || input.None? ==> own == old(own) && current == old(current) && blobOk == old(blobOk)
      ensures Ok() && Separates(input.value) ==> (current.Some? <==> old(HasRoom(input.value, input.value.value)))
      ensures forall n :: n in own && n !in old(own) ==> io.newFile == Some(n)
    {
      hide Valid, Placed, Keeps, Succeeds, Leads, HasRoom, Denote, IndexOf, Fresh, Mentions, Packable;
      if Ok() && input.Some? {
        AddEntry(input.value, io);
        if Ok() { PlacedMeans(input.value, out[|out| - 1], io.readOk); }
      } else {
        Skip(input);
      }
    }

    /** A bad status, or a key that does not parse and makes it bad. */
    method Skip(input: Option<Entry>)
      requires Valid() && (!Ok() || input.None?)
      modifies this
      ensures Valid() && !Ok() && !smooth && inputs == old(inputs) + [input] && lost == old(lost) + 1
      ensures kept == old(kept) && out == old(out)
      ensures own == old(own) && current == old(current) && blobOk == old(blobOk)
    {
      hide Preserves, Honest, Accounted, OnlyDrops, UpToDate, Faithful, Filled;
      inputs, lost, smooth := inputs + [input], lost + 1, false;
      if Ok() { statusOk := false; }
    }

    method AddEntry(e: Entry, io: Io)
      requires Valid() && Ok() && Fresh(io.newFile, files, own, out, e) && forall n :: n in own ==> !Mentions(e, n)
      requires Denote(o, files, e).Means? ==> Packable(o.z, Record(e.key, Denote(o, files, e).value), o.levelMerge)
      requires current.Some? && current.value in own ==> |own[current.value]| < U64
      modifies this
      ensures Valid() && inputs == old(inputs) + [Some(e)]
      ensures Ok() <==> old(Succeeds(e, io))
      ensures if old(Keeps(e, io))
              then lost == old(lost) && kept == old(kept) + [e] && |out| > 0 && out[..|out| - 1] == old(out)
                   && if Ok() then Placed(e, out[|out| - 1], io.readOk) else out[|out| - 1] == e
              else lost == old(lost) + 1 && kept == old(kept) && out == old(out)
      ensures Ok() && Separates(e) ==> (current.Some? <==> old(HasRoom(e, e.value)))
      ensures forall n :: n in own && n !in old(own) ==> io.newFile == Some(n)
      ensures smooth <==> old(smooth) && Ok() && Leads(e, io)
      ensures Ok() ==> old(Keeps(e, io))
    {
      hide Preserves, Honest, Packable, Fresh, Mentions, Accounted, Denote, IndexOf, Stores, HasRoom, OnlyDrops, Placed,
           UpToDate, Faithful, Filled, Leads;
      inputs := inputs + [Some(e)];
      smooth := smooth && Succeeds(e, io) && Leads(e, io);
      AddParsed(e, io);
    }

    /** The four ways an entry can go. */
    method AddParsed(e: Entry, io: Io)
      requires Between() && Ok() && inputs[|kept|] == Some(e) && Accounted(own, current, out)
      requires Fresh(io.newFile, files, own, out, e) && forall n :: n in own ==> !Mentions(e, n)
      requires Denote(o, files, e).Means? ==> Packable(o.z, Record(e.key, Denote(o, files, e).value), o.levelMerge)
      requires current.Some? && current.value in own ==> |own[current.value]| < U64
      requires smooth ==> Succeeds(e, io) && Leads(e, io)
      modifies this`statusOk, this`blobOk, this`current, this`own, this`out, this`kept, this`lost
      ensures Valid()
      ensures Ok() <==> old(Succeeds(e, io))
      ensures Ok() && Separates(e) ==> (current.Some? <==> old(HasRoom(e, e.value)))
      ensures forall n :: n in own && n !in old(own) ==> io.newFile == Some(n)
      ensures if old(Keeps(e, io))
              then lost == 0 && kept == old(kept) + [e] && |out| > 0 && out[..|out| - 1] == old(out)
                   && if Ok() then Placed(e, out[|out| - 1], io.readOk) else out[|out| - 1] == e
              else lost == 1 && kept == old(kept) && out == old(out)
    {
      hide Preserves, SameMeaning, Settled, Honest, Packable, Fresh, ReadAt, DecIndex, Mentions, Accounted, Stores,
           HasRoom, OnlyDrops, Rotated, Filled, Faithful;
      Copyable(o, files, own, current, out, e);
      if e.kind == Index && o.mode == Fallback {
        Inline(e, io.readOk);
      } else if Separates(e) {
        Separate(e, io);
      } else if Remerges(e) {
        Remerge(e, io);
      } else {
        Emit(e, e);
      }
    }

    /** The open file is deleted, since an error came before; the error itself is then forgotten. */
    predicate Discards()
      reads this
    {
      current.Some? && !statusOk
    }

    /**
     * Closes the last file, or deletes it if the status is bad. The status afterwards forgets the error. So a table
     * reported as written holds every input if and only if no call of Add lost its own, and what it holds can be
     * read, entry by entry, if and only if it does not point into a deleted file.
     */
    method Finish(io: Io, batchOk: bool) returns (ok: bool)
      requires Valid()
      modifies this`current, this`own, this`statusOk, this`blobOk
      ensures ok <==> batchOk && (old(current).None? || (old(blobOk) && io.finishOk))
      ensures ok ==> own.Keys == if old(Discards()) then old(own).Keys - {old(current).value} else old(own).Keys
      ensures ok ==> |out| == |kept| && Accounted(own, None, out)
      ensures ok ==> forall i :: 0 <= i < |out| ==>
                (SameMeaning(o, files, own, kept[i], out[i]) <==>
                 !(old(Discards()) && Mentions(out[i], old(current).value)))
      ensures ok ==> (Preserves(o, files, own, kept, out) <==> !old(Discards()))
      ensures ok ==> (|out| == |inputs| <==> lost == 0)
      ensures ok ==> forall n :: n in own && old(current) != Some(n) ==> |own[n]| >= o.targetFileSize + FOOTER
      ensures Complete() <==> lost == 0
      ensures forall n :: n !in old(own) ==> Collected(out, n) <= Collected(kept, n)
      ensures smooth && o.levelMerge && o.mode == Normal && o.targetLevel >= o.mergeLevel ==>
                forall i, n :: 0 <= i < |out| && Mentions(out[i], n) && n in files && files[n].sorted ==>
                  files[n].level >= o.targetLevel && files[n].state !in {BlobFileState.ToMerge, BlobFileState.ToGC}
    {
      hide Preserves, IndexOf, SameMeaning, Settled, Collected, Mentions, Accounted, UpToDate;
      FinishBlobFile(io);
      statusOk := batchOk;
      ok := Ok();
      if smooth && Strict() { UpToDateMeans(o, files, out); }
    }

    /** Closes the open file, or deletes it if the status is bad. */
    method FinishBlobFile(io: Io)
      requires Valid()
      modifies this`current, this`own, this`blobOk
      ensures Sound() <==> old(current).None? || (old(blobOk) && io.finishOk)
      ensures Sound() ==> own.Keys == if old(Discards()) then old(own).Keys - {old(current).value} else old(own).Keys
      ensures Sound() ==> |out| == |kept| && Accounted(own, None, out)
      ensures forall n :: n in own && old(current) != Some(n) ==> n in old(own) && own[n] == old(own)[n]
      ensures Sound() ==> forall i :: 0 <= i < |out| ==>
                (SameMeaning(o, files, own, kept[i], out[i]) <==>
                 !(old(Discards()) && Mentions(out[i], old(current).value)))
      ensures Sound() ==> (Preserves(o, files, own, kept, out) <==> !old(Discards()))
    {
      hide Preserves, FileFooter, IndexOf, SameMeaning, Settled, Collected, Mentions, Accounted, UpToDate, OnlyDrops;
      if current.Some? {
        blobOk := blobOk && io.finishOk;
        if statusOk && blobOk {
          var next := own[current.value := own[current.value] + FileFooter(o.z)];
          PreservesGrows(o, files, own, next, kept, out);
          AccountedClose(own, current.value, out, FileFooter(o.z));
          own, current := next, None;
        } else {
          if blobOk { DeletionBreaks(o, files, own, current.value, kept, out); }
          own := own - {current.value};
        }
      }
      if Sound() { PreservesMeans(o, files, own, kept, out); }
    }

    /** Writes a value to the builder's file and an index to the SST; the entry is lost if that fails. */
    method Separate(e: Entry, io: Io)
      requires Between() && Ok() && inputs[|kept|] == Some(e) && Accounted(own, current, out) && Separates(e)
      requires Fresh(io.newFile, files, own, out, e) && Packable(o.z, Record(e.key, e.value), o.levelMerge)
      requires current.Some? && current.value in own ==> |own[current.value]| < U64
      requires smooth ==> Stores(e, e.value, io)
      modifies this`statusOk, this`blobOk, this`current, this`own, this`out, this`kept, this`lost
      ensures Valid() && (Ok() <==> old(Stores(e, e.value, io)))
      ensures Ok() ==> (current.Some? <==> old(HasRoom(e, e.value)))
      ensures forall n :: n in own && n !in old(own) ==> io.newFile == Some(n)
      ensures if Ok()
              then lost == 0 && kept == old(kept) + [e] && |out| > 0 && out[..|out| - 1] == old(out)
                   && IndexOf(out[|out| - 1]).Some? && IndexOf(out[|out| - 1]).value.file in own
              else lost == 1 && kept == old(kept) && out == old(out)
    {
      hide Preserves, SameMeaning, Settled, Honest, Packable, Fresh, IndexOf, Pointing, Accounted, Stores, HasRoom,
           OnlyDrops;
      var index := AddBlob(e, e.value, io);
      if Ok() { Emit(e, Pointing(e, index.value)); } else { Lose(); }
    }

    /** Fallback: the value comes back from its blob file, or the index is copied. */
    method Inline(e: Entry, readOk: bool)
      requires Between() && Ok() && inputs[|kept|] == Some(e) && Accounted(own, current, out)
      requires e.kind == Index && o.mode == Fallback && forall n :: n in own ==> !Mentions(e, n)
      modifies this`statusOk, this`out, this`kept, this`lost
      ensures Valid() && (Ok() <==> IndexOf(e).Some?)
      ensures if Ok()
              then lost == 0 && kept == old(kept) + [e] && |out| > 0 && out[..|out| - 1] == old(out)
                   && if readOk && Denote(o, files, e).Means? then out[|out| - 1].kind == PlainValue
                      else out[|out| - 1] == e
              else lost == 1 && kept == old(kept) && out == old(out)
    {
      hide Preserves, SameMeaning, Settled, Honest, ReadAt, DecIndex, Accounted;
      var i := IndexOf(e);
      if i.None? {
        statusOk := false;
        Lose();
        return;
      }
      var r := if readOk then Look(o, files, i.value) else None;
      if r.Some? {
        var b := Entry(e.key, e.sequence, PlainValue, r.value.value);
        InlineSame(o, files, own, e, b);
        AccountedCopy(own, current, out, b);
        Emit(e, b);
      } else {
        Copyable(o, files, own, current, out, e);
        Emit(e, e);
      }
    }

    /** Moves a value from an old sorted file into the builder's own file, or copies the index. */
    method Remerge(e: Entry, io: Io)
      requires Between() && Ok() && inputs[|kept|] == Some(e) && Accounted(own, current, out)
      requires Remerges(e) && Fresh(io.newFile, files, own, out, e) && forall n :: n in own ==> !Mentions(e, n)
      requires Denote(o, files, e).Means? ==> Packable(o.z, Record(e.key, Denote(o, files, e).value), o.levelMerge)
      requires current.Some? && current.value in own ==> |own[current.value]| < U64
      requires smooth ==> Succeeds(e, io) && Leads(e, io)
      modifies this`statusOk, this`blobOk, this`current, this`own, this`out, this`kept, this`lost
      ensures Valid() && (Ok() <==> old(Succeeds(e, io)))
      ensures forall n :: n in own && n !in old(own) ==> io.newFile == Some(n)
      ensures if IndexOf(e).Some?
              then lost == 0 && kept == old(kept) + [e] && |out| > 0 && out[..|out| - 1] == old(out)
                   && if Ok() then Placed(e, out[|out| - 1], io.readOk) else out[|out| - 1] == e
              else lost == 1 && kept == old(kept) && out == old(out)
    {
      hide Preserves, SameMeaning, Settled, Honest, Packable, ReadAt, DecIndex, Pointing, Accounted, Stores, HasRoom,
           OnlyDrops;
      Copyable(o, files, own, current, out, e);
      var i := IndexOf(e);
      if i.None? {
        statusOk := false;
        Lose();
        return;
      }
      if ShouldMerge(i.value.file) {
        if !io.openOk {
          statusOk := false;
          Emit(e, e);
          return;
        }
        var r := if io.readOk then Look(o, files, i.value) else None;
        if r.Some? {
          Move(e, r.value.value, io);
          return;
        }
      }
      Emit(e, e);
    }

    /** Writes a value to the builder's file and points to it; the entry is copied if that fails. */
    method Move(e: Entry, v: Bytes, io: Io)
      requires Between() && Ok() && inputs[|kept|] == Some(e) && Accounted(own, current, out)
      requires Fresh(io.newFile, files, own, out, e) && forall n :: n in own ==> !Mentions(e, n)
      requires Packable(o.z, Record(e.key, v), o.levelMerge) && Denote(o, files, e) == Means(v)
      requires current.Some? ==> |own[current.value]| < U64
      requires smooth ==> Stores(e, v, io)
      modifies this`statusOk, this`blobOk, this`current, this`own, this`out, this`kept
      ensures Valid() && (Ok() <==> old(Stores(e, v, io)))
      ensures forall n :: n in own && n !in old(own) ==> io.newFile == Some(n)
      ensures lost == 0 && kept == old(kept) + [e] && |out| > 0 && out[..|out| - 1] == old(out)
      ensures if Ok() then IndexOf(out[|out| - 1]).Some? && IndexOf(out[|out| - 1]).value.file in own
              else out[|out| - 1] == e
    {
      hide Preserves, SameMeaning, Settled, Honest, Packable, Denote, IndexOf, Pointing, Accounted, Stores, HasRoom,
           OnlyDrops;
      var index := AddBlob(e, v, io);
      Copyable(o, files, own, current, out, e);
      if Ok() { Emit(e, Pointing(e, index.value)); } else { Emit(e, e); }
    }
  }

  lemma Copyable(o: Options, files: Files, own: map<nat, Bytes>, current: Option<nat>, out: seq<Entry>, e: Entry)
    requires forall n :: n in own ==> !Mentions(e, n)
    ensures SameMeaning(o, files, own, e, e) && Settled(o, own, e)
    ensures Accounted(own, current, out) ==> Accounted(own, current, out + [e])
  {
    CopySame(o, files, own, e);
    if Accounted(own, current, out) { AccountedCopy(own, current, out, e); }
  }

  lemma InlineSame(o: Options, files: Files, own: map<nat, Bytes>, e: Entry, b: Entry)
    requires b.kind == PlainValue && b.key == e.key && b.sequence == e.sequence && Denote(o, files, e) == Means(b.value)
    ensures SameMeaning(o, files, own, e, b) && Settled(o, own, b) && forall n :: n in own ==> !Mentions(b, n)
  {
  }

  /** Whatever follows an entry that cannot be parsed is lost, and Finish still reports success. */
  method FinishForgetsError(o: Options, files: Files, e: Entry, io: Io) returns (b: TitanTableBuilder, ok: bool)
    requires Honest(o.z) && Fresh(io.newFile, files, map[], [], e)
    requires Denote(o, files, e).Means? ==> Packable(o.z, Record(e.key, Denote(o, files, e).value), o.levelMerge)
    ensures ok && b.inputs == [None, Some(e)] && b.lost == 2 && b.out == [] && !b.Complete()
  {
    hide Preserves, Denote, Honest, Packable;
    b := new TitanTableBuilder(o, files);
    b.Add(None, io);
    b.Add(Some(e), io);
    ok := b.Finish(io, true);
  }

  /**
   * A value goes to a blob file that stays open, then an entry cannot be parsed. Finish deletes the file and reports
   * success; the table keeps an index that leads nowhere.
   */
  method FinishDeletesFile(o: Options, files: Files, e: Entry, io: Io) returns (b: TitanTableBuilder, ok: bool)
    requires Honest(o.z) && Packable(o.z, Record(e.key, e.value), o.levelMerge)
    requires Fresh(io.newFile, files, map[], [], e)
    requires e.kind == PlainValue && |e.value| >= o.minBlobSize && o.mode == Normal
    requires io.newFile.Some? && io.headerOk && io.appendOk && io.finishOk
    requires FILE_HEADER + |EncRecord(o.z, Record(e.key, e.value), o.levelMerge)| < o.targetFileSize
    ensures ok && b.inputs == [Some(e), None] && b.kept == [e] && |b.out| == 1 && b.own == map[]
    ensures Denote(o, files, e) == Means(e.value) && !SameMeaning(o, files, b.own, e, b.out[0])
    ensures Mentions(b.out[0], io.newFile.value) && Denote(o, files, b.out[0]).Stuck?
  {
    hide Preserves, Honest, Packable, EncRecord, SameMeaning, Settled, Accounted, Collected, ReadAt, DecIndex,
         OnlyDrops;
    b := new TitanTableBuilder(o, files);
    b.Add(Some(e), io);
    assert b.own.Keys == {io.newFile.value};
    b.Add(None, io);
    ok := b.Finish(io, true);
  }
}
