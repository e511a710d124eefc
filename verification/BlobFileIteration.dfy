/** The blob file builder and the iterators that read finished files back. */
module BlobFileIteration {
  import opened Optional
  import opened Coding
  import opened KeyOrder
  import opened BlobFormat
  import opened BlobFile

  /** The bounds kept while records are added; an empty smallest key counts as not set. */
  function KeyBounds(rs: seq<Record>): (Bytes, Bytes)
    decreases |rs|
  {
    if rs == [] then ([], []) else NextBounds(KeyBounds(rs[..|rs| - 1]), rs[|rs| - 1].key)
  }

  function NextBounds(b: (Bytes, Bytes), k: Bytes): (Bytes, Bytes) {
    var c := if b.0 == [] then (k, k) else b;
    if Before(c.1, k) then (c.0, k) else if Before(k, c.0) then (k, c.1) else c
  }

  /**
   * Of records added in key order the bounds are the first and last key, unless the empty key is followed by another.
   */
  lemma {:induction false} KeyBoundsExact(rs: seq<Record>)
    requires rs != [] && ByKey(rs)
    ensures KeyBounds(rs) == (rs[0].key, rs[|rs| - 1].key) <==> rs[0].key != [] || rs[|rs| - 1].key == []
    ensures rs[0].key == [] && rs[|rs| - 1].key != [] ==> KeyBounds(rs).0 != []
    ensures rs[0].key == [] && rs[|rs| - 1].key == [] ==> KeyBounds(rs) == ([], [])
    decreases |rs|
  {
    TotalOrder();
    var n := |rs| - 1;
    if n > 0 {
      KeyBoundsExact(rs[..n]);
      assert AtMost(rs[n - 1].key, rs[n].key) && AtMost(rs[0].key, rs[n].key) && AtMost(rs[0].key, rs[n - 1].key);
      assert !Before(rs[n].key, []);
    }
  }

  class BlobFileBuilder {
    const z: Codec
    const onlyValue: bool
    var file: Bytes
    var entries: nat
    var smallest: Bytes
    var largest: Bytes
    ghost var records: seq<Record>

    ghost predicate Valid()
      reads this
    {
      file == FileHeader() + Body(z, records, onlyValue) && entries == |records|
      && (smallest, largest) == KeyBounds(records)
    }

    constructor (z: Codec, onlyValue: bool)
      ensures Valid() && records == [] && this.z == z && this.onlyValue == onlyValue
    {
      this.z, this.onlyValue := z, onlyValue;
      file, entries, records := FileHeader(), 0, [];
      smallest, largest := [], [];
    }

    method Add(r: Record) returns (h: BlobHandle)
      requires Valid()
      modifies this
      ensures Valid() && records == old(records) + [r]
      ensures h == HandleOf(z, records, onlyValue, |old(records)|)
    {
      hide EncRecord, FileHeader;
      var bytes := EncRecord(z, r, onlyValue);
      h := BlobHandle(|file|, |bytes|);
      file := file + bytes;
      entries := entries + 1;
      if smallest == [] { smallest, largest := r.key, r.key; }
      if Before(largest, r.key) {
        largest := r.key;
      } else if Before(r.key, smallest) {
        smallest := r.key;
      }
      BodyAppend(z, records, r, onlyValue);
      records := records + [r];
      assert records[..|old(records)|] == old(records);
    }

    method Finish() returns (content: Bytes)
      requires Valid()
      modifies this`file
      ensures content == file == Finished(z, records, onlyValue)
    {
      file := file + FileFooter(z);
      content := file;
    }
  }

  datatype Status = Ok | Corruption | InvalidArgument

  /** Iterates over a file whose records carry their keys. */
  class BlobFileIterator {
    const z: Codec
    const file: Bytes
    var init: bool
    var end: nat
    var status: Status
    var valid: bool
    var offset: nat
    var record: Record
    var handle: BlobHandle
    ghost const records: seq<Record>
    ghost var pos: nat     // the next record to be read

    ghost predicate Readable() {
      Honest(z) && AllPackable(z, records, false) && file == Finished(z, records, false)
    }

    ghost predicate Valid()
      reads this
    {
      && Readable() && (init ==> end == Start(z, records, false, |records|))
      && pos <= |records| && offset == Start(z, records, false, pos)
      && (valid ==> pos > 0 && record == records[pos - 1] && handle == HandleOf(z, records, false, pos - 1))
    }

    constructor (z: Codec, file: Bytes, ghost records: seq<Record>)
      requires Honest(z) && AllPackable(z, records, false) && file == Finished(z, records, false)
      ensures Valid() && !init && !valid && this.records == records && this.z == z
    {
      this.z, this.file, this.records := z, file, records;
      init, end, status, valid, offset, pos := false, 0, Ok, false, FILE_HEADER, 0;
      record, handle := Record([], []), BlobHandle(0, 0);
      FinishedEnds(z, records, false);
    }

    /** Checks header and footer and finds the end of the record area. */
    method Init() returns (ok: bool)
      requires Valid()
      modifies this`status, this`end, this`init
      ensures ok && init && status == Ok && Valid()
    {
      hide EndOfRecords, Finished, Start, AllPackable, HandleOf;
      EndFound(z, records, false);
      var e := EndOfRecords(z, file);
      ok := e.Some?;
      status := if ok then Ok else Corruption;
      if ok { end := e.value; }
      init := ok;
    }

    /** Reads the record at the current offset, if the record area goes on. */
    method GetBlobRecord()
      requires Valid() && init && status == Ok
      modifies this`valid, this`record, this`handle, this`offset, this`status, this`pos
      ensures Valid() && status == Ok && valid == (old(pos) < |records|)
      ensures pos == if old(pos) < |records| then old(pos) + 1 else old(pos)
    {
      hide Finished, RecordSize, ReadAt, AllPackable, Honest, Start;
      if pos < |records| {
        StartsIncrease(z, records, false, pos, |records|);
        ReadFinished(z, records, false, pos);
      }
      if offset >= end {
        valid := false;
        return;
      }
      var size := HEADER_SIZE + RecordSize(file[offset..offset + HEADER_SIZE]);
      var r := ReadAt(z, file, BlobHandle(offset, size), false);
      status := if r.Some? then Ok else Corruption;
      record := if r.Some? then r.value else record;
      handle := BlobHandle(offset, size);
      offset := offset + size;
      valid := true;
      pos := pos + 1;
    }

    method SeekToFirst()
      requires Valid()
      modifies this
      ensures Valid() && init && status == Ok && valid == (records != []) && pos == if records == [] then 0 else 1
    {
      hide Start, Readable;
      if !init { var ok := Init(); }
      FinishedEnds(z, records, false);
      status, offset, pos, valid := Ok, FILE_HEADER, 0, false;
      GetBlobRecord();
    }

    method Next()
      requires Valid() && init && status == Ok
      modifies this
      ensures Valid() && init && status == Ok && valid == (old(pos) < |records|)
      ensures pos == if old(pos) < |records| then old(pos) + 1 else old(pos)
    {
      GetBlobRecord();
    }

    /** Moves to the last record that starts at or before an offset of the record area; to the first from before it. */
    method IterateForPrev(o: nat)
      requires Valid()
      modifies this
      ensures init
      ensures o >= end ==> status == InvalidArgument && offset == o
      ensures o < end && o < FILE_HEADER ==> Valid() && status == Ok && !valid && pos == 0 && offset == FILE_HEADER
      ensures FILE_HEADER <= o < end ==>
                && Valid() && status == Ok && !valid && pos < |records|
                && offset <= o < Start(z, records, false, pos + 1)
    {
      hide Start, Readable, HandleOf;
      if !init { var ok := Init(); }
      status := Ok;
      if o >= end {
        offset, status := o, InvalidArgument;
        return;
      }
      var total;
      offset, total, pos := Walk(o);
      valid := false;
      if offset > o {
        offset := offset - total;
        pos := if pos > 0 then pos - 1 else 0;
      }
      if pos < |records| { StartsFit(pos); }
    }

    /** Steps from header to header until an offset is reached or passed. */
    method Walk(o: nat) returns (at: nat, total: nat, ghost p: nat)
      requires Readable() && o < Start(z, records, false, |records|)
      ensures p <= |records| && at == Start(z, records, false, p) && at >= o && (o <= FILE_HEADER ==> p == 0)
      ensures if p == 0 then total == 0 && at == FILE_HEADER else at - total == Start(z, records, false, p - 1) < o
    {
      hide Start, Readable, Finished;
      FinishedEnds(z, records, false);
      at, total, p := FILE_HEADER, 0, 0;
      while at < o
        invariant p <= |records| && at == Start(z, records, false, p) && (o <= FILE_HEADER ==> p == 0)
        invariant if p == 0 then total == 0 && at == FILE_HEADER else at - total == Start(z, records, false, p - 1) < o
        decreases o - at
      {
        total := SizeAt(at, p);
        at, p := at + total, p + 1;
      }
    }

    /** The size of the record at an offset, from its header. */
    method SizeAt(at: nat, ghost p: nat) returns (size: nat)
      requires Readable() && p <= |records| && at == Start(z, records, false, p) < Start(z, records, false, |records|)
      ensures p < |records| && size >= HEADER_SIZE && at + size == Start(z, records, false, p + 1)
    {
      hide Finished, RecordSize, ReadAt, Honest, Start, AllPackable;
      assert p < |records|;
      ReadFinished(z, records, false, p);
      size := HEADER_SIZE + RecordSize(file[at..at + HEADER_SIZE]);
    }

    lemma StartsFit(k: nat)
      requires Readable() && k < |records|
      ensures Start(z, records, false, k) < Start(z, records, false, k + 1)
    {
      StartsIncrease(z, records, false, k, k + 1);
    }
  }

  /** Iterating over a finished file gives its records in order, each with the handle it was added with. */
  method ReadAll(z: Codec, file: Bytes, ghost records: seq<Record>) returns (out: seq<(Record, BlobHandle)>)
    requires Honest(z) && AllPackable(z, records, false) && file == Finished(z, records, false)
    ensures |out| == |records|
    ensures forall i :: 0 <= i < |out| ==> out[i] == (records[i], HandleOf(z, records, false, i))
  {
    hide Finished, AllPackable, Honest, HandleOf;
    var it := new BlobFileIterator(z, file, records);
    out := [];
    it.SeekToFirst();
    while it.valid
      invariant fresh(it) && it.Valid() && it.init && it.status == Ok && it.records == records && it.z == z
      invariant |out| == if it.valid then it.pos - 1 else |records|
      invariant forall i :: 0 <= i < |out| ==> out[i] == (records[i], HandleOf(z, records, false, i))
      decreases |records| - |out|
    {
      out := out + [(it.record, it.handle)];
      it.Next();
    }
  }
}
