/** Byte formats of blob records, handles and indexes. */
module BlobFormat {
  import opened Optional
  import opened Coding
  import opened KeyOrder

  const HEADER_SIZE := 9
  const BLOB_RECORD: Byte := 1

  /** Compression and checksum, of which only the inverse law matters. */
  datatype Codec = Codec(pack: Bytes -> (Byte, Bytes), unpack: (Byte, Bytes) -> Option<Bytes>, crc: Bytes -> nat)

  /** Kind 0 means the bytes are stored as they are. */
  function Unpacked(z: Codec, kind: Byte, s: Bytes): Option<Bytes> { if kind == 0 then Some(s) else z.unpack(kind, s) }

  ghost predicate Honest(z: Codec) {
    forall s :: Unpacked(z, z.pack(s).0, z.pack(s).1) == Some(s)
  }

  // ---------------------------------------------------------------- records

  datatype Record = Record(key: Bytes, value: Bytes)

  predicate ByKey(rs: seq<Record>) { forall i, j :: 0 <= i < j < |rs| ==> AtMost(rs[i].key, rs[j].key) }

  /** A record is framed with its key, or as the bare value. */
  function Framed(r: Record, onlyValue: bool): Bytes {
    if onlyValue then r.value else Prefixed(r.key) + Prefixed(r.value)
  }

  /** Decoding a frame must use up all of it; a bare value leaves the key empty. */
  function Unframed(s: Bytes, onlyValue: bool): Option<Record> {
    if onlyValue then Some(Record([], s))
    else
      match GetPrefixed(s)
      case None => None
      case Some(k) =>
        match GetPrefixed(k.1)
        case None => None
        case Some(v) => if v.1 == [] then Some(Record(k.0, v.0)) else None
  }

  predicate Fits(r: Record) { |r.key| < U32 && |r.value| < U32 }

  /** A value comes back exactly when it is read with the framing it was written with. */
  lemma FramingExact(r: Record, written: bool, read: bool)
    requires Fits(r)
    ensures var u := Unframed(Framed(r, written), read); (u.Some? && u.value.value == r.value) <==> written == read
    ensures written == read ==> Unframed(Framed(r, written), read) == Some(Record(if read then [] else r.key, r.value))
  {
    hide GetVarint, Varint;
    if !written {
      PrefixedRoundTrip(r.key, Prefixed(r.value));
      PrefixedRoundTrip(r.value, []);
      assert Prefixed(r.value) + [] == Prefixed(r.value);
    }
  }

  /** Checksum, size of the packed frame, compression kind, packed frame. */
  function EncRecord(z: Codec, r: Record, onlyValue: bool): Bytes {
    var p := z.pack(Framed(r, onlyValue));
    var tail := Fixed(|p.1|, 4) + [p.0];
    Fixed(z.crc(tail + p.1), 4) + tail + p.1
  }

  /** The packed frame leaves room in its 32-bit size field. */
  predicate Packable(z: Codec, r: Record, onlyValue: bool) {
    Fits(r) && |z.pack(Framed(r, onlyValue)).1| < U32 - 1
  }

  function RecordSize(s: Bytes): nat
    requires |s| >= HEADER_SIZE
  {
    FromFixed(s[4..8])
  }

  /** Decodes the record at the start of s; the checksum is not compared. */
  function DecRecord(z: Codec, s: Bytes, onlyValue: bool): Option<Record> {
    if |s| < HEADER_SIZE || |s| < HEADER_SIZE + RecordSize(s) then None
    else
      match Unpacked(z, s[8], s[HEADER_SIZE..HEADER_SIZE + RecordSize(s)])
      case None => None
      case Some(f) => Unframed(f, onlyValue)
  }

  lemma SizeField(n: nat)
    requires n < U32
    ensures FromFixed(Fixed(n, 4)) == n
  {
    assert Pow(256, 2) == 65536;
    FixedRoundTrip(n, 4);
  }

  lemma RecordParts(z: Codec, r: Record, onlyValue: bool, rest: Bytes)
    requires Packable(z, r, onlyValue)
    ensures var p := z.pack(Framed(r, onlyValue)); var s := EncRecord(z, r, onlyValue) + rest;
            && |EncRecord(z, r, onlyValue)| == HEADER_SIZE + |p.1|
            && RecordSize(s) == |p.1| && s[8] == p.0 && s[HEADER_SIZE..HEADER_SIZE + |p.1|] == p.1
  {
    hide Fixed, Framed;
    var p := z.pack(Framed(r, onlyValue));
    var s := EncRecord(z, r, onlyValue) + rest;
    SizeField(|p.1|);
    assert s[4..8] == Fixed(|p.1|, 4);
  }

  /** The checksum comes first and covers all that follows it. */
  lemma RecordChecksum(z: Codec, r: Record, onlyValue: bool)
    ensures var s := EncRecord(z, r, onlyValue); |s| >= HEADER_SIZE && s[..4] == Fixed(z.crc(s[4..]), 4)
  {
    hide Fixed, Framed;
    var p := z.pack(Framed(r, onlyValue));
    var tail := Fixed(|p.1|, 4) + [p.0];
    var s := EncRecord(z, r, onlyValue);
    assert s[4..] == tail + p.1;
  }

  /** Decoding with the framing it was written with gives the record back, whatever follows it. */
  lemma RecordRoundTrip(z: Codec, r: Record, onlyValue: bool, rest: Bytes)
    requires Honest(z) && Packable(z, r, onlyValue)
    ensures DecRecord(z, EncRecord(z, r, onlyValue) + rest, onlyValue) ==
              Some(Record(if onlyValue then [] else r.key, r.value))
  {
    hide Framed, Unframed, EncRecord, RecordSize;
    RecordParts(z, r, onlyValue, rest);
    FramingExact(r, onlyValue, onlyValue);
  }

  // ---------------------------------------------------------------- handles and indexes

  datatype BlobHandle = BlobHandle(offset: nat, size: nat)

  datatype BlobIndex = BlobIndex(file: nat, handle: BlobHandle)

  function EncHandle(h: BlobHandle): Bytes { Varint(h.offset) + Varint(h.size) }

  function DecHandle(s: Bytes): Option<(BlobHandle, Bytes)> {
    match GetVarint64(s)
    case None => None
    case Some(o) =>
      match GetVarint64(o.1)
      case None => None
      case Some(n) => Some((BlobHandle(o.0, n.0), n.1))
  }

  function EncIndex(i: BlobIndex): Bytes { [BLOB_RECORD] + Varint(i.file) + EncHandle(i.handle) }

  function DecIndex(s: Bytes): Option<(BlobIndex, Bytes)> {
    if s == [] || s[0] != BLOB_RECORD then None
    else
      match GetVarint64(s[1..])
      case None => None
      case Some(f) =>
        match DecHandle(f.1)
        case None => None
        case Some(h) => Some((BlobIndex(f.0, h.0), h.1))
  }

  predicate Wide(i: BlobIndex) { i.file < U64 && i.handle.offset < U64 && i.handle.size < U64 }

  lemma IndexRoundTrip(i: BlobIndex, rest: Bytes)
    requires Wide(i)
    ensures DecIndex(EncIndex(i) + rest) == Some((i, rest))
  {
    hide Varint, GetVarint;
    var h := i.handle;
    Varint64RoundTrip(i.file, EncHandle(h) + rest);
    Varint64RoundTrip(h.offset, Varint(h.size) + rest);
    Varint64RoundTrip(h.size, rest);
    assert (EncIndex(i) + rest)[1..] == Varint(i.file) + (EncHandle(h) + rest);
    assert EncHandle(h) + rest == Varint(h.offset) + (Varint(h.size) + rest);
  }

  /** Reads the record a handle points at. */
  function ReadAt(z: Codec, file: Bytes, h: BlobHandle, onlyValue: bool): Option<Record> {
    if h.offset + h.size <= |file| then DecRecord(z, file[h.offset..h.offset + h.size], onlyValue) else None
  }

  /** A record stays readable through its handle however the file grows. */
  lemma ReadBack(z: Codec, before: Bytes, r: Record, onlyValue: bool, after: Bytes)
    requires Honest(z) && Packable(z, r, onlyValue)
    ensures var b := EncRecord(z, r, onlyValue);
            ReadAt(z, before + b + after, BlobHandle(|before|, |b|), onlyValue) ==
                Some(Record(if onlyValue then [] else r.key, r.value))
  {
    hide EncRecord, DecRecord;
    var b := EncRecord(z, r, onlyValue);
    RecordRoundTrip(z, r, onlyValue, []);
    assert (before + b + after)[|before|..|before| + |b|] == b == b + [];
  }

  lemma ReadGrows(z: Codec, file: Bytes, after: Bytes, h: BlobHandle, onlyValue: bool)
    requires ReadAt(z, file, h, onlyValue).Some?
    ensures ReadAt(z, file + after, h, onlyValue) == ReadAt(z, file, h, onlyValue)
  {
    hide DecRecord;
    assert (file + after)[h.offset..h.offset + h.size] == file[h.offset..h.offset + h.size];
  }
}
