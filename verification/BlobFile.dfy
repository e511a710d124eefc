/** Building a blob file and iterating over it. */
module BlobFile {
  import opened Optional
  import opened Coding
  import opened BlobFormat

  const HEADER_MAGIC: nat := 0x2be0a614
  const FOOTER_MAGIC: nat := 0x2be0a6148e39edc6
  const FILE_HEADER := 8
  const FOOTER := 32

  /** Magic number and version. */
  function FileHeader(): (r: Bytes)
    ensures |r| == FILE_HEADER
  {
    Fixed(HEADER_MAGIC, 4) + Fixed(1, 4)
  }

  function Zeros(n: nat): (r: Bytes)
    ensures |r| == n
  {
    if n == 0 then [] else [0] + Zeros(n - 1)
  }

  /** An empty meta-index handle (two varint zeros), padding up to 20 bytes, magic number, checksum. */
  function FileFooter(z: Codec): (r: Bytes)
    ensures |r| == FOOTER
  {
    var s := Varint(0) + Varint(0) + Zeros(18) + Fixed(FOOTER_MAGIC, 8);
    s + Fixed(z.crc(s) % U32, 4)
  }

  predicate HeaderOk(s: Bytes) {
    |s| == FILE_HEADER && FromFixed(s[..4]) == HEADER_MAGIC && FromFixed(s[4..]) == 1
  }

  /** The size of the meta index, when the footer is sound. */
  function MetaSize(z: Codec, s: Bytes): Option<nat>
    requires |s| == FOOTER
  {
    match DecHandle(s)
    case None => None
    case Some(h) =>
      if FromFixed(s[20..28]) == FOOTER_MAGIC && FromFixed(s[28..]) == z.crc(s[..28]) % U32 then Some(h.0.size)
      else None
  }

  lemma FileHeaderOk()
    ensures HeaderOk(FileHeader())
  {
    SizeField(HEADER_MAGIC);
    SizeField(1);
    var s := FileHeader();
    hide Fixed, FromFixed;
    assert s[..4] == Fixed(HEADER_MAGIC, 4) && s[4..] == Fixed(1, 4);
  }

  /** No other bytes pass for a header. */
  lemma HeaderExact(s: Bytes)
    ensures HeaderOk(s) <==> s == FileHeader()
  {
    FileHeaderOk();
    hide Fixed, FromFixed;
    if HeaderOk(s) {
      FromFixedRoundTrip(s[..4]);
      FromFixedRoundTrip(s[4..]);
      assert s == s[..4] + s[4..];
    }
  }

  /** A footer is sound if and only if its handle decodes, its magic number is right and its checksum fits the rest. */
  lemma FooterExact(z: Codec, s: Bytes)
    requires |s| == FOOTER
    ensures MetaSize(z, s).Some? <==>
            DecHandle(s).Some? && s[20..28] == Fixed(FOOTER_MAGIC, 8) && s[28..] == Fixed(z.crc(s[..28]) % U32, 4)
  {
    hide Fixed, FromFixed, DecHandle;
    FromFixedRoundTrip(s[20..28]);
    FromFixedRoundTrip(s[28..]);
    Fixed64RoundTrip(FOOTER_MAGIC);
    SizeField(z.crc(s[..28]) % U32);
  }

  lemma FileFooterOk(z: Codec)
    ensures MetaSize(z, FileFooter(z)) == Some(0)
  {
    var zero := Varint(0);
    assert zero == [0];
    var s, pad := FileFooter(z), Zeros(18);
    hide Fixed, FromFixed, Zeros, Varint, GetVarint;
    Fixed64RoundTrip(FOOTER_MAGIC);
    var head := zero + zero + pad + Fixed(FOOTER_MAGIC, 8);
    SizeField(z.crc(head) % U32);
    assert s[20..28] == Fixed(FOOTER_MAGIC, 8) && s[..28] == head && s[28..] == Fixed(z.crc(head) % U32, 4);
    assert s == zero + (zero + s[2..]);
    Varint64RoundTrip(0, zero + s[2..]);
    Varint64RoundTrip(0, s[2..]);
  }

  // ---------------------------------------------------------------- files as lists of records

  function Body(z: Codec, rs: seq<Record>, onlyValue: bool): Bytes
    decreases |rs|
  {
    if rs == [] then [] else Body(z, rs[..|rs| - 1], onlyValue) + EncRecord(z, rs[|rs| - 1], onlyValue)
  }

  /** Where record i starts; for i == |rs|, where the records end. */
  function Start(z: Codec, rs: seq<Record>, onlyValue: bool, i: nat): nat
    requires i <= |rs|
  {
    FILE_HEADER + |Body(z, rs[..i], onlyValue)|
  }

  function HandleOf(z: Codec, rs: seq<Record>, onlyValue: bool, i: nat): BlobHandle
    requires i < |rs|
  {
    BlobHandle(Start(z, rs, onlyValue, i), |EncRecord(z, rs[i], onlyValue)|)
  }

  function Finished(z: Codec, rs: seq<Record>, onlyValue: bool): Bytes {
    FileHeader() + Body(z, rs, onlyValue) + FileFooter(z)
  }

  predicate AllPackable(z: Codec, rs: seq<Record>, onlyValue: bool) {
    forall i :: 0 <= i < |rs| ==> Packable(z, rs[i], onlyValue)
  }

  lemma BodyAppend(z: Codec, rs: seq<Record>, r: Record, onlyValue: bool)
    ensures Body(z, rs + [r], onlyValue) == Body(z, rs, onlyValue) + EncRecord(z, r, onlyValue)
  {
    assert (rs + [r])[..|rs|] == rs;
  }

  lemma {:induction false} BodySplit(z: Codec, rs: seq<Record>, onlyValue: bool, i: nat) returns (after: Bytes)
    requires i < |rs|
    ensures Body(z, rs, onlyValue) == Body(z, rs[..i], onlyValue) + EncRecord(z, rs[i], onlyValue) + after
    ensures Start(z, rs, onlyValue, i + 1) == Start(z, rs, onlyValue, i) + |EncRecord(z, rs[i], onlyValue)|
    decreases |rs|
  {
    hide EncRecord;
    var k := |rs| - 1;
    BodyAppend(z, rs[..i], rs[i], onlyValue);
    assert rs[..i + 1] == rs[..i] + [rs[i]];
    if i == k {
      after := [];
      assert rs == rs[..i + 1];
      assert Body(z, rs, onlyValue) == Body(z, rs, onlyValue) + after;
    } else {
      after := BodySplit(z, rs[..k], onlyValue, i);
      assert rs[..k][..i] == rs[..i] && rs[..k][i] == rs[i];
      var head := Body(z, rs[..i], onlyValue);
      var one, last := EncRecord(z, rs[i], onlyValue), EncRecord(z, rs[k], onlyValue);
      assert (head + one + after) + last == head + one + (after + last);
      after := after + last;
    }
  }

  /** Every record is read back through the handle it was added with. */
  lemma ReadFinished(z: Codec, rs: seq<Record>, onlyValue: bool, i: nat)
    requires Honest(z) && AllPackable(z, rs, onlyValue) && i < |rs|
    ensures var h := HandleOf(z, rs, onlyValue, i); var file := Finished(z, rs, onlyValue);
            && h.size >= HEADER_SIZE && h.offset + h.size <= |file| - FOOTER
            && h.offset + h.size == Start(z, rs, onlyValue, i + 1)
            && RecordSize(file[h.offset..h.offset + HEADER_SIZE]) + HEADER_SIZE == h.size
            && ReadAt(z, file, h, onlyValue) == Some(Record(if onlyValue then [] else rs[i].key, rs[i].value))
  {
    hide EncRecord, Body, FileHeader, FileFooter, RecordSize, ReadAt, Packable;
    var after := BodySplit(z, rs, onlyValue, i);
    var b, before, foot := EncRecord(z, rs[i], onlyValue), FileHeader() + Body(z, rs[..i], onlyValue), FileFooter(z);
    var file := Finished(z, rs, onlyValue);
    assert file == before + b + (after + foot);
    ReadBack(z, before, rs[i], onlyValue, after + foot);
    RecordParts(z, rs[i], onlyValue, []);
    HeadSize(b, before, after + foot);
    assert b + [] == b;
  }

  lemma HeadSize(b: Bytes, before: Bytes, after: Bytes)
    requires |b| >= HEADER_SIZE
    ensures RecordSize((before + b + after)[|before|..|before| + HEADER_SIZE]) == RecordSize(b)
  {
    var s := (before + b + after)[|before|..|before| + HEADER_SIZE];
    assert s == b[..HEADER_SIZE];
    assert s[4..8] == b[4..8];
  }

  /** Record starts strictly increase up to the end of the record area. */
  lemma {:induction false} StartsIncrease(z: Codec, rs: seq<Record>, onlyValue: bool, i: nat, j: nat)
    requires AllPackable(z, rs, onlyValue) && i <= j <= |rs|
    ensures Start(z, rs, onlyValue, i) + HEADER_SIZE * (j - i) <= Start(z, rs, onlyValue, j)
    decreases j - i
  {
    if i < j {
      var after := BodySplit(z, rs, onlyValue, i);
      RecordParts(z, rs[i], onlyValue, []);
      StartsIncrease(z, rs, onlyValue, i + 1, j);
    }
  }

  lemma FinishedEnds(z: Codec, rs: seq<Record>, onlyValue: bool)
    ensures |Finished(z, rs, onlyValue)| == Start(z, rs, onlyValue, |rs|) + FOOTER
    ensures Finished(z, rs, onlyValue)[..FILE_HEADER] == FileHeader()
    ensures Finished(z, rs, onlyValue)[Start(z, rs, onlyValue, |rs|)..] == FileFooter(z)
    ensures Start(z, rs, onlyValue, 0) == FILE_HEADER
  {
    hide FileHeader, FileFooter;
    assert rs[..|rs|] == rs && rs[..0] == [];
  }

  /** The end of the record area of a file with a sound header and footer. */
  function EndOfRecords(z: Codec, file: Bytes): Option<nat> {
    if |file| < FILE_HEADER + FOOTER || !HeaderOk(file[..FILE_HEADER]) then None
    else
      match MetaSize(z, file[|file| - FOOTER..])
      case None => None
      case Some(size) => if size <= |file| - FOOTER then Some(|file| - FOOTER - size) else None
  }

  lemma EndFound(z: Codec, rs: seq<Record>, onlyValue: bool)
    ensures EndOfRecords(z, Finished(z, rs, onlyValue)) == Some(Start(z, rs, onlyValue, |rs|))
  {
    hide HeaderOk, MetaSize, FileHeader, FileFooter, Finished;
    FinishedEnds(z, rs, onlyValue);
    FileHeaderOk();
    FileFooterOk(z);
  }
}
