/** How manifest records and the size-collector map are written to bytes and read back. */
module ManifestCodec {
  import opened Optional
  import opened Coding
  import opened ManifestLog

  const NEXT_FILE := 1
  const COLUMN_FAMILY := 10
  const ADDED_LEGACY := 11
  const DELETED := 12
  const ADDED := 13
  const UPDATED := 14
  const UNSORTED := 1

  // ---------------------------------------------------------------- file metas

  function EncMeta(f: BlobFileMeta): Bytes {
    Varint(f.number) + (Varint(f.size) + (Varint(f.entries) + (Varint(f.fileType) + (Varint(f.level)
    + (Prefixed(f.smallest) + Prefixed(f.largest))))))
  }

  function DecMeta(s: Bytes): (r: Option<(BlobFileMeta, Bytes)>)
    ensures r.Some? ==> |r.value.1| < |s|
  {
    match GetVarint64(s) case None => None case Some(number) =>
    match GetVarint64(number.1) case None => None case Some(size) =>
    match GetVarint64(size.1) case None => None case Some(entries) =>
    match GetVarint32(entries.1) case None => None case Some(kind) =>
    match GetVarint32(kind.1) case None => None case Some(level) =>
    match GetPrefixed(level.1) case None => None case Some(smallest) =>
    match GetPrefixed(smallest.1) case None => None case Some(largest) =>
      Some((BlobFileMeta(number.0, size.0, entries.0, kind.0, level.0, smallest.0, largest.0), largest.1))
  }

  predicate MetaWide(f: BlobFileMeta) {
    && f.number < U64 && f.size < U64 && f.entries < U64 && f.fileType < U32 && f.level < U32
    && |f.smallest| < U32 && |f.largest| < U32
  }

  lemma MetaRoundTrip(f: BlobFileMeta, rest: Bytes)
    requires MetaWide(f)
    ensures DecMeta(EncMeta(f) + rest) == Some((f, rest))
  {
    hide Varint, GetVarint32, GetVarint64, Prefixed, GetPrefixed;
    var s6 := Prefixed(f.largest) + rest;
    var s5 := Prefixed(f.smallest) + s6;
    var s4 := Varint(f.level) + s5;
    var s3 := Varint(f.fileType) + s4;
    var s2 := Varint(f.entries) + s3;
    var s1 := Varint(f.size) + s2;
    assert EncMeta(f) + rest == Varint(f.number) + s1;
    Varint64RoundTrip(f.number, s1);
    Varint64RoundTrip(f.size, s2);
    Varint64RoundTrip(f.entries, s3);
    Varint32RoundTrip(f.fileType, s4);
    Varint32RoundTrip(f.level, s5);
    PrefixedRoundTrip(f.smallest, s6);
    PrefixedRoundTrip(f.largest, rest);
  }

  // ---------------------------------------------------------------- records

  const EMPTY := VersionEdit(None, 0, [], [], map[])

  function Tagged(tag: nat, n: nat): Bytes { Varint(tag) + Varint(n) }

  function EncAdded(fs: seq<BlobFileMeta>): Bytes {
    if fs == [] then [] else (Varint(ADDED) + EncMeta(fs[0])) + EncAdded(fs[1..])
  }

  function EncDeleted(ds: seq<(nat, nat)>): Bytes {
    if ds == [] then [] else Tagged(DELETED, ds[0].0) + EncDeleted(ds[1..])
  }

  function EncUpdated(us: seq<(nat, nat)>): Bytes {
    if us == [] then [] else (Varint(UPDATED) + (Varint(us[0].0) + Varint(us[0].1))) + EncUpdated(us[1..])
  }

  /** The updates are written in whatever order the map is walked. */
  function EncEdit(e: VersionEdit, updates: seq<(nat, nat)>): Bytes {
    (if e.next.Some? then Tagged(NEXT_FILE, e.next.value) else [])
    + (Tagged(COLUMN_FAMILY, e.cf) + (EncAdded(e.added) + (EncDeleted(e.deleted) + EncUpdated(updates))))
  }

  /** Reads one tagged field into an edit. */
  function Field(s: Bytes, e: VersionEdit): (r: Option<(VersionEdit, Bytes)>)
    ensures r.Some? ==> |r.value.1| < |s|
  {
    match GetVarint32(s)
    case None => None
    case Some(tag) =>
      if tag.0 == NEXT_FILE then
        match GetVarint64(tag.1) case None => None case Some(n) => Some((e.(next := Some(n.0)), n.1))
      else if tag.0 == COLUMN_FAMILY then
        match GetVarint32(tag.1) case None => None case Some(n) => Some((e.(cf := n.0), n.1))
      else if tag.0 == ADDED_LEGACY then
        match GetVarint64(tag.1) case None => None case Some(n) =>
        match GetVarint64(n.1) case None => None case Some(size) =>
          Some((e.(added := e.added + [BlobFileMeta(n.0, size.0, 0, UNSORTED, 0, [], [])]), size.1))
      else if tag.0 == ADDED then
        match DecMeta(tag.1) case None => None case Some(f) => Some((e.(added := e.added + [f.0]), f.1))
      else if tag.0 == DELETED then
        match GetVarint64(tag.1) case None => None case Some(n) => Some((e.(deleted := e.deleted + [(n.0, 0)]), n.1))
      else if tag.0 == UPDATED then
        match GetVarint64(tag.1) case None => None case Some(n) =>
        match GetVarint64(n.1) case None => None case Some(d) =>
          Some((if n.0 in e.updated then e else e.(updated := e.updated[n.0 := d.0]), d.1))
      else None
  }

  function Fields(s: Bytes, e: VersionEdit): Option<VersionEdit>
    decreases |s|
  {
    if s == [] then Some(e)
    else match Field(s, e) case None => None case Some(p) => Fields(p.1, p.0)
  }

  method DecodeEdit(src: Bytes) returns (r: Option<VersionEdit>)
    ensures r == Fields(src, EMPTY)
  {
    hide Field;
    var s, e := src, EMPTY;
    while s != []
      invariant Fields(src, EMPTY) == Fields(s, e)
      decreases |s|
    {
      var p := Field(s, e);
      if p.None? { return None; }
      s, e := p.value.1, p.value.0;
    }
    return Some(e);
  }

  lemma TaggedField(tag: nat, n: nat, rest: Bytes, e: VersionEdit)
    requires tag in {NEXT_FILE, COLUMN_FAMILY, DELETED} && n < if tag == COLUMN_FAMILY then U32 else U64
    ensures Fields(Tagged(tag, n) + rest, e) ==
            Fields(rest, if tag == NEXT_FILE then e.(next := Some(n))
                         else if tag == COLUMN_FAMILY then e.(cf := n)
                         else e.(deleted := e.deleted + [(n, 0)]))
  {
    hide Varint, GetVarint32, GetVarint64, DecMeta;
    assert Tagged(tag, n) + rest == Varint(tag) + (Varint(n) + rest);
    Varint32RoundTrip(tag, Varint(n) + rest);
    Varint64RoundTrip(n, rest);
    if tag == COLUMN_FAMILY { Varint32RoundTrip(n, rest); }
  }

  lemma AddedField(f: BlobFileMeta, rest: Bytes, e: VersionEdit)
    requires MetaWide(f)
    ensures Fields(Varint(ADDED) + EncMeta(f) + rest, e) == Fields(rest, e.(added := e.added + [f]))
  {
    hide Varint, GetVarint32, GetVarint64, DecMeta, EncMeta;
    assert Varint(ADDED) + EncMeta(f) + rest == Varint(ADDED) + (EncMeta(f) + rest);
    Varint32RoundTrip(ADDED, EncMeta(f) + rest);
    MetaRoundTrip(f, rest);
  }

  lemma UpdatedField(n: nat, d: nat, rest: Bytes, e: VersionEdit)
    requires n < U64 && d < U64 && n !in e.updated
    ensures Fields(Varint(UPDATED) + (Varint(n) + Varint(d)) + rest, e) ==
              Fields(rest, e.(updated := e.updated[n := d]))
  {
    hide Varint, GetVarint32, GetVarint64, DecMeta;
    assert Varint(UPDATED) + (Varint(n) + Varint(d)) + rest == Varint(UPDATED) + (Varint(n) + (Varint(d) + rest));
    Varint32RoundTrip(UPDATED, Varint(n) + (Varint(d) + rest));
    Varint64RoundTrip(n, Varint(d) + rest);
    Varint64RoundTrip(d, rest);
  }

  lemma {:induction false} AddedFields(fs: seq<BlobFileMeta>, rest: Bytes, e: VersionEdit)
    requires forall i :: 0 <= i < |fs| ==> MetaWide(fs[i])
    ensures Fields(EncAdded(fs) + rest, e) == Fields(rest, e.(added := e.added + fs))
    decreases |fs|
  {
    hide Fields, MetaWide, EncMeta, Varint;
    if fs == [] {
      assert EncAdded(fs) + rest == rest && e.added + fs == e.added;
    } else {
      var tail := EncAdded(fs[1..]) + rest;
      assert EncAdded(fs) + rest == Varint(ADDED) + EncMeta(fs[0]) + tail;
      AddedField(fs[0], tail, e);
      var d := e.(added := e.added + [fs[0]]);
      AddedFields(fs[1..], rest, d);
      assert d.added + fs[1..] == e.added + fs;
    }
  }

  /** Obsolete sequences are not written; a decoded deletion carries zero. */
  function Unsequenced(ds: seq<(nat, nat)>): seq<(nat, nat)> { seq(|ds|, i requires 0 <= i < |ds| => (ds[i].0, 0)) }

  lemma {:induction false} DeletedFields(ds: seq<(nat, nat)>, rest: Bytes, e: VersionEdit)
    requires forall i :: 0 <= i < |ds| ==> ds[i].0 < U64
    ensures Fields(EncDeleted(ds) + rest, e) == Fields(rest, e.(deleted := e.deleted + Unsequenced(ds)))
    decreases |ds|
  {
    hide Fields, Tagged;
    if ds == [] {
      assert EncDeleted(ds) + rest == rest && e.deleted + Unsequenced(ds) == e.deleted;
    } else {
      var tail := EncDeleted(ds[1..]) + rest;
      assert EncDeleted(ds) + rest == Tagged(DELETED, ds[0].0) + tail;
      TaggedField(DELETED, ds[0].0, tail, e);
      var d := e.(deleted := e.deleted + [(ds[0].0, 0)]);
      DeletedFields(ds[1..], rest, d);
      assert d.deleted + Unsequenced(ds[1..]) == e.deleted + Unsequenced(ds);
    }
  }

  /** A map walked in some order. */
  predicate Walks(us: seq<(nat, nat)>, m: map<nat, nat>) {
    && (forall i :: 0 <= i < |us| ==> us[i].0 in m && m[us[i].0] == us[i].1)
    && (forall i, j :: 0 <= i < j < |us| ==> us[i].0 != us[j].0)
    && (forall n :: n in m ==> exists i :: 0 <= i < |us| && us[i].0 == n)
  }

  function Put(us: seq<(nat, nat)>, m: map<nat, nat>): map<nat, nat> {
    if us == [] then m else Put(us[1..], m[us[0].0 := us[0].1])
  }

  predicate PairsWide(us: seq<(nat, nat)>) { forall i :: 0 <= i < |us| ==> us[i].0 < U64 && us[i].1 < U64 }

  lemma {:induction false} PutHolds(us: seq<(nat, nat)>, m: map<nat, nat>)
    requires forall i, j :: 0 <= i < j < |us| ==> us[i].0 != us[j].0
    ensures forall n :: n in Put(us, m) <==> n in m || exists i :: 0 <= i < |us| && us[i].0 == n
    ensures forall i :: 0 <= i < |us| ==> us[i].0 in Put(us, m) && Put(us, m)[us[i].0] == us[i].1
    ensures forall n :: n in m && (forall i :: 0 <= i < |us| ==> us[i].0 != n) ==>
              n in Put(us, m) && Put(us, m)[n] == m[n]
    decreases |us|
  {
    if us != [] {
      var t, d := us[1..], m[us[0].0 := us[0].1];
      PutHolds(t, d);
      assert forall i :: 0 < i < |us| ==> us[i] == t[i - 1];
      assert forall i :: 0 <= i < |t| ==> t[i] == us[i + 1];
    }
  }

  lemma WalkPuts(us: seq<(nat, nat)>, m: map<nat, nat>)
    requires Walks(us, m)
    ensures Put(us, map[]) == m
  {
    hide Put;
    PutHolds(us, map[]);
  }

  lemma {:induction false} UpdatedFields(us: seq<(nat, nat)>, e: VersionEdit)
    requires PairsWide(us) && (forall i, j :: 0 <= i < j < |us| ==> us[i].0 != us[j].0)
    requires forall i :: 0 <= i < |us| ==> us[i].0 !in e.updated
    ensures Fields(EncUpdated(us), e) == Some(e.(updated := Put(us, e.updated)))
    decreases |us|
  {
    hide Varint, Field;
    if us != [] {
      UpdatedField(us[0].0, us[0].1, EncUpdated(us[1..]), e);
      UpdatedFields(us[1..], e.(updated := e.updated[us[0].0 := us[0].1]));
    }
  }

  predicate EditWide(e: VersionEdit, updates: seq<(nat, nat)>) {
    && (e.next.Some? ==> e.next.value < U64) && e.cf < U32
    && (forall i :: 0 <= i < |e.added| ==> MetaWide(e.added[i]))
    && (forall i :: 0 <= i < |e.deleted| ==> e.deleted[i].0 < U64)
    && PairsWide(updates) && Walks(updates, e.updated)
  }

  /** Decoding an encoded record uses up all its bytes and gives the record back, but for obsolete sequences. */
  lemma EditRoundTrip(e: VersionEdit, updates: seq<(nat, nat)>)
    requires EditWide(e, updates)
    ensures Fields(EncEdit(e, updates), EMPTY) == Some(e.(deleted := Unsequenced(e.deleted)))
  {
    hide Fields, EncAdded, EncDeleted, EncUpdated, Tagged, MetaWide, Put;
    var s4 := EncUpdated(updates);
    var s3 := EncDeleted(e.deleted) + s4;
    var s2 := EncAdded(e.added) + s3;
    var s1 := Tagged(COLUMN_FAMILY, e.cf) + s2;
    var e1 := EMPTY.(next := e.next);
    if e.next.Some? {
      TaggedField(NEXT_FILE, e.next.value, s1, EMPTY);
    } else {
      assert EncEdit(e, updates) == s1;
    }
    TaggedField(COLUMN_FAMILY, e.cf, s2, e1);
    var e2 := e1.(cf := e.cf);
    AddedFields(e.added, s3, e2);
    assert e2.added + e.added == e.added;
    var e3 := e2.(added := e.added);
    DeletedFields(e.deleted, s4, e3);
    assert e3.deleted + Unsequenced(e.deleted) == Unsequenced(e.deleted);
    UpdatedFields(updates, e3.(deleted := Unsequenced(e.deleted)));
    WalkPuts(updates, e.updated);
  }

  // ---------------------------------------------------------------- the size collector's map

  function EncPairs(us: seq<(nat, nat)>): Bytes {
    if us == [] then [] else (Varint(us[0].0) + Varint(us[0].1)) + EncPairs(us[1..])
  }

  function EncSizes(us: seq<(nat, nat)>): Bytes { Varint(|us| % U32) + EncPairs(us) }

  function DecPairs(s: Bytes, n: nat, m: map<nat, nat>): Option<map<nat, nat>>
    decreases n
  {
    if n == 0 then Some(m)
    else
      match GetVarint64(s) case None => None case Some(f) =>
      match GetVarint64(f.1) case None => None case Some(d) => DecPairs(d.1, n - 1, m[f.0 := d.0])
  }

  method DecodeSizes(src: Bytes) returns (r: Option<map<nat, nat>>)
    ensures r == match GetVarint32(src) case None => None case Some(p) => DecPairs(p.1, p.0, map[])
  {
    hide GetVarint32, GetVarint64;
    var p := GetVarint32(src);
    if p.None? { return None; }
    var s, m: map<nat, nat> := p.value.1, map[];
    for i := 0 to p.value.0
      invariant DecPairs(p.value.1, p.value.0, map[]) == DecPairs(s, p.value.0 - i, m)
    {
      var f := GetVarint64(s);
      if f.None? { return None; }
      var d := GetVarint64(f.value.1);
      if d.None? { return None; }
      s, m := d.value.1, m[f.value.0 := d.value.0];
    }
    return Some(m);
  }

  lemma {:induction false} PairsRoundTrip(us: seq<(nat, nat)>, m: map<nat, nat>)
    requires PairsWide(us)
    ensures DecPairs(EncPairs(us), |us|, m) == Some(Put(us, m))
    decreases |us|
  {
    hide Varint, GetVarint64;
    if us != [] {
      var tail := EncPairs(us[1..]);
      assert EncPairs(us) == Varint(us[0].0) + (Varint(us[0].1) + tail);
      Varint64RoundTrip(us[0].0, Varint(us[0].1) + tail);
      Varint64RoundTrip(us[0].1, tail);
      PairsRoundTrip(us[1..], m[us[0].0 := us[0].1]);
    }
  }

  /** The map of collected sizes survives being written and read. */
  lemma SizesRoundTrip(us: seq<(nat, nat)>, m: map<nat, nat>)
    requires Walks(us, m) && PairsWide(us) && |us| < U32
    ensures match GetVarint32(EncSizes(us)) case None => false case Some(p) => DecPairs(p.1, p.0, map[]) == Some(m)
  {
    hide GetVarint32, Varint, EncPairs, DecPairs;
    Varint32RoundTrip(|us|, EncPairs(us));
    PairsRoundTrip(us, map[]);
    WalkPuts(us, m);
  }
}
