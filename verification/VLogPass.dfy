/** What holds during a GC pass over the value log, and how each step of the pass keeps it. */
module VLogPass {
  import opened Modular
  import opened Coding
  import opened VLogRing
  import opened VLogDevice
  import opened VLogRecords

  datatype Loc = Loc(offset: nat, length: nat)

  /** The index after writing the locations of records stored from disk offset w on, in order. */
  function PutLocs(lsm: map<Key, Loc>, c: nat, w: nat, rs: seq<Rec>): map<Key, Loc>
    requires c > 0
    decreases |rs|
  {
    if rs == [] then lsm
    else
      var n := |rs| - 1;
      PutLocs(lsm, c, w, rs[..n])[rs[n].key := Loc(Wrap(w + Start(rs, n), c), |rs[n].value|)]
  }

  /** The same for absolute positions. */
  ghost function PutPos(pos: map<Key, nat>, w: nat, rs: seq<Rec>): map<Key, nat>
    decreases |rs|
  {
    if rs == [] then pos
    else
      var n := |rs| - 1;
      PutPos(pos, w, rs[..n])[rs[n].key := w + Start(rs, n)]
  }

  ghost function KeysOf(rs: seq<Rec>): set<Key> { set r | r in rs :: r.key }

  /**
   Every indexed key has a position, the index holds it modulo the capacity, and, unless the
   key is among those still to be written back, its record lies there.
   */
  ghost predicate Located(lsm: map<Key, Loc>, flushed: map<Key, Bytes>, pos: map<Key, nat>, base: nat, rs: seq<Rec>,
                          c: nat, except: set<Key>) {
    && c > 0
    && lsm.Keys == flushed.Keys == pos.Keys
    && (forall k :: k in lsm ==> lsm[k] == Loc(Wrap(pos[k], c), |flushed[k]|))
    && (forall k :: k in lsm && k !in except ==> Holds(base, rs, pos[k], Rec(k, flushed[k])))
  }

  lemma MentionsLast(rs: seq<Rec>)
    requires rs != []
    ensures Mentions(rs, rs[|rs| - 1].key)
  {
  }

  lemma LastInFront(rs: seq<Rec>, k: Key)
    requires rs != [] && rs[|rs| - 1].key != k
    ensures var front := rs[..|rs| - 1];
            && (Mentions(front, k) <==> Mentions(rs, k))
            && forall i: nat :: LastFor(rs, i, k) ==>
              LastFor(front, i, k) && front[i] == rs[i] && Start(front, i) == Start(rs, i)
  {
    var front := rs[..|rs| - 1];
    assert Mentions(front, k) ==> Mentions(rs, k);
    forall i: nat | LastFor(rs, i, k)
      ensures LastFor(front, i, k) && front[i] == rs[i] && Start(front, i) == Start(rs, i)
    {
      assert front[..i] == rs[..i];
    }
  }

  lemma {:induction false} PutLocsAt(lsm: map<Key, Loc>, c: nat, w: nat, rs: seq<Rec>, k: Key)
    requires c > 0
    ensures var r := PutLocs(lsm, c, w, rs);
            && (!Mentions(rs, k) ==> (k in r <==> k in lsm) && (k in lsm ==> r[k] == lsm[k]))
            && (forall i: nat :: LastFor(rs, i, k) ==> k in r && r[k] == Loc(Wrap(w + Start(rs, i), c), |rs[i].value|))
    decreases |rs|
  {
    hide Wrap, Start, Mentions;
    if rs != [] {
      var n := |rs| - 1;
      PutLocsAt(lsm, c, w, rs[..n], k);
      assert PutLocs(lsm, c, w, rs) ==
          PutLocs(lsm, c, w, rs[..n])[rs[n].key := Loc(Wrap(w + Start(rs, n), c), |rs[n].value|)];
      if rs[|rs| - 1].key != k { LastInFront(rs, k); } else { MentionsLast(rs); }
    }
  }

  lemma {:induction false} PutPosAt(pos: map<Key, nat>, w: nat, rs: seq<Rec>, k: Key)
    ensures var r := PutPos(pos, w, rs);
            && (!Mentions(rs, k) ==> (k in r <==> k in pos) && (k in pos ==> r[k] == pos[k]))
            && (forall i: nat :: LastFor(rs, i, k) ==> k in r && r[k] == w + Start(rs, i))
    decreases |rs|
  {
    hide Start, Mentions;
    if rs != [] {
      PutPosAt(pos, w, rs[..|rs| - 1], k);
      if rs[|rs| - 1].key != k { LastInFront(rs, k); } else { MentionsLast(rs); }
    }
  }

  lemma {:induction false} LastExists(rs: seq<Rec>, k: Key) returns (i: nat)
    requires Mentions(rs, k)
    ensures LastFor(rs, i, k)
    decreases |rs|
  {
    var n := |rs| - 1;
    if rs[n].key == k {
      i := n;
    } else {
      i := LastExists(rs[..n], k);
    }
  }

  /** Appending records to the log and then their locations to the index. */
  lemma CommitLocates(lsm: map<Key, Loc>, flushed: map<Key, Bytes>, pos: map<Key, nat>, base: nat, rs: seq<Rec>, c: nat,
                      es: seq<Rec>, except: set<Key>)
    requires Located(lsm, flushed, pos, base, rs, c, except)
    requires forall k :: k in except ==> Mentions(es, k)
    ensures var w := base + |EncAll(rs)|;
            Located(PutLocs(lsm, c, Wrap(w, c), es), Overlay(flushed, es), PutPos(pos, w, es), base, rs + es, c, {})
  {
    hide Wrap, EncAll, Start, PutLocs, PutPos, Overlay, Holds, Mentions;
    var w := base + |EncAll(rs)|;
    var lsm', flushed', pos' := PutLocs(lsm, c, Wrap(w, c), es), Overlay(flushed, es), PutPos(pos, w, es);
    forall k: Key
      ensures k in lsm' <==> k in flushed'
      ensures k in lsm' <==> k in pos'
      ensures k in lsm' ==>
                lsm'[k] == Loc(Wrap(pos'[k], c), |flushed'[k]|) && Holds(base, rs + es, pos'[k], Rec(k, flushed'[k]))
    {
      CommitLocatesKey(lsm, flushed, pos, base, rs, c, es, except, k);
    }
    assert lsm'.Keys == flushed'.Keys;
    assert lsm'.Keys == pos'.Keys;
  }

  lemma CommitLocatesKey(lsm: map<Key, Loc>, flushed: map<Key, Bytes>, pos: map<Key, nat>, base: nat, rs: seq<Rec>,
                         c: nat, es: seq<Rec>, except: set<Key>, k: Key)
    requires Located(lsm, flushed, pos, base, rs, c, except)
    requires k in except ==> Mentions(es, k)
    ensures var w := base + |EncAll(rs)|;
            var lsm', flushed', pos' := PutLocs(lsm, c, Wrap(w, c), es), Overlay(flushed, es), PutPos(pos, w, es);
            && (k in lsm' <==> k in flushed') && (k in lsm' <==> k in pos')
            && (k in lsm' ==>
                 lsm'[k] == Loc(Wrap(pos'[k], c), |flushed'[k]|) && Holds(base, rs + es, pos'[k], Rec(k, flushed'[k])))
  {
    hide Wrap, EncAll, Start, PutLocs, PutPos, Overlay, Holds;
    var w := base + |EncAll(rs)|;
    PutLocsAt(lsm, c, Wrap(w, c), es, k);
    PutPosAt(pos, w, es, k);
    OverlayAt(flushed, es, k);
    if Mentions(es, k) {
      var i := LastExists(es, k);
      HoldsNew(base, rs, es, i);
      WrapAdd(w, Start(es, i), c);
      assert es[i] == Rec(k, Overlay(flushed, es)[k]);
    } else if k in lsm {
      HoldsAppend(base, rs, es, pos[k], Rec(k, flushed[k]));
    }
  }

  // ---------------------------------------------------------------- the state of a pass

  /**
   `base` is the position up to which the pass has parsed, `recs` the records from there to
   the write front, `rest` the unparsed bytes in the read buffer, `wbuf` the records kept so
   far but not yet written back; `keys` and `locs` are what their write-back will index.
   */
  datatype Pass = Pass(
    disk: Bytes, writeFront: nat, gcFront: nat, lsm: map<Key, Loc>,
    rest: Bytes, wbuf: Bytes, keys: seq<Key>, locs: seq<Loc>, gcBytes: nat,
    base: nat, recs: seq<Rec>, flushed: map<Key, Bytes>, pos: map<Key, nat>, kept: seq<Rec>)

  ghost predicate Buffered(wbuf: Bytes, keys: seq<Key>, locs: seq<Loc>, kept: seq<Rec>) {
    && wbuf == EncAll(kept)
    && |keys| == |locs| == |kept|
    && forall i :: 0 <= i < |kept| ==> keys[i] == kept[i].key && locs[i] == Loc(Start(kept, i), |kept[i].value|)
  }

  ghost predicate AllSized(rs: seq<Rec>) { forall i :: 0 <= i < |rs| ==> Sized(rs[i]) }

  ghost predicate Current(flushed: map<Key, Bytes>, kept: seq<Rec>) {
    forall i :: 0 <= i < |kept| ==> kept[i].key in flushed && flushed[kept[i].key] == kept[i].value
  }

  /** No key is kept twice. */
  ghost predicate Apart(kept: seq<Rec>) { forall i, j :: 0 <= i < j < |kept| ==> kept[i].key != kept[j].key }

  /** The read buffer and the fronts agree with the log from `base` on. */
  ghost predicate Reads(s: Pass, c: nat) {
    var log := EncAll(s.recs);
    && OnDisk(s.disk, s.base, log) && |s.disk| == c
    && s.writeFront == Wrap(s.base + |log|, c)
    && |s.rest| <= |log| && s.rest == log[..|s.rest|]
    && s.gcFront == Wrap(s.base + |s.rest|, c)
  }

  /**
   * The old copy of a key waiting to be written back lies behind `base`, by no more than what has been parsed
   * meanwhile.
   */
  ghost predicate Waiting(s: Pass) {
    forall k :: k in KeysOf(s.kept) ==> k in s.pos && s.pos[k] < s.base <= s.pos[k] + |s.wbuf| + s.gcBytes
  }

  /**
   * `total` is how full the log was when the pass began: every byte parsed is either reclaimed, waiting or written
   * back.
   */
  ghost predicate PassInv(s: Pass, c: nat, gcSize: nat, total: nat) {
    && Reads(s, c)
    && |EncAll(s.recs)| + |s.wbuf| + s.gcBytes == total && total + gcSize < c
    && |s.wbuf| <= gcSize
    && AllSized(s.recs) && AllSized(s.kept)
    && Buffered(s.wbuf, s.keys, s.locs, s.kept)
    && Current(s.flushed, s.kept) && Apart(s.kept)
    && Located(s.lsm, s.flushed, s.pos, s.base, s.recs, c, KeysOf(s.kept))
    && Waiting(s)
  }

  lemma PassFacts(s: Pass, c: nat, gcSize: nat, total: nat)
    requires PassInv(s, c, gcSize, total)
    ensures 0 < c && |s.disk| == c && s.writeFront < c && s.gcFront < c
    ensures |s.wbuf| <= gcSize < c && s.wbuf == EncAll(s.kept) && Buffered(s.wbuf, s.keys, s.locs, s.kept)
    ensures |s.rest| <= |EncAll(s.recs)| && s.rest == EncAll(s.recs)[..|s.rest|] && AllSized(s.recs)
    ensures |EncAll(s.recs)| + |s.wbuf| + s.gcBytes == total && total + gcSize < c
    ensures s.gcFront == Wrap(s.base + |s.rest|, c) && Apart(s.kept)
  {
    hide Wrap, EncAll, Located, Waiting, AllSized;
  }

  // ---------------------------------------------------------------- parsing one record

  /** What the scan reads at the front of its buffer is the first record. */
  lemma ParseHead(rest: Bytes, recs: seq<Rec>)
    requires AllSized(recs) && |rest| <= |EncAll(recs)| && rest == EncAll(recs)[..|rest|] && |rest| >= HEAD
    ensures recs != []
    ensures rest[..KEY_SIZE] == recs[0].key
    ensures FromFixed(rest[KEY_SIZE..HEAD]) == |recs[0].value|
    ensures Size(recs[0]) <= |rest| ==>
              && rest[..Size(recs[0])] == Enc(recs[0])
              && rest[Size(recs[0])..] == EncAll(recs[1..])[..|rest| - Size(recs[0])]
  {
    assert recs != [] && EncAll(recs) == Enc(recs[0]) + EncAll(recs[1..]) && Sized(recs[0]);
    EncParts(recs[0], EncAll(recs[1..]));
    hide *;
    PrefixParts(Enc(recs[0]), EncAll(recs[1..]), rest, KEY_SIZE, HEAD);
  }

  /** Slices of a prefix of a + b. */
  lemma PrefixParts(a: Bytes, b: Bytes, rest: Bytes, lo: nat, hi: nat)
    requires |rest| <= |a + b| && rest == (a + b)[..|rest|] && lo <= hi <= |rest|
    ensures rest[..lo] == (a + b)[..lo] && rest[lo..hi] == (a + b)[lo..hi]
    ensures |a| <= |rest| ==> rest[..|a|] == a && rest[|a|..] == b[..|rest| - |a|]
  {
  }

  /** The validity test compares remainders, yet decides exactly whether the record is the one the index means. */
  lemma LiveTest(s: Pass, c: nat, gcSize: nat, total: nat)
    requires PassInv(s, c, gcSize, total) && s.recs != []
    ensures var k := s.recs[0].key;
            (k in s.lsm && s.lsm[k].offset == Wrap(s.base, c)) <==>
            (k !in KeysOf(s.kept) && k in s.pos && s.pos[k] == s.base)
    ensures s.pos.Keys == s.flushed.Keys
    ensures forall k :: k in s.pos && k !in KeysOf(s.kept) && s.pos[k] == s.base ==> s.recs[0] == Rec(k, s.flushed[k])
  {
    hide Wrap;
    var k := s.recs[0].key;
    if k in s.lsm && s.lsm[k].offset == Wrap(s.base, c) {
      if k in KeysOf(s.kept) {
        WrapSame(s.pos[k], s.base, c);
      } else {
        HoldsBounds(s.base, s.recs, s.pos[k], Rec(k, s.flushed[k]));
        WrapSame(s.pos[k], s.base, c);
      }
    }
    forall x | x in s.pos && x !in KeysOf(s.kept) && s.pos[x] == s.base ensures s.recs[0] == Rec(x, s.flushed[x]) {
      HoldsFirst(s.base, s.recs, Rec(x, s.flushed[x]));
    }
  }

  /** The pass after the first record was found dead: its bytes are reclaimed. */
  function Reclaimed(s: Pass): Pass
    requires s.recs != [] && Size(s.recs[0]) <= |s.rest|
  {
    var n := Size(s.recs[0]);
    s.(rest := s.rest[n..], gcBytes := s.gcBytes + n, base := s.base + n, recs := s.recs[1..])
  }

  /** The pass after the first record was found live: it is copied to the write buffer. */
  function Kept(s: Pass): Pass
    requires s.recs != [] && Size(s.recs[0]) <= |s.rest|
  {
    var r := s.recs[0];
    var n := Size(r);
    s.(rest := s.rest[n..], base := s.base + n, recs := s.recs[1..],
       wbuf := s.wbuf + Enc(r), keys := s.keys + [r.key],
       locs := s.locs + [Loc(|s.wbuf|, |r.value|)], kept := s.kept + [r])
  }

  lemma ParsedReads(s: Pass, s': Pass, c: nat)
    requires Reads(s, c) && AllSized(s.recs) && s.recs != [] && HEAD <= |s.rest| && Size(s.recs[0]) <= |s.rest|
    requires s'.disk == s.disk && s'.writeFront == s.writeFront && s'.gcFront == s.gcFront
    requires s'.rest == s.rest[Size(s.recs[0])..] && s'.base == s.base + Size(s.recs[0]) && s'.recs == s.recs[1..]
    ensures Reads(s', c)
    ensures |EncAll(s'.recs)| == |EncAll(s.recs)| - Size(s.recs[0])
  {
    hide Wrap, Sized, Enc;
    var n := Size(s.recs[0]);
    ParseHead(s.rest, s.recs);
    DropFront(s.disk, s.base, EncAll(s.recs), n);
    assert EncAll(s.recs)[n..] == EncAll(s.recs[1..]);
  }

  /** Parsing past the first record keeps every other indexed record in place. */
  lemma ParsedLocated(s: Pass, c: nat, gcSize: nat, total: nat, except: set<Key>)
    requires PassInv(s, c, gcSize, total) && s.recs != []
    requires KeysOf(s.kept) <= except
    requires forall k :: k in s.pos && k !in except ==> s.pos[k] != s.base
    ensures Located(s.lsm, s.flushed, s.pos, s.base + Size(s.recs[0]), s.recs[1..], c, except)
  {
    hide Wrap;
    forall k | k in s.lsm && k !in except
      ensures Holds(s.base + Size(s.recs[0]), s.recs[1..], s.pos[k], Rec(k, s.flushed[k]))
    {
      HoldsDrop(s.base, s.recs, s.pos[k], Rec(k, s.flushed[k]));
    }
  }

  lemma ReclaimKeeps(s: Pass, c: nat, gcSize: nat, total: nat)
    requires PassInv(s, c, gcSize, total) && s.recs != [] && HEAD <= |s.rest| && Size(s.recs[0]) <= |s.rest|
    requires var k := s.recs[0].key; !(k in s.lsm && s.lsm[k].offset == Wrap(s.base, c))
    ensures PassInv(Reclaimed(s), c, gcSize, total)
  {
    hide Wrap, EncAll, Sized, Enc, Located, Buffered, Reads, Holds;
    LiveTest(s, c, gcSize, total);
    ParsedReads(s, Reclaimed(s), c);
    ParsedLocated(s, c, gcSize, total, KeysOf(s.kept));
  }

  lemma KeptBuffered(wbuf: Bytes, keys: seq<Key>, locs: seq<Loc>, kept: seq<Rec>, r: Rec)
    requires Buffered(wbuf, keys, locs, kept)
    ensures Buffered(wbuf + Enc(r), keys + [r.key], locs + [Loc(|wbuf|, |r.value|)], kept + [r])
    ensures KeysOf(kept + [r]) == KeysOf(kept) + {r.key}
  {
    EncAllAppend(kept, [r]);
    assert EncAll([r]) == Enc(r) by { assert [r][1..] == []; }
    var kept' := kept + [r];
    assert kept'[..|kept|] == kept;
    forall i | 0 <= i < |kept| ensures Start(kept', i) == Start(kept, i) {
      assert kept'[..i] == kept[..i];
    }
    forall k | k in KeysOf(kept) + {r.key} ensures k in KeysOf(kept') {
      if k == r.key {
        assert kept'[|kept|] == r;
      } else {
        var x :| x in kept && x.key == k;
        assert x in kept';
      }
    }
  }

  lemma KeptApart(kept: seq<Rec>, r: Rec)
    requires Apart(kept) && r.key !in KeysOf(kept)
    ensures Apart(kept + [r])
    ensures AllSized(kept) && Sized(r) ==> AllSized(kept + [r])
    ensures forall m :: Current(m, kept) && r.key in m && m[r.key] == r.value ==> Current(m, kept + [r])
  {
    hide Sized;
    assert forall i :: 0 <= i < |kept| ==> kept[i] in kept && kept[i].key in KeysOf(kept);
  }

  lemma HeadSized(rs: seq<Rec>)
    requires AllSized(rs) && rs != []
    ensures Sized(rs[0]) && AllSized(rs[1..])
  {
    hide Sized;
  }

  lemma KeepKeeps(s: Pass, c: nat, gcSize: nat, total: nat)
    requires PassInv(s, c, gcSize, total) && s.recs != [] && HEAD <= |s.rest| && Size(s.recs[0]) <= |s.rest|
    requires |s.wbuf| + Size(s.recs[0]) <= gcSize
    requires var k := s.recs[0].key; k in s.lsm && s.lsm[k].offset == Wrap(s.base, c)
    ensures PassInv(Kept(s), c, gcSize, total)
  {
    hide Wrap, EncAll, Sized, Enc, Located, Buffered, Reads, Holds, Apart, Current, AllSized;
    var r := s.recs[0];
    HeadSized(s.recs);
    LiveTest(s, c, gcSize, total);
    KeptApart(s.kept, r);
    KeptBuffered(s.wbuf, s.keys, s.locs, s.kept, r);
    ParsedReads(s, Kept(s), c);
    ParsedLocated(s, c, gcSize, total, KeysOf(s.kept) + {r.key});
  }

  // ---------------------------------------------------------------- writing back

  /** The pass after its write buffer went to the log and the index. */
  ghost function WrittenBack(s: Pass, c: nat): Pass
    requires c > 0 && |s.disk| == c
  {
    var w := s.base + |EncAll(s.recs)|;
    s.(disk := Written(s.disk, s.writeFront, s.wbuf), writeFront := Wrap(s.writeFront + |s.wbuf|, c),
       lsm := PutLocs(s.lsm, c, s.writeFront, s.kept), pos := PutPos(s.pos, w, s.kept),
       wbuf := [], keys := [], locs := [], recs := s.recs + s.kept, kept := [])
  }

  /** A GC write-back is never refused. */
  lemma WriteBackGranted(s: Pass, c: nat, gcSize: nat, total: nat)
    requires PassInv(s, c, gcSize, total) && s.wbuf != []
    ensures Grants(s.writeFront, s.gcFront, c, 0, |s.wbuf|)
  {
    hide Wrap, Located, Buffered, Current, Apart, Waiting, AllSized, Grants, EncAll, OnDisk;
    GrantsExact(s.base + |EncAll(s.recs)|, s.base + |s.rest|, c, 0, |s.wbuf|);
  }

  lemma WriteBackReads(s: Pass, c: nat, gcSize: nat, total: nat)
    requires PassInv(s, c, gcSize, total)
    ensures Reads(WrittenBack(s, c), c)
    ensures |EncAll(s.recs + s.kept)| == |EncAll(s.recs)| + |s.wbuf|
  {
    hide Wrap, EncAll, Sized, Enc, Located, Holds, PutLocs, PutPos, Written, AllSized, Waiting, Current;
    EncAllAppend(s.recs, s.kept);
    WriteExtends(s.disk, s.base, EncAll(s.recs), s.wbuf);
    WrapAdd(s.base + |EncAll(s.recs)|, |s.wbuf|, c);
    var log := EncAll(s.recs + s.kept);
    assert log[..|s.rest|] == EncAll(s.recs)[..|s.rest|];
  }

  lemma WriteBackKeeps(s: Pass, c: nat, gcSize: nat, total: nat)
    requires PassInv(s, c, gcSize, total)
    ensures PassInv(WrittenBack(s, c), c, gcSize, total)
    ensures WrittenBack(s, c).flushed == s.flushed
  {
    hide Wrap, Sized, Enc, Located, Holds, PutLocs, PutPos, Written, OnDisk;
    WriteBackReads(s, c, gcSize, total);
    forall k | k in KeysOf(s.kept) ensures Mentions(s.kept, k) {
      var r :| r in s.kept && r.key == k;
      var i :| 0 <= i < |s.kept| && s.kept[i] == r;
    }
    CommitLocates(s.lsm, s.flushed, s.pos, s.base, s.recs, c, s.kept, KeysOf(s.kept));
    OverlaySame(s.flushed, s.kept);
    assert KeysOf([]) == {};
  }

  /** Writing back the records kept so far does not touch the record just found live. */
  lemma WriteBackSparesLive(s: Pass, c: nat, gcSize: nat, total: nat)
    requires PassInv(s, c, gcSize, total) && s.recs != []
    requires var k := s.recs[0].key; k in s.lsm && s.lsm[k].offset == Wrap(s.base, c)
    ensures var s' := WrittenBack(s, c);
            && s'.recs != [] && s'.recs[0] == s.recs[0]
            && var k := s.recs[0].key; k in s'.lsm && s'.lsm[k].offset == Wrap(s.base, c)
  {
    hide Wrap, PutLocs, PutPos, Written, Located, Sized, Enc, EncAll, Start, Holds;
    var k := s.recs[0].key;
    LiveTest(s, c, gcSize, total);
    assert forall i :: 0 <= i < |s.kept| ==> s.kept[i].key in KeysOf(s.kept);
    PutLocsAt(s.lsm, c, s.writeFront, s.kept, k);
  }

  // ---------------------------------------------------------------- reading the next chunk

  function ChunkRead(s: Pass, c: nat, n: nat): Pass
    requires c > 0 && |s.disk| == c
  {
    s.(rest := s.rest + Reading(s.disk, s.gcFront, n), gcFront := Wrap(s.gcFront + n, c))
  }

  lemma ChunkKeeps(s: Pass, c: nat, gcSize: nat, total: nat, n: nat)
    requires PassInv(s, c, gcSize, total) && |s.rest| + n <= |EncAll(s.recs)|
    ensures PassInv(ChunkRead(s, c, n), c, gcSize, total)
  {
    hide Wrap, EncAll, Sized, Located, Buffered, Current, AllSized, Reading, OnDisk;
    var log := EncAll(s.recs);
    ReadBack(s.disk, s.base, log, |s.rest|, n);
    assert s.rest + log[|s.rest|..|s.rest| + n] == log[..|s.rest| + n];
    WrapAdd(s.base + |s.rest|, n, c);
  }

  /** How far the write front is ahead of the GC front, from the fronts alone. */
  lemma UnreadBytes(s: Pass, c: nat, gcSize: nat, total: nat)
    requires PassInv(s, c, gcSize, total)
    ensures Wrap(s.writeFront + c - s.gcFront, c) == |EncAll(s.recs)| - |s.rest|
  {
    hide Wrap;
    WrapDistance(s.base + |EncAll(s.recs)|, s.base + |s.rest|, c);
  }

  // ---------------------------------------------------------------- flushing the write buffer

  /** No pass is under way. */
  predicate Idle(s: Pass) {
    s.rest == [] && s.wbuf == [] && s.keys == [] && s.locs == [] && s.gcBytes == 0 && s.kept == []
  }

  /** The log after the records es went to it and to the index. */
  ghost function Flushed(s: Pass, c: nat, es: seq<Rec>): Pass
    requires c > 0 && |s.disk| == c
  {
    s.(disk := Written(s.disk, s.writeFront, EncAll(es)), writeFront := Wrap(s.writeFront + |EncAll(es)|, c),
       lsm := PutLocs(s.lsm, c, s.writeFront, es), pos := PutPos(s.pos, s.base + |EncAll(s.recs)|, es),
       recs := s.recs + es, flushed := Overlay(s.flushed, es))
  }

  lemma FlushReads(s: Pass, c: nat, es: seq<Rec>)
    requires Reads(s, c) && s.rest == [] && |EncAll(s.recs)| + |EncAll(es)| <= c
    ensures Reads(Flushed(s, c, es), c)
    ensures |EncAll(s.recs + es)| == |EncAll(s.recs)| + |EncAll(es)|
  {
    hide Wrap, Written, Enc;
    EncAllAppend(s.recs, es);
    WriteExtends(s.disk, s.base, EncAll(s.recs), EncAll(es));
    WrapAdd(s.base + |EncAll(s.recs)|, |EncAll(es)|, c);
  }

  lemma FlushKeeps(s: Pass, c: nat, gcSize: nat, es: seq<Rec>)
    requires PassInv(s, c, gcSize, |EncAll(s.recs)|) && Idle(s) && AllSized(es)
    requires |EncAll(s.recs)| + |EncAll(es)| + gcSize < c
    ensures PassInv(Flushed(s, c, es), c, gcSize, |EncAll(s.recs + es)|)
    ensures Idle(Flushed(s, c, es)) && |EncAll(s.recs + es)| == |EncAll(s.recs)| + |EncAll(es)|
  {
    hide Wrap, Sized, Enc, Located, Holds, PutLocs, PutPos, Written, OnDisk, Overlay;
    FlushReads(s, c, es);
    assert KeysOf([]) == {};
    CommitLocates(s.lsm, s.flushed, s.pos, s.base, s.recs, c, es, {});
  }

  // ---------------------------------------------------------------- the end of a pass

  /**
   * A pass that has parsed all it read and written back all it kept leaves the log fuller by nothing and emptier by
   * what it reclaimed.
   */
  lemma PassEnds(s: Pass, c: nat, gcSize: nat, total: nat)
    requires PassInv(s, c, gcSize, total) && s.rest == [] && s.wbuf == []
    ensures Idle(s.(gcBytes := 0)) && PassInv(s.(gcBytes := 0), c, gcSize, |EncAll(s.recs)|)
    ensures |EncAll(s.recs)| + s.gcBytes == total
  {
    hide Wrap, Sized, Located, Holds, OnDisk;
    assert s.kept != [] ==> |EncAll(s.kept)| > 0;
    assert KeysOf([]) == {};
  }

  // ---------------------------------------------------------------- the write buffer

  /** The buffer holds the pending records, each at its offset. */
  ghost predicate PoolBytes(pool: Bytes, offsets: seq<nat>, rs: seq<Rec>) {
    && pool == EncAll(rs) && AllSized(rs)
    && |offsets| == |rs| && forall i :: 0 <= i < |rs| ==> offsets[i] == Start(rs, i)
  }

  /** Each buffered key leads to its last record. */
  ghost predicate PoolKeys(keys: map<Key, nat>, rs: seq<Rec>) {
    && (forall i :: 0 <= i < |rs| ==> rs[i].key in keys)
    && (forall k :: k in keys ==> exists i: nat :: LastFor(rs, i, k) && Start(rs, i) == keys[k])
  }

  lemma BufferedRecord(rs: seq<Rec>, i: nat)
    requires AllSized(rs) && i < |rs|
    ensures var pool, o := EncAll(rs), Start(rs, i);
            && o + Size(rs[i]) <= |pool|
            && pool[o..o + KEY_SIZE] == rs[i].key
            && FromFixed(pool[o + KEY_SIZE..o + HEAD]) == |rs[i].value|
            && pool[o + HEAD..o + Size(rs[i])] == rs[i].value
  {
    hide EncAll, Enc, FromFixed;
    var pool, o := EncAll(rs), Start(rs, i);
    RecordAt(rs, i);
    EncParts(rs[i], []);
    var b := Enc(rs[i]) + [];
    assert b == pool[o..o + Size(rs[i])];
    SubSlice(pool, o, Size(rs[i]), 0, KEY_SIZE);
    SubSlice(pool, o, Size(rs[i]), KEY_SIZE, HEAD);
    SubSlice(pool, o, Size(rs[i]), HEAD, Size(rs[i]));
  }

  lemma SubSlice(s: Bytes, o: nat, n: nat, a: nat, b: nat)
    requires o + n <= |s| && a <= b <= n
    ensures s[o + a..o + b] == s[o..o + n][a..b]
  {
    var x, y := s[o + a..o + b], s[o..o + n][a..b];
    assert |x| == |y| && forall i :: 0 <= i < b - a ==> x[i] == s[o + a + i] == y[i];
  }

  lemma BytesAppend(pool: Bytes, offsets: seq<nat>, rs: seq<Rec>, r: Rec)
    requires PoolBytes(pool, offsets, rs) && Sized(r)
    ensures PoolBytes(pool + Enc(r), offsets + [|pool|], rs + [r])
  {
    hide Sized, Enc;
    var rs' := rs + [r];
    EncAllAppend(rs, [r]);
    assert EncAll([r]) == Enc(r) by { assert [r][1..] == []; }
    assert rs'[..|rs|] == rs;
    forall i: nat | i < |rs| ensures Start(rs', i) == Start(rs, i) {
      assert rs'[..i] == rs[..i];
    }
  }

  /** Pointing the key of an appended record at it; an older offset of that key may have been removed before. */
  lemma KeysAppend(keys: map<Key, nat>, rs: seq<Rec>, r: Rec)
    requires forall i :: 0 <= i < |rs| ==> rs[i].key in keys || rs[i].key == r.key
    requires forall k :: k in keys && k != r.key ==> exists i: nat :: LastFor(rs, i, k) && Start(rs, i) == keys[k]
    ensures PoolKeys(keys[r.key := |EncAll(rs)|], rs + [r])
  {
    hide EncAll;
    var rs', keys' := rs + [r], keys[r.key := |EncAll(rs)|];
    assert rs'[..|rs|] == rs;
    assert LastFor(rs', |rs|, r.key) && Start(rs', |rs|) == |EncAll(rs)|;
    forall k | k in keys' && k != r.key ensures exists i: nat :: LastFor(rs', i, k) && Start(rs', i) == keys'[k] {
      var i: nat :| LastFor(rs, i, k) && Start(rs, i) == keys[k];
      assert rs'[..i] == rs[..i];
      assert LastFor(rs', i, k);
    }
  }

  /** A record the index points at reads back from the disk. */
  lemma IndexedRecord(s: Pass, c: nat, gcSize: nat, k: Key)
    requires PassInv(s, c, gcSize, |EncAll(s.recs)|) && Idle(s) && k in s.lsm
    ensures k in s.flushed && s.lsm[k].length == |s.flushed[k]| && s.lsm[k].offset < c && HEAD + s.lsm[k].length <= c
    ensures |s.disk| == c && Reading(s.disk, s.lsm[k].offset, HEAD + s.lsm[k].length) == Enc(Rec(k, s.flushed[k]))
  {
    hide Wrap, Sized, Enc, Reading, Holds;
    assert KeysOf([]) == {};
    var r := Rec(k, s.flushed[k]);
    HoldsBounds(s.base, s.recs, s.pos[k], r);
    ReadBack(s.disk, s.base, EncAll(s.recs), s.pos[k] - s.base, Size(r));
    assert s.base + (s.pos[k] - s.base) == s.pos[k];
  }
}
