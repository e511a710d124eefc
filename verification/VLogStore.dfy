/**
 The store in value-log mode: a write buffer, an index of locations and a circular log with
 a write front and a GC front. It behaves as a map.
 */
module VLogStore {
  import opened Optional
  import opened Modular
  import opened Coding
  import opened VLogRing
  import opened VLogDevice
  import opened VLogRecords
  import opened VLogPass
  import opened VLogOutcome

  class Store {
    const capacity: nat
    const gcSize: nat
    const poolSize: nat
    const flushEveryWrite: bool

    var disk: Bytes
    var writeFront: nat
    var gcFront: nat
    var lsm: map<Key, Loc>

    var pool: Bytes
    var offsets: seq<nat>
    var keysInPool: map<Key, nat>

    var gcRest: Bytes
    var gcWrite: Bytes
    var gcKeys: seq<Key>
    var gcLocs: seq<Loc>
    var gcBytes: nat

    /** The log as a pass sees it, with the records it stands for. */
    ghost var view: Pass
    /** The records in the write buffer. */
    ghost var pending: seq<Rec>

    ghost predicate Mirrors()
      reads this
    {
      MirrorsButFront() && view.writeFront == writeFront
    }

    ghost predicate MirrorsButFront()
      reads this
    {
      && view.disk == disk && view.gcFront == gcFront && view.lsm == lsm
      && view.rest == gcRest && view.wbuf == gcWrite && view.keys == gcKeys && view.locs == gcLocs
      && view.gcBytes == gcBytes
    }

    /** A pass is under way over a log that held `total` bytes when it began. */
    ghost predicate InPass(total: nat)
      reads this
    {
      0 < gcSize && Mirrors() && PassInv(view, capacity, gcSize, total)
    }

    ghost predicate LogValid()
      reads this
    {
      poolSize <= gcSize && Idle(view) && InPass(|EncAll(view.recs)|)
    }

    ghost predicate Valid()
      reads this
    {
      && LogValid() && |pool| <= poolSize
      && PoolBytes(pool, offsets, pending) && PoolKeys(keysInPool, pending)
    }

    /** Bytes between the two fronts. */
    ghost function Occupied(): nat
      reads this
    {
      |EncAll(view.recs)|
    }

    /** The map the store stands for: what the log holds, overlaid with the buffered records. */
    ghost function Model(): map<Key, Bytes>
      reads this
    {
      Overlay(view.flushed, pending)
    }

    constructor (capacity: nat, gcSize: nat, poolSize: nat, flushEveryWrite: bool)
      requires 0 < gcSize < capacity && poolSize <= gcSize
      ensures Valid() && Model() == map[]
      ensures this.capacity == capacity && this.gcSize == gcSize && this.poolSize == poolSize
    {
      this.capacity, this.gcSize, this.poolSize, this.flushEveryWrite := capacity, gcSize, poolSize, flushEveryWrite;
      disk := seq(capacity, _ => 0);
      writeFront, gcFront, lsm := 0, 0, map[];
      pool, offsets, keysInPool := [], [], map[];
      gcRest, gcWrite, gcKeys, gcLocs, gcBytes := [], [], [], [], 0;
      view := Pass(seq(capacity, _ => 0), 0, 0, map[], [], [], [], [], 0, 0, [], map[], map[], []);
      pending := [];
      new;
      WrapSmall(0, capacity);
    }

    /** The main log grants a write exactly when it leaves the reserve free; GC may use the reserve. */
    method Reserve(diff: nat, isGC: bool) returns (r: Option<nat>)
      requires gcSize < capacity && diff < capacity
      modifies this`writeFront
      ensures var granted := diff > 0 && Grants(old(writeFront), gcFront, capacity, if isGC then 0 else gcSize, diff);
              r == if granted then Some(old(writeFront)) else None
      ensures writeFront == if r.Some? then Wrap(old(writeFront) + diff, capacity) else old(writeFront)
    {
      r := None;
      if diff > 0 {
        var inc := Wrap(writeFront + diff, capacity);
        var front := Wrap(gcFront - (if isGC then 0 else gcSize) + capacity, capacity);
        if (writeFront >= front && (inc > writeFront || inc < front))
           || (writeFront < front && inc > writeFront && inc < front) {
          r := Some(writeFront);
          writeFront := inc;
        }
      }
    }

    /** Writes the kept records to the write front and their new locations to the index. */
    method WriteBack(ghost total: nat)
      requires InPass(total) && gcWrite != []
      modifies this`disk, this`writeFront, this`lsm, this`gcWrite, this`gcKeys, this`gcLocs, this`view
      ensures InPass(total)
      ensures |old(view).disk| == capacity > 0 && view == WrittenBack(old(view), capacity)
    {
      hide PassInv, EncAll, Written, PutLocs, PutPos, Grants, Buffered, Wrap;
      PassFacts(view, capacity, gcSize, total);
      WriteBackGranted(view, capacity, gcSize, total);
      WriteBackKeeps(view, capacity, gcSize, total);
      var off := Reserve(|gcWrite|, true);
      disk := WriteDisk(disk, off.value, gcWrite);
      lsm := BatchLocs(lsm, off.value, gcKeys, gcLocs, view.kept, gcWrite);
      gcWrite, gcKeys, gcLocs := [], [], [];
      view := WrittenBack(view, capacity);
    }

    /** The batch of index writes after a write-back: offsets in the buffer become offsets in the log. */
    method BatchLocs(m: map<Key, Loc>, off: nat, keys: seq<Key>, locs: seq<Loc>, ghost rs: seq<Rec>,
                     ghost buf: Bytes) returns (r: map<Key, Loc>)
      requires capacity > 0 && Buffered(buf, keys, locs, rs)
      ensures r == PutLocs(m, capacity, off, rs)
    {
      r := m;
      assert rs[..0] == [];
      for i := 0 to |keys|
        invariant r == PutLocs(m, capacity, off, rs[..i])
      {
        r := r[keys[i] := Loc(Wrap(locs[i].offset + off, capacity), locs[i].length)];
        assert rs[..i + 1][..i] == rs[..i];
      }
      assert rs[..|rs|] == rs;
    }

    /** Parses the record at the front of the read buffer, if it is there in full. */
    method ScanRecord(ghost total: nat) returns (parsed: bool)
      requires InPass(total) && |gcRest| <= gcSize
      modifies this`disk, this`writeFront, this`lsm, this`gcRest, this`gcWrite, this`gcKeys, this`gcLocs, this`gcBytes,
               this`view
      ensures InPass(total) && view.flushed == old(view.flushed)
      ensures gcFront == old(gcFront)
      ensures parsed <==> Whole(old(TapeOf(view)))
      ensures if parsed then TapeOf(view) == ParsedOne(old(TapeOf(view)), gcSize) else view == old(view)
    {
      hide PassInv, EncAll, Written, PutLocs, PutPos, Buffered, Wrap, AllSized, TapeOf;
      PassFacts(view, capacity, gcSize, total);
      TapeFits(view, capacity, gcSize, total);
      if HEAD > |gcRest| {
        return false;
      }
      ParseHead(gcRest, view.recs);
      var len := FromFixed(gcRest[KEY_SIZE..HEAD]);
      if HEAD + len > |gcRest| {
        return false;
      }
      var n := HEAD + len;
      var key: Key := gcRest[..KEY_SIZE];
      // the record lies gcRest bytes before the GC front
      WrapBack(view.base, |gcRest|, capacity);
      if key in lsm && lsm[key].offset == Wrap(gcFront - |gcRest| + capacity, capacity) {
        MakeRoom(total, n);
        Keep(total, n);
      } else {
        Reclaim(total, n);
      }
      return true;
    }

    /** Writes the kept records back if the live record in hand does not fit beside them. */
    method MakeRoom(ghost total: nat, n: nat)
      requires InPass(total) && view.recs != [] && n == Size(view.recs[0]) <= gcSize
      requires var k := view.recs[0].key; k in lsm && lsm[k].offset == Wrap(view.base, capacity)
      modifies this`disk, this`writeFront, this`lsm, this`gcWrite, this`gcKeys, this`gcLocs, this`view
      ensures InPass(total) && |gcWrite| + n <= gcSize
      ensures view.flushed == old(view.flushed) && view.base == old(view.base)
      ensures view.recs != [] && view.recs[0] == old(view.recs[0])
      ensures var k := view.recs[0].key; k in lsm && lsm[k].offset == Wrap(view.base, capacity)
      ensures old(TapeOf(view)).items != [] && TapeOf(view) == Roomy(old(TapeOf(view)), gcSize)
    {
      hide PassInv, EncAll, Written, PutLocs, PutPos, Buffered, Wrap, AllSized, TapeOf, Apart;
      PassFacts(view, capacity, gcSize, total);
      TapeFits(view, capacity, gcSize, total);
      if |gcWrite| + n > gcSize {
        WriteBackSparesLive(view, capacity, gcSize, total);
        TapeWrittenBack(view, capacity);
        WriteBack(total);
      }
    }

    /** Copies a live record from the read buffer to the write buffer. */
    method Keep(ghost total: nat, n: nat)
      requires InPass(total) && view.recs != [] && n == Size(view.recs[0]) && HEAD <= n <= |gcRest|
      requires |gcWrite| + n <= gcSize
      requires var k := view.recs[0].key; k in lsm && lsm[k].offset == Wrap(view.base, capacity)
      modifies this`gcRest, this`gcWrite, this`gcKeys, this`gcLocs, this`view
      ensures InPass(total) && view.flushed == old(view.flushed)
      ensures Whole(old(TapeOf(view))) && TapeOf(view) == Taken(old(TapeOf(view)))
    {
      hide PassInv, EncAll, Buffered, Wrap, AllSized, TapeOf, Apart;
      PassFacts(view, capacity, gcSize, total);
      TapeHead(view, capacity, gcSize, total);
      TapeKept(view);
      KeepKeeps(view, capacity, gcSize, total);
      ParseHead(gcRest, view.recs);
      gcKeys, gcLocs := gcKeys + [gcRest[..KEY_SIZE]], gcLocs + [Loc(|gcWrite|, n - HEAD)];
      gcWrite, gcRest := gcWrite + gcRest[..n], gcRest[n..];
      view := Kept(view);
    }

    /** Leaves a dead record behind. */
    method Reclaim(ghost total: nat, n: nat)
      requires InPass(total) && view.recs != [] && n == Size(view.recs[0]) && HEAD <= n <= |gcRest|
      requires var k := view.recs[0].key; !(k in lsm && lsm[k].offset == Wrap(view.base, capacity))
      modifies this`gcRest, this`gcBytes, this`view
      ensures InPass(total) && view.flushed == old(view.flushed)
      ensures Whole(old(TapeOf(view))) && !old(TapeOf(view)).items[0].live && TapeOf(view) == Passed(old(TapeOf(view)))
    {
      hide PassInv, Wrap, TapeOf;
      ReclaimKeeps(view, capacity, gcSize, total);
      TapeHead(view, capacity, gcSize, total);
      TapeReclaimed(view);
      view := Reclaimed(view);
      gcRest, gcBytes := gcRest[n..], gcBytes + n;
    }

    /** Parses the read buffer as far as it goes. */
    method ScanBuffer(ghost total: nat)
      requires InPass(total) && |gcRest| <= gcSize
      modifies this`disk, this`writeFront, this`lsm, this`gcRest, this`gcWrite, this`gcKeys, this`gcLocs, this`gcBytes,
               this`view
      ensures InPass(total) && view.flushed == old(view.flushed)
      ensures gcFront == old(gcFront) && TapeOf(view) == Parsed(old(TapeOf(view)), gcSize)
    {
      hide PassInv, EncAll, TapeOf, ParsedOne;
      TapeRest(view);
      var more := |gcRest| > 0;
      while more
        invariant InPass(total) && view.flushed == old(view.flushed)
        invariant gcFront == old(gcFront) && |gcRest| == TapeOf(view).rest <= gcSize
        invariant Parsed(TapeOf(view), gcSize) == Parsed(old(TapeOf(view)), gcSize)
        invariant !more ==> !Whole(TapeOf(view))
        decreases |gcRest|, more
      {
        more := ScanRecord(total);
        TapeRest(view);
        more := more && |gcRest| > 0;
      }
    }

    /** Reads the next part of the log behind what is left in the read buffer. */
    method ReadChunk(ghost total: nat, n: nat)
      requires InPass(total) && |gcRest| + n <= |EncAll(view.recs)|
      modifies this`gcFront, this`gcRest, this`view
      ensures InPass(total) && view.flushed == old(view.flushed) && |gcRest| == old(|gcRest|) + n
      ensures gcBytes == old(gcBytes) && view == old(view).(rest := gcRest, gcFront := gcFront)
    {
      hide PassInv, EncAll, Buffered, Wrap, AllSized, Reading;
      PassFacts(view, capacity, gcSize, total);
      ChunkKeeps(view, capacity, gcSize, total, n);
      view := ChunkRead(view, capacity, n);
      var chunk := ReadDisk(disk, gcFront, n);
      gcRest, gcFront := gcRest + chunk, Wrap(gcFront + n, capacity);
    }

    /** Bytes of the records that the index does not lead to. */
    ghost function Garbage(): nat
      requires capacity > 0
      reads this
    {
      DeadBytes(view, capacity, |view.recs|)
    }

    /** How a pass would end, from the sizes and the liveness of the records in the log. */
    ghost function Foretold(): Outcome
      reads this
    {
      Ending(TapeOf(view), gcSize, Occupied())
    }

    /**
     Reclaims at least the GC size from the front of the log. Live records move to the write
     front; what the index means does not change. Every end of a pass is foretold.
     */
    method GcVLog() returns (outcome: Outcome)
      requires LogValid()
      modifies this`disk, this`writeFront, this`gcFront, this`lsm, this`gcRest, this`gcWrite, this`gcKeys, this`gcLocs,
               this`gcBytes, this`view
      ensures outcome == old(Foretold())
      ensures outcome.Done? ==>
        && LogValid() && view.flushed == old(view.flushed)
        && Occupied() + gcSize <= old(Occupied())
      ensures capacity > 0
      ensures outcome.Done? ==> old(Garbage()) - Garbage() == old(Occupied()) - Occupied()
    {
      hide PassInv, EncAll, Buffered, Wrap, AllSized, DeadBytes, LiveBytes, TapeOf, Ending, Idle;
      ghost var total := |EncAll(view.recs)|;
      LiveOrDead(view, capacity, gcSize);
      UnreadBytes(view, capacity, gcSize, total);
      IdleRest(view);
      var left: nat := Wrap(writeFront + capacity - gcFront, capacity);
      var stop: Option<Outcome> := None;
      while gcBytes < gcSize && stop.None?
        invariant InPass(total) && view.flushed == old(view.flushed) && |gcRest| <= gcSize
        invariant stop.Some? ==> stop.value != Done
        invariant old(Foretold()) == if stop.Some? then stop.value else Ending(TapeOf(view), gcSize, left)
        decreases stop.None?, left
      {
        stop, left := ScanChunk(total, left);
      }
      if stop.Some? { return stop.value; }
      TapeRest(view);
      EndingFound(TapeOf(view), gcSize, left);
      if gcWrite != [] {
        WriteBack(total);
      }
      if |gcRest| > 0 { return Misaligned; }
      PassEnds(view, capacity, gcSize, total);
      view := view.(gcBytes := 0);
      gcBytes := 0;
      LiveOrDead(view, capacity, gcSize);
      return Done;
    }

    /** Fills the read buffer and parses it, unless the pass cannot go on. */
    method ScanChunk(ghost total: nat, left: nat) returns (stop: Option<Outcome>, next: nat)
      requires InPass(total) && |gcRest| <= gcSize && gcBytes < gcSize
      modifies this`disk, this`writeFront, this`gcFront, this`lsm, this`gcRest, this`gcWrite, this`gcKeys, this`gcLocs,
               this`gcBytes, this`view
      ensures InPass(total) && view.flushed == old(view.flushed) && |gcRest| <= gcSize
      ensures if stop.Some? then stop.value != Done && Ending(old(TapeOf(view)), gcSize, left) == stop.value
              else next < left && Ending(old(TapeOf(view)), gcSize, left) == Ending(TapeOf(view), gcSize, next)
    {
      hide PassInv, EncAll, Buffered, Wrap, AllSized, TapeOf, Parsed, Extent;
      PassFacts(view, capacity, gcSize, total);
      UnreadBytes(view, capacity, gcSize, total);
      TapeRest(view);
      TapeMeasures(view);
      if |gcRest| == gcSize { return Some(Misaligned), left; }
      if left == 0 { return Some(Exhausted), left; }
      var n := gcSize - |gcRest|;
      if n > Wrap(writeFront + capacity - gcFront, capacity) { return Some(PastWriteFront), left; }
      ghost var t := TapeOf(view);
      ghost var here := view;
      ReadChunk(total, n);
      TapeRead(here, view);
      ScanBuffer(total);
      TapeRest(view);
      stop, next := None, if left > n then left - n else 0;
    }

    /** The index writes of a flush, in the order of the buffer. */
    method FlushLocs(m: map<Key, Loc>, off: nat) returns (r: map<Key, Loc>)
      requires capacity > 0 && PoolBytes(pool, offsets, pending)
      ensures r == PutLocs(m, capacity, off, pending)
    {
      r := m;
      assert pending[..0] == [];
      assert PutLocs(m, capacity, off, []) == m;
      hide PutLocs, EncAll, Start, Wrap, FromFixed, AllSized;
      for i := 0 to |offsets|
        invariant r == PutLocs(m, capacity, off, pending[..i])
      {
        BufferedRecord(pending, i);
        PutLocsStep(m, capacity, off, pending, i);
        var o := offsets[i];
        var key: Key := pool[o..o + KEY_SIZE];
        r := r[key := Loc(Wrap(off + o, capacity), FromFixed(pool[o + KEY_SIZE..o + HEAD]))];
      }
      assert pending[..|pending|] == pending;
    }

    /** The write front has moved over the space for the buffer, at disk offset off, but nothing is written yet. */
    ghost predicate Reserved(off: nat)
      reads this
    {
      && 0 < gcSize && poolSize <= gcSize
      && off == view.writeFront && 0 < capacity && writeFront == Wrap(off + |pool|, capacity)
      && MirrorsButFront() && Idle(view) && PassInv(view, capacity, gcSize, |EncAll(view.recs)|)
      && |EncAll(view.recs)| + |pool| + gcSize < capacity
    }

    /** Space for a flush: at once, or after one GC pass, which is enough whenever it ends well. */
    method ReserveForFlush() returns (r: Option<nat>, pass: Option<Outcome>)
      requires LogValid() && 0 < |pool| <= poolSize
      modifies this`disk, this`writeFront, this`gcFront, this`lsm, this`gcRest, this`gcWrite, this`gcKeys, this`gcLocs,
               this`gcBytes, this`view
      ensures r.Some? ==> view.flushed == old(view.flushed) && Reserved(r.value)
      ensures pass.None? <==> old(Occupied()) + |pool| + gcSize < capacity
      ensures r.Some? <==> pass.None? || pass.value.Done?
      ensures pass.None? ==> view == old(view)
      ensures pass.Some? ==> pass.value == old(Foretold())
    {
      hide PassInv, EncAll, Buffered, Wrap, AllSized, Grants, Ending, TapeOf;
      PassFacts(view, capacity, gcSize, |EncAll(view.recs)|);
      FlushGrant(view, capacity, gcSize, |pool|);
      r := Reserve(|pool|, false);
      pass := None;
      if r.None? {
        var outcome := GcVLog();
        pass := Some(outcome);
        if !outcome.Done? { return; }
        FlushGrant(view, capacity, gcSize, |pool|);
        PassFacts(view, capacity, gcSize, |EncAll(view.recs)|);
        r := Reserve(|pool|, false);
      }
    }

    /** Writes the buffer out and indexes its records. */
    method Flush() returns (ok: bool)
      requires LogValid() && |pool| <= poolSize && PoolBytes(pool, offsets, pending)
      requires forall k :: k in keysInPool ==> Mentions(pending, k)
      modifies this
      ensures ok ==>
        && LogValid() && pool == [] && offsets == [] && keysInPool == map[] && pending == []
        && view.flushed == Overlay(old(view.flushed), old(pending))
      ensures old(Occupied()) + old(|pool|) + gcSize < capacity ==> ok && Occupied() == old(Occupied()) + old(|pool|)
      ensures ok <==> old(|pool|) == 0 || old(Occupied()) + old(|pool|) + gcSize < capacity || old(Foretold()).Done?
      ensures capacity > 0
      ensures forall n :: old(Even(view, n)) ==>
                (ok <==>
                  || old(|pool|) == 0 || old(Occupied()) + old(|pool|) + gcSize < capacity
                  || old(RipeLog(view, capacity, gcSize, n)))
    {
      hide PassInv, EncAll, AllSized, Overlay, Ending, TapeOf, RipeLog, Even;
      PassFacts(view, capacity, gcSize, |EncAll(view.recs)|);
      forall n | Even(view, n) ensures n > 0 && (Foretold().Done? <==> RipeLog(view, capacity, gcSize, n)) {
        RipeLogEnds(view, capacity, gcSize, n);
        EvenPositive(view, n);
      }
      if |pool| == 0 {
        NothingPending(pool, offsets, pending);
        return true;
      }
      var off, _ := ReserveForFlush();
      if off.None? { return false; }
      Commit(off.value);
      return true;
    }

    /** Fills the reserved space and indexes what it holds. */
    method Commit(off: nat)
      requires Reserved(off) && PoolBytes(pool, offsets, pending)
      modifies this
      ensures LogValid() && pool == [] && offsets == [] && keysInPool == map[] && pending == []
      ensures view.flushed == Overlay(old(view.flushed), old(pending)) && Occupied() == old(Occupied()) + old(|pool|)
    {
      hide PassInv, EncAll, Wrap, Written, PutLocs, PutPos, Overlay, Start;
      FlushKeeps(view, capacity, gcSize, pending);
      PassFacts(view, capacity, gcSize, |EncAll(view.recs)|);
      disk := WriteDisk(disk, off, pool);
      lsm := FlushLocs(lsm, off);
      view := Flushed(view, capacity, pending);
      pool, offsets, keysInPool, pending := [], [], map[], [];
    }

    /** Appends a record to the buffer. */
    method Append(k: Key, v: Bytes)
      requires LogValid() && PoolBytes(pool, offsets, pending) && Sized(Rec(k, v)) && |pool| + HEAD + |v| <= poolSize
      requires forall i :: 0 <= i < |pending| ==> pending[i].key in keysInPool || pending[i].key == k
      requires forall x :: x in keysInPool && x != k ==>
                 exists i: nat :: LastFor(pending, i, x) && Start(pending, i) == keysInPool[x]
      modifies this`pool, this`offsets, this`keysInPool, this`pending
      ensures Valid() && Model() == old(Model())[k := v] && |pool| == old(|pool|) + HEAD + |v|
    {
      hide PassInv, EncAll, Overlay, Start, LastFor, Fixed, Sized;
      var r := Rec(k, v);
      BytesAppend(pool, offsets, pending, r);
      KeysAppend(keysInPool, pending, r);
      OverlayAppend(view.flushed, pending, r);
      keysInPool := keysInPool[k := |pool|];
      pending, offsets := pending + [r], offsets + [|pool|];
      pool := pool + k + Fixed(|v|, LEN_SIZE) + v;
      assert k + Fixed(|v|, LEN_SIZE) + v == Enc(r);
    }

    /**
     Puts a value. The old offset of the key is forgotten first; the buffer is flushed before
     the write if the record does not fit, and after it if the buffer is full. When a flush
     fails the process ends.
     */
    method Put(k: Key, v: Bytes) returns (ok: bool)
      requires Valid() && Sized(Rec(k, v)) && HEAD + |v| <= poolSize
      modifies this
      ensures ok ==> Valid() && Model() == old(Model())[k := v]
      ensures ok ==> |pool| < poolSize && (flushEveryWrite ==> pool == [])
      ensures old(Occupied()) + old(|pool|) + HEAD + |v| + gcSize < capacity ==> ok
    {
      hide PassInv, EncAll, Overlay, Start, Sized, AllSized;
      PoolKeysMention(keysInPool, pending);
      keysInPool := keysInPool - {k};
      if |pool| + HEAD + |v| > poolSize {
        ok := Flush();
        if !ok { return; }
        NoOverlay(view.flushed);
        NoKeys();
      }
      Append(k, v);
      ok := true;
      if |pool| + 1 > poolSize || flushEveryWrite {
        PoolKeysMention(keysInPool, pending);
        ok := Flush();
        if ok {
          NoOverlay(view.flushed);
          NoKeys();
        }
      }
    }

    method ForceSync() returns (ok: bool)
      requires Valid()
      modifies this
      ensures ok ==> Valid() && Model() == old(Model()) && pool == []
      ensures old(Occupied()) + old(|pool|) + gcSize < capacity ==> ok
      ensures ok <==> old(|pool|) == 0 || old(Occupied()) + old(|pool|) + gcSize < capacity || old(Foretold()).Done?
      ensures capacity > 0
      ensures forall n :: old(Even(view, n)) ==>
                (ok <==>
                  || old(|pool|) == 0 || old(Occupied()) + old(|pool|) + gcSize < capacity
                  || old(RipeLog(view, capacity, gcSize, n)))
    {
      hide PassInv, EncAll, Overlay, Start, Sized, AllSized, Ending, TapeOf, RipeLog, Even;
      PoolKeysMention(keysInPool, pending);
      ok := Flush();
      if ok {
        NoOverlay(view.flushed);
        NoKeys();
      }
    }

    /** Looks in the buffer first, then in the index and the log. */
    method Get(k: Key) returns (r: Option<Bytes>)
      requires Valid()
      ensures r == if k in Model() then Some(Model()[k]) else None
    {
      if k in keysInPool {
        r := GetFromBuffer(k);
      } else {
        NotBuffered(k);
        if k in lsm {
          r := GetFromDisk(k);
        } else {
          r := None;
        }
      }
    }

    lemma NotBuffered(k: Key)
      requires Valid() && k !in keysInPool
      ensures (k in Model() <==> k in lsm) && (k in Model() ==> k in view.flushed && Model()[k] == view.flushed[k])
    {
      hide EncAll, Reads, Buffered, Waiting, AllSized, PoolBytes;
      OverlayAt(view.flushed, pending, k);
    }

    method GetFromBuffer(k: Key) returns (r: Option<Bytes>)
      requires Valid() && k in keysInPool
      ensures k in Model() && r == Some(Model()[k])
    {
      hide PassInv, EncAll, Overlay, Start;
      ghost var i: nat :| LastFor(pending, i, k) && Start(pending, i) == keysInPool[k];
      BufferedRecord(pending, i);
      OverlayAt(view.flushed, pending, k);
      var o := keysInPool[k];
      var len := FromFixed(pool[o + KEY_SIZE..o + HEAD]);
      r := Some(pool[o + HEAD..o + HEAD + len]);
    }

    method GetFromDisk(k: Key) returns (r: Option<Bytes>)
      requires LogValid() && k in lsm
      ensures k in view.flushed && r == Some(view.flushed[k])
    {
      hide PassInv, EncAll, Enc;
      IndexedRecord(view, capacity, gcSize, k);
      var loc := lsm[k];
      var bytes := ReadDisk(disk, loc.offset, HEAD + loc.length);
      EncValue(Rec(k, view.flushed[k]));
      r := Some(bytes[HEAD..]);
    }
  }

  lemma PutLocsStep(m: map<Key, Loc>, c: nat, w: nat, rs: seq<Rec>, i: nat)
    requires c > 0 && i < |rs|
    ensures PutLocs(m, c, w, rs[..i + 1]) ==
              PutLocs(m, c, w, rs[..i])[rs[i].key := Loc(Wrap(w + Start(rs, i), c), |rs[i].value|)]
  {
    hide Wrap, EncAll;
    assert rs[..i + 1][..i] == rs[..i];
  }

  lemma EncValue(r: Rec)
    ensures Enc(r)[HEAD..] == r.value
  {
  }

  lemma NoOverlay(m: map<Key, Bytes>)
    ensures Overlay(m, []) == m
  {
  }

  lemma NoKeys()
    ensures PoolKeys(map[], []) && PoolBytes([], [], [])
  {
  }

  lemma PoolKeysMention(keys: map<Key, nat>, rs: seq<Rec>)
    requires PoolKeys(keys, rs)
    ensures forall k :: k in keys ==> Mentions(rs, k)
    ensures forall k :: k in keys ==> exists i: nat :: LastFor(rs, i, k) && Start(rs, i) == keys[k]
  {
  }

  /** A flush is granted space exactly when the reserve stays free. */
  lemma FlushGrant(s: Pass, c: nat, gcSize: nat, n: nat)
    requires PassInv(s, c, gcSize, |EncAll(s.recs)|) && Idle(s) && 0 < n < c
    ensures Grants(s.writeFront, s.gcFront, c, gcSize, n) <==> |EncAll(s.recs)| + n + gcSize < c
  {
    hide Wrap, Grants;
    PassFacts(s, c, gcSize, |EncAll(s.recs)|);
    GrantsExact(s.base + |EncAll(s.recs)|, s.base, c, gcSize, n);
  }

  lemma NothingPending(pool: Bytes, offsets: seq<nat>, rs: seq<Rec>)
    requires PoolBytes(pool, offsets, rs) && pool == []
    ensures rs == [] && offsets == []
    ensures forall m :: Overlay(m, rs) == m
  {
    assert rs != [] ==> |EncAll(rs)| > 0;
  }

  // ---------------------------------------------------------------- the tape along the pass

  lemma TapeRest(s: Pass)
    ensures TapeOf(s).rest == |s.rest| && TapeOf(s).dead == s.gcBytes
  {
  }

  lemma TapeRead(s: Pass, t: Pass)
    requires t == s.(rest := t.rest, gcFront := t.gcFront)
    ensures TapeOf(t) == TapeOf(s).(rest := |t.rest|)
  {
    hide EncAll;
    forall i | 0 <= i < |s.recs| ensures ItemAt(t, i) == ItemAt(s, i) {}
    assert ItemsOf(t) == ItemsOf(s);
  }

  /**
   * The tape tells whether a whole record is in the buffer, whether it is live and how much waits to be written back.
   */
  lemma TapeFits(s: Pass, c: nat, g: nat, total: nat)
    requires PassInv(s, c, g, total)
    ensures TapeOf(s).rest == |s.rest| && Total(TapeOf(s).buffered) == |s.wbuf|
    ensures |s.rest| > 0 ==> s.recs != []
    ensures s.recs != [] <==> TapeOf(s).items != []
    ensures s.recs != [] ==> TapeOf(s).items[0].size == Size(s.recs[0])
    ensures s.recs != [] ==>
              var k := s.recs[0].key;
              TapeOf(s).items[0].live <==> k in s.lsm && s.lsm[k].offset == Wrap(s.base, c)
  {
    hide PassInv, Wrap, ItemAt;
    PassFacts(s, c, g, total);
    TapeMeasures(s);
    if s.recs != [] { TapeHead(s, c, g, total); }
  }

  lemma EvenPositive(s: Pass, n: nat)
    requires Even(s, n)
    ensures n > 0
  {
  }

  lemma IdleRest(s: Pass)
    requires Idle(s)
    ensures s.rest == [] && s.gcBytes == 0
  {
  }

  lemma EndingFound(t: Tape, g: nat, left: nat)
    requires t.dead >= g
    ensures Ending(t, g, left) == if t.rest > 0 then Misaligned else Done
  {
  }
}
