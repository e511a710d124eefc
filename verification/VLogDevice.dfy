/** Wrap-around access to the circular log on disk. */
module VLogDevice {
  import opened Modular
  import opened Coding

  /** The disk after writing buf from offset off on, round the end if need be. */
  function Written(disk: Bytes, off: nat, buf: Bytes): (r: Bytes)
    requires |disk| > 0
    ensures |r| == |disk|
    ensures forall p :: 0 <= p < |disk| ==>
              r[p] == if Wrap(p - off, |disk|) < |buf| then buf[Wrap(p - off, |disk|)] else disk[p]
  {
    seq(|disk|,
        p requires 0 <= p < |disk| => if Wrap(p - off, |disk|) < |buf| then buf[Wrap(p - off, |disk|)] else disk[p])
  }

  /** The n bytes from offset off on, round the end if need be. */
  function Reading(disk: Bytes, off: nat, n: nat): (r: Bytes)
    requires |disk| > 0
    ensures |r| == n
    ensures forall i :: 0 <= i < n ==> r[i] == disk[Wrap(off + i, |disk|)]
  {
    seq(n, i requires 0 <= i < n => disk[Wrap(off + i, |disk|)])
  }

  /** Writing piece by piece, each piece up to the end of the disk. */
  method WriteDisk(disk: Bytes, off: nat, buf: Bytes) returns (r: Bytes)
    requires off < |disk| && |buf| <= |disk|
    ensures r == Written(disk, off, buf)
  {
    hide Wrap;
    r := disk;
    var running, remains := off, |buf|;
    WrapSmall(off, |disk|);
    assert r == Written(disk, off, buf[..0]);
    while remains > 0
      invariant 0 <= remains <= |buf| && |r| == |disk| && 0 <= running < |disk|
      invariant running == Wrap(off + |buf| - remains, |disk|)
      invariant r == Written(disk, off, buf[..|buf| - remains])
    {
      var n := if |disk| - running < remains then |disk| - running else remains;
      var at := |buf| - remains;
      r := Piece(disk, off, buf, at, n, running, r);
      WrapAdd(off + at, n, |disk|);
      running := Wrap(running + n, |disk|);
      remains := remains - n;
    }
    assert buf[..|buf|] == buf;
  }

  /** One piece that does not cross the end. */
  method Piece(disk: Bytes, off: nat, buf: Bytes, at: nat, n: nat, running: nat, before: Bytes) returns (r: Bytes)
    requires off < |disk| && at + n <= |buf| <= |disk| && running == Wrap(off + at, |disk|) && running + n <= |disk|
    requires before == Written(disk, off, buf[..at])
    ensures r == Written(disk, off, buf[..at + n])
  {
    r := before[..running] + buf[at..at + n] + before[running + n..];
    forall p | 0 <= p < |disk| ensures r[p] == Written(disk, off, buf[..at + n])[p] {
      PieceAt(off, at, n, running, p, |disk|);
    }
  }

  /** A place on disk belongs to the piece exactly when its distance from the start does. */
  lemma PieceAt(off: nat, at: nat, n: nat, running: nat, p: nat, c: nat)
    requires off < c && at + n <= c && running == Wrap(off + at, c) && running + n <= c && p < c
    ensures (running <= p < running + n) <==> (at <= Wrap(p - off, c) < at + n)
    ensures running <= p < running + n ==> Wrap(p - off, c) == at + (p - running)
  {
    hide Wrap;
    if running <= p < running + n {
      WrapAdd(off + at, p - running, c);
      DistanceIs(p, off, at + (p - running), c);
    }
    if at <= Wrap(p - off, c) < at + n {
      PlaceOf(off, at, running, p, c, Wrap(p - off, c) - at);
    }
  }

  lemma PlaceOf(off: nat, at: nat, running: nat, p: nat, c: nat, j: nat)
    requires c > 0 && running == Wrap(off + at, c) && running + j < c && p < c
    requires Wrap(p - off, c) == at + j
    ensures p == running + j
  {
    hide Wrap;
    WrapAdd(p - off, off, c);
    WrapAdd(off + at, j, c);
    WrapSmall(running + j, c);
    WrapSmall(p, c);
  }

  lemma DistanceIs(p: nat, off: nat, d: nat, c: nat)
    requires c > 0 && d < c && Wrap(off + d, c) == Wrap(p, c)
    ensures Wrap(p - off, c) == d
  {
    hide Wrap;
    WrapAdd(p, 0 - off, c);
    WrapAdd(off + d, 0 - off, c);
    WrapSmall(d, c);
  }

  method ReadDisk(disk: Bytes, off: nat, length: nat) returns (r: Bytes)
    requires off < |disk| && length <= |disk|
    ensures r == Reading(disk, off, length)
  {
    hide Wrap;
    r := [];
    var running, remains := off, length;
    WrapSmall(off, |disk|);
    while remains > 0
      invariant 0 <= remains <= length && 0 <= running < |disk|
      invariant running == Wrap(off + length - remains, |disk|)
      invariant r == Reading(disk, off, length - remains)
    {
      var n := if |disk| - running < remains then |disk| - running else remains;
      var at := length - remains;
      ReadPiece(disk, off, at, n, running);
      r := r + disk[running..running + n];
      WrapAdd(off + at, n, |disk|);
      running := Wrap(running + n, |disk|);
      remains := remains - n;
    }
  }

  /** A piece that does not reach round the end. */
  lemma ReadPiece(disk: Bytes, off: nat, at: nat, n: nat, running: nat)
    requires |disk| > 0 && running == Wrap(off + at, |disk|) && running + n <= |disk|
    ensures Reading(disk, off, at) + disk[running..running + n] == Reading(disk, off, at + n)
  {
    hide Wrap;
    var part := disk[running..running + n];
    forall i | 0 <= i < n ensures part[i] == disk[Wrap(off + at + i, |disk|)] {
      WrapAdd(off + at, i, |disk|);
      WrapSmall(running + i, |disk|);
    }
  }

  // ---------------------------------------------------------------- the log laid out on the disk

  /** The bytes of the log from position base on lie on the disk at their positions modulo its size. */
  ghost predicate OnDisk(disk: Bytes, base: nat, log: Bytes) {
    && |disk| > 0 && |log| <= |disk|
    && forall i :: 0 <= i < |log| ==> disk[Wrap(base + i, |disk|)] == log[i]
  }

  /** Appending to the log as long as everything fits overwrites nothing of it. */
  lemma WriteExtends(disk: Bytes, base: nat, log: Bytes, buf: Bytes)
    requires OnDisk(disk, base, log) && |log| + |buf| <= |disk|
    ensures OnDisk(Written(disk, Wrap(base + |log|, |disk|), buf), base, log + buf)
  {
    hide Wrap;
    var c := |disk|;
    var off := Wrap(base + |log|, c);
    var r := Written(disk, off, buf);
    forall i | 0 <= i < |log| + |buf| ensures r[Wrap(base + i, c)] == (log + buf)[i] {
      var p := Wrap(base + i, c);
      if i < |log| {
        WrapAdd(base + |log|, i - |log| + c, c);
        WrapTurn(base + i, c);
        WrapSmall(p, c);
        DistanceIs(p, off, i - |log| + c, c);
      } else {
        WrapAdd(base + |log|, i - |log|, c);
        WrapSmall(p, c);
        DistanceIs(p, off, i - |log|, c);
      }
    }
  }

  lemma ByteBack(disk: Bytes, base: nat, log: Bytes, at: nat, i: nat)
    requires OnDisk(disk, base, log) && at + i < |log|
    ensures disk[Wrap(Wrap(base + at, |disk|) + i, |disk|)] == log[at + i]
  {
    hide Wrap;
    WrapAdd(base + at, i, |disk|);
    assert disk[Wrap(base + (at + i), |disk|)] == log[at + i];
  }

  /** Reading back any part of the log. */
  lemma ReadBack(disk: Bytes, base: nat, log: Bytes, at: nat, n: nat)
    requires OnDisk(disk, base, log) && at + n <= |log|
    ensures Reading(disk, Wrap(base + at, |disk|), n) == log[at..at + n]
  {
    var r, part := Reading(disk, Wrap(base + at, |disk|), n), log[at..at + n];
    forall i | 0 <= i < n ensures r[i] == part[i] {
      ByteBack(disk, base, log, at, i);
    }
  }

  /** Forgetting a prefix. */
  lemma DropFront(disk: Bytes, base: nat, log: Bytes, n: nat)
    requires OnDisk(disk, base, log) && n <= |log|
    ensures OnDisk(disk, base + n, log[n..])
  {
    forall i | 0 <= i < |log| - n ensures disk[Wrap(base + n + i, |disk|)] == log[n..][i] {
      assert log[n..][i] == log[n + i];
      assert base + n + i == base + (n + i);
    }
  }
}
