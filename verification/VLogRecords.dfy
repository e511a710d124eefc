/** Records in the value log, and where the key index finds them. */
module VLogRecords {
  import opened Modular
  import opened Coding

  const KEY_SIZE: nat := 24
  const LEN_SIZE: nat := 8
  const HEAD: nat := KEY_SIZE + LEN_SIZE

  type Key = k: Bytes | |k| == KEY_SIZE witness seq(KEY_SIZE, _ => 0)

  /** A record: key, length of the value, value. The length fits its field. */
  datatype Rec = Rec(key: Key, value: Bytes)

  predicate Sized(r: Rec) { |r.value| < Pow(256, LEN_SIZE) }

  function Enc(r: Rec): (b: Bytes)
    ensures |b| == HEAD + |r.value|
  {
    r.key + Fixed(|r.value|, LEN_SIZE) + r.value
  }

  function Size(r: Rec): nat { HEAD + |r.value| }

  function EncAll(rs: seq<Rec>): Bytes {
    if rs == [] then [] else Enc(rs[0]) + EncAll(rs[1..])
  }

  /** Where record i starts. */
  function Start(rs: seq<Rec>, i: nat): nat
    requires i <= |rs|
  {
    |EncAll(rs[..i])|
  }

  lemma {:induction false} EncAllAppend(a: seq<Rec>, b: seq<Rec>)
    ensures EncAll(a + b) == EncAll(a) + EncAll(b)
    decreases |a|
  {
    if a == [] {
      assert a + b == b;
    } else {
      assert (a + b)[1..] == a[1..] + b;
      EncAllAppend(a[1..], b);
    }
  }

  /** The parts of an encoded record. */
  lemma EncParts(r: Rec, tail: Bytes)
    requires Sized(r)
    ensures var b := Enc(r) + tail;
            && b[..KEY_SIZE] == r.key
            && FromFixed(b[KEY_SIZE..HEAD]) == |r.value|
            && b[HEAD..HEAD + |r.value|] == r.value
            && b[Size(r)..] == tail
  {
    var b := Enc(r) + tail;
    FixedRoundTrip(|r.value|, LEN_SIZE);
    assert b[KEY_SIZE..HEAD] == Fixed(|r.value|, LEN_SIZE);
  }

  /** Record i lies where Start says. */
  lemma RecordAt(rs: seq<Rec>, i: nat)
    requires i < |rs|
    ensures Start(rs, i) + Size(rs[i]) == Start(rs, i + 1) <= |EncAll(rs)|
    ensures EncAll(rs)[Start(rs, i)..Start(rs, i) + Size(rs[i])] == Enc(rs[i])
  {
    assert rs[..i + 1] == rs[..i] + [rs[i]];
    EncAllAppend(rs[..i], [rs[i]]);
    assert rs == rs[..i + 1] + rs[i + 1..];
    EncAllAppend(rs[..i + 1], rs[i + 1..]);
    assert EncAll([rs[i]]) == Enc(rs[i]) by { assert [rs[i]][1..] == []; }
  }

  // ---------------------------------------------------------------- positions

  /** Record r starts at position p of a log whose first record is at base. */
  ghost predicate Holds(base: nat, rs: seq<Rec>, p: nat, r: Rec) {
    exists i :: 0 <= i < |rs| && rs[i] == r && base + Start(rs, i) == p
  }

  lemma HoldsBounds(base: nat, rs: seq<Rec>, p: nat, r: Rec)
    requires Holds(base, rs, p, r)
    ensures base <= p && p + Size(r) <= base + |EncAll(rs)|
    ensures EncAll(rs)[p - base..p - base + Size(r)] == Enc(r)
  {
    hide Enc, EncAll;
    var i :| 0 <= i < |rs| && rs[i] == r && base + Start(rs, i) == p;
    RecordAt(rs, i);
  }

  lemma HoldsAppend(base: nat, rs: seq<Rec>, more: seq<Rec>, p: nat, r: Rec)
    requires Holds(base, rs, p, r)
    ensures Holds(base, rs + more, p, r)
  {
    var i :| 0 <= i < |rs| && rs[i] == r && base + Start(rs, i) == p;
    assert (rs + more)[..i] == rs[..i];
    assert (rs + more)[i] == r;
  }

  lemma HoldsNew(base: nat, rs: seq<Rec>, more: seq<Rec>, i: nat)
    requires i < |more|
    ensures Holds(base, rs + more, base + |EncAll(rs)| + Start(more, i), more[i])
  {
    assert (rs + more)[..|rs| + i] == rs + more[..i];
    EncAllAppend(rs, more[..i]);
    assert (rs + more)[|rs| + i] == more[i];
  }

  /** Dropping the first record leaves every other one in place. */
  lemma HoldsDrop(base: nat, rs: seq<Rec>, p: nat, r: Rec)
    requires rs != [] && Holds(base, rs, p, r) && p != base
    ensures Holds(base + Size(rs[0]), rs[1..], p, r)
  {
    var i :| 0 <= i < |rs| && rs[i] == r && base + Start(rs, i) == p;
    assert rs[..0] == [];
    assert i > 0;
    assert rs[..i] == [rs[0]] + rs[1..][..i - 1];
    EncAllAppend([rs[0]], rs[1..][..i - 1]);
    assert EncAll([rs[0]]) == Enc(rs[0]) by { assert [rs[0]][1..] == []; }
    assert rs[1..][i - 1] == r;
  }

  /** Only the first record starts at base. */
  lemma HoldsFirst(base: nat, rs: seq<Rec>, r: Rec)
    requires Holds(base, rs, base, r)
    ensures rs[0] == r
  {
    var i :| 0 <= i < |rs| && rs[i] == r && base + Start(rs, i) == base;
    assert rs[..i] == [] <==> i == 0;
  }

  // ---------------------------------------------------------------- applying records in order

  function Overlay(m: map<Key, Bytes>, rs: seq<Rec>): map<Key, Bytes>
    decreases |rs|
  {
    if rs == [] then m else Overlay(m, rs[..|rs| - 1])[rs[|rs| - 1].key := rs[|rs| - 1].value]
  }

  /** Record i is the last one for its key. */
  predicate LastFor(rs: seq<Rec>, i: nat, k: Key) {
    i < |rs| && rs[i].key == k && forall j :: i < j < |rs| ==> rs[j].key != k
  }

  predicate Mentions(rs: seq<Rec>, k: Key) { exists i :: 0 <= i < |rs| && rs[i].key == k }

  lemma {:induction false} OverlayAt(m: map<Key, Bytes>, rs: seq<Rec>, k: Key)
    ensures !Mentions(rs, k) ==> (k in Overlay(m, rs) <==> k in m) && (k in m ==> Overlay(m, rs)[k] == m[k])
    ensures forall i: nat :: LastFor(rs, i, k) ==> k in Overlay(m, rs) && Overlay(m, rs)[k] == rs[i].value
    decreases |rs|
  {
    if rs != [] {
      var front := rs[..|rs| - 1];
      OverlayAt(m, front, k);
      if rs[|rs| - 1].key != k {
        assert Mentions(front, k) ==> Mentions(rs, k);
        forall i: nat | LastFor(rs, i, k) ensures LastFor(front, i, k) && front[i] == rs[i] {
        }
      }
    }
  }

  lemma OverlayAppend(m: map<Key, Bytes>, rs: seq<Rec>, r: Rec)
    ensures Overlay(m, rs + [r]) == Overlay(m, rs)[r.key := r.value]
  {
    assert (rs + [r])[..|rs|] == rs;
  }

  /** Records that repeat what the map says change nothing. */
  lemma {:induction false} OverlaySame(m: map<Key, Bytes>, rs: seq<Rec>)
    requires forall i :: 0 <= i < |rs| ==> rs[i].key in m && m[rs[i].key] == rs[i].value
    ensures Overlay(m, rs) == m
    decreases |rs|
  {
    if rs != [] {
      OverlaySame(m, rs[..|rs| - 1]);
    }
  }
}
