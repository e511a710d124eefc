/** Byte-level coding shared by the formats: fixed-width little-endian integers, varints, length-prefixed strings. */
module Coding {
  import opened Optional

  type Byte = x: int | 0 <= x < 256

  type Bytes = seq<Byte>

  function Pow(b: nat, e: nat): (r: nat)
    ensures b > 0 ==> r > 0
  {
    if e == 0 then 1 else b * Pow(b, e - 1)
  }

  // ---------------------------------------------------------------- fixed width

  /** n in `width` bytes, least significant first. */
  function Fixed(n: nat, width: nat): (r: Bytes)
    ensures |r| == width
  {
    if width == 0 then [] else [n % 256] + Fixed(n / 256, width - 1)
  }

  function FromFixed(s: Bytes): nat {
    if s == [] then 0 else s[0] + 256 * FromFixed(s[1..])
  }

  lemma {:induction false} FixedRoundTrip(n: nat, width: nat)
    requires n < Pow(256, width)
    ensures FromFixed(Fixed(n, width)) == n
    decreases width
  {
    if width > 0 {
      FixedRoundTrip(n / 256, width - 1);
      assert Fixed(n, width)[1..] == Fixed(n / 256, width - 1);
    }
  }

  /** Bytes are what the number they stand for is written as. */
  lemma {:induction false} FromFixedRoundTrip(s: Bytes)
    ensures Fixed(FromFixed(s), |s|) == s
    decreases |s|
  {
    if s != [] {
      FromFixedRoundTrip(s[1..]);
      var rest := FromFixed(s[1..]);
      assert (s[0] + 256 * rest) % 256 == s[0] && (s[0] + 256 * rest) / 256 == rest;
    }
  }

  lemma Fixed64RoundTrip(n: nat)
    requires n < U64
    ensures FromFixed(Fixed(n, 8)) == n
  {
    assert Pow(256, 2) == 65536;
    assert Pow(256, 4) == 4294967296;
    assert Pow(256, 6) == 281474976710656;
    FixedRoundTrip(n, 8);
  }

  // ---------------------------------------------------------------- varints

  const U32: nat := 0x1_0000_0000
  const U64: nat := 0x1_0000_0000_0000_0000

  /** Base 128, least significant group first; every byte but the last has its high bit set. */
  function Varint(n: nat): (r: Bytes)
    ensures r != []
  {
    if n < 128 then [n] else [n % 128 + 128] + Varint(n / 128)
  }

  /** Reads a varint of at most `left` bytes and returns what follows it. */
  function GetVarint(s: Bytes, left: nat): (r: Option<(nat, Bytes)>)
    ensures r.Some? ==> |r.value.1| < |s|
  {
    if left == 0 || s == [] then None
    else if s[0] < 128 then Some((s[0], s[1..]))
    else
      match GetVarint(s[1..], left - 1)
      case None => None
      case Some(p) => Some((s[0] - 128 + 128 * p.0, p.1))
  }

  function GetVarint32(s: Bytes): (r: Option<(nat, Bytes)>)
    ensures r.Some? ==> |r.value.1| < |s|
  {
    match GetVarint(s, 5) case None => None case Some(p) => Some((p.0 % U32, p.1))
  }

  function GetVarint64(s: Bytes): (r: Option<(nat, Bytes)>)
    ensures r.Some? ==> |r.value.1| < |s|
  {
    match GetVarint(s, 10) case None => None case Some(p) => Some((p.0 % U64, p.1))
  }

  lemma {:induction false} VarintRoundTrip(n: nat, left: nat, rest: Bytes)
    requires left > 0 && n < Pow(128, left)
    ensures GetVarint(Varint(n) + rest, left) == Some((n, rest))
    decreases left
  {
    var s := Varint(n) + rest;
    if n < 128 {
      assert s[1..] == rest;
    } else {
      VarintRoundTrip(n / 128, left - 1, rest);
      assert s[1..] == Varint(n / 128) + rest;
    }
  }

  /** Five bytes are enough for 32 bits, ten for 64. */
  lemma VarintWidths()
    ensures U32 < Pow(128, 5) && U64 < Pow(128, 10)
  {
    assert Pow(128, 2) == 16384;
    assert Pow(128, 4) == 268435456;
    assert Pow(128, 6) == 4398046511104;
    assert Pow(128, 8) == 72057594037927936;
  }

  lemma Varint32RoundTrip(n: nat, rest: Bytes)
    requires n < U32
    ensures GetVarint32(Varint(n) + rest) == Some((n, rest))
  {
    VarintWidths();
    hide Pow, Varint, GetVarint;
    VarintRoundTrip(n, 5, rest);
  }

  lemma Varint64RoundTrip(n: nat, rest: Bytes)
    requires n < U64
    ensures GetVarint64(Varint(n) + rest) == Some((n, rest))
  {
    VarintWidths();
    hide Pow, Varint, GetVarint;
    VarintRoundTrip(n, 10, rest);
  }

  // ---------------------------------------------------------------- length-prefixed strings

  function Prefixed(s: Bytes): Bytes { Varint(|s| % U32) + s }

  function GetPrefixed(s: Bytes): (r: Option<(Bytes, Bytes)>)
    ensures r.Some? ==> |r.value.0| + |r.value.1| < |s|
  {
    match GetVarint32(s)
    case None => None
    case Some(p) => if p.0 <= |p.1| then Some((p.1[..p.0], p.1[p.0..])) else None
  }

  lemma PrefixedRoundTrip(s: Bytes, rest: Bytes)
    requires |s| < U32
    ensures GetPrefixed(Prefixed(s) + rest) == Some((s, rest))
  {
    Varint32RoundTrip(|s|, s + rest);
    assert Prefixed(s) + rest == Varint(|s|) + (s + rest);
    assert (s + rest)[..|s|] == s && (s + rest)[|s|..] == rest;
  }
}
