/** The consistency log: frames that are either complete or ignored. */
module ConsistencyLog {
  import opened Optional
  import opened Coding
  import VLogRecords

  const SEPARATOR: Byte := 59
  const ZERO: Byte := 48
  const WORD := 8

  /** The letters of the end mark. */
  const MAGIC: Bytes := [72, 65, 53, 72, 95, 75, 86, 95, 51, 78, 68, 95, 48, 70, 95, 55, 48, 71]

  // ---------------------------------------------------------------- decimal numbers and lists of them

  function Decimal(n: nat): (r: Bytes)
    ensures r != [] && forall i :: 0 <= i < |r| ==> IsDigit(r[i])
  {
    if n < 10 then [ZERO + n] else Decimal(n / 10) + [ZERO + n % 10]
  }

  predicate IsDigit(c: Byte) { ZERO <= c < ZERO + 10 }

  /** The number that digits spell, or None. */
  function Number(s: Bytes): Option<nat>
    decreases |s|
  {
    if s == [] || !IsDigit(s[|s| - 1]) then None
    else if |s| == 1 then Some(s[0] - ZERO)
    else
      match Number(s[..|s| - 1])
      case None => None
      case Some(n) => Some(10 * n + (s[|s| - 1] - ZERO))
  }

  lemma {:induction false} DecimalRoundTrip(n: nat)
    ensures Number(Decimal(n)) == Some(n)
  {
    if n >= 10 {
      DecimalRoundTrip(n / 10);
      var s := Decimal(n);
      assert s[..|s| - 1] == Decimal(n / 10);
    }
  }

  function Tail(segments: seq<nat>): Bytes {
    if segments == [] then [] else [SEPARATOR] + Decimal(segments[0]) + Tail(segments[1..])
  }

  /** A front and a list of segments as text. */
  function GroupValue(front: nat, segments: seq<nat>): Bytes { Decimal(front) + Tail(segments) }

  method GenerateGroupValue(front: nat, segments: seq<nat>) returns (r: Bytes)
    ensures r == GroupValue(front, segments)
  {
    r := Decimal(front);
    for i := 0 to |segments|
      invariant r + Tail(segments[i..]) == GroupValue(front, segments)
    {
      hide Decimal;
      assert segments[i..][1..] == segments[i + 1..];
      assert r + Tail(segments[i..]) == r + ([SEPARATOR] + Decimal(segments[i])) + Tail(segments[i + 1..]);
      r := r + ([SEPARATOR] + Decimal(segments[i]));
    }
  }

  /** The next separator from a position on, or the end. */
  function Find(s: Bytes, from: nat): (p: nat)
    requires from <= |s|
    ensures from <= p <= |s| && (forall i :: from <= i < p ==> s[i] != SEPARATOR) && (p < |s| ==> s[p] == SEPARATOR)
    decreases |s| - from
  {
    if from == |s| || s[from] == SEPARATOR then from else Find(s, from + 1)
  }

  /** The numbers after the separators, starting at one; None where a number does not parse. */
  function Items(s: Bytes, p: nat): Option<seq<nat>>
    requires p <= |s|
    decreases |s| - p
  {
    if p == |s| then Some([])
    else
      var e := Find(s, p + 1);
      match Number(s[p + 1..e])
      case None => None
      case Some(n) => match Items(s, e) case None => None case Some(ns) => Some([n] + ns)
  }

  function ParseGroup(s: Bytes): Option<(nat, seq<nat>)> {
    var e := Find(s, 0);
    match Number(s[..e])
    case None => None
    case Some(front) => match Items(s, e) case None => None case Some(ns) => Some((front, ns))
  }

  /** The parsing loop; a number that does not parse is an exception in the code. */
  method ReadGroupMeta(s: Bytes) returns (r: Option<(nat, seq<nat>)>)
    ensures r == ParseGroup(s)
  {
    hide Number, Find;
    var spos := Find(s, 0);
    var front := Number(s[..spos]);
    if front.None? { return None; }
    var list: seq<nat> := [];
    assert forall ns: seq<nat> :: list + ns == ns;
    while spos < |s|
      invariant spos <= |s|
      invariant Items(s, Find(s, 0)) == match Items(s, spos) case None => None case Some(ns) => Some(list + ns)
      decreases |s| - spos
    {
      var epos := Find(s, spos + 1);
      var n := Number(s[spos + 1..epos]);
      if n.None? { return None; }
      assert forall ns: seq<nat> :: list + ([n.value] + ns) == list + [n.value] + ns;
      list := list + [n.value];
      spos := epos;
    }
    assert list + [] == list;
    r := Some((front.value, list));
  }

  /** Where a number ends in front of more list text. */
  lemma NumberEnds(s: Bytes, from: nat, n: nat, rest: Bytes)
    requires from <= |s| && s[from..] == Decimal(n) + rest && (rest == [] || rest[0] == SEPARATOR)
    ensures var p := Find(s, from); s[from..p] == Decimal(n) && s[p..] == rest
  {
    hide Decimal, Find;
    var p, d := Find(s, from), |Decimal(n)|;
    assert forall i :: 0 <= i < d ==> IsDigit(Decimal(n)[i]) && s[from + i] == Decimal(n)[i];
    assert from + d < |s| ==> s[from + d] == s[from..][d] == rest[0];
    assert p == from + d;
    assert s[from..p] == s[from..][..d];
    assert s[p..] == s[from..][d..];
  }

  lemma {:induction false} ItemsRoundTrip(s: Bytes, p: nat, segments: seq<nat>)
    requires p <= |s| && s[p..] == Tail(segments)
    ensures Items(s, p) == Some(segments)
    decreases |segments|
  {
    hide Decimal, Number, Find;
    if segments != [] {
      var n, rest := segments[0], segments[1..];
      assert s[p + 1..] == s[p..][1..] == Decimal(n) + Tail(rest);
      NumberEnds(s, p + 1, n, Tail(rest));
      DecimalRoundTrip(n);
      ItemsRoundTrip(s, Find(s, p + 1), rest);
      assert [n] + rest == segments;
    }
  }

  /** Parsing undoes printing, for every front and every list. */
  lemma GroupRoundTrip(front: nat, segments: seq<nat>)
    ensures ParseGroup(GroupValue(front, segments)) == Some((front, segments))
  {
    hide Decimal, Number, Find, Items;
    var s := GroupValue(front, segments);
    assert s[0..] == s;
    NumberEnds(s, 0, front, Tail(segments));
    DecimalRoundTrip(front);
    ItemsRoundTrip(s, Find(s, 0), segments);
  }

  // ---------------------------------------------------------------- frames

  datatype GroupMeta = GroupMeta(id: nat, front: nat, segments: seq<nat>)

  /** A key with its serialised location and, in a GC log, its value. */
  datatype Item = Item(key: Bytes, location: Bytes, value: Bytes)

  function Word(n: nat): Bytes { Fixed(n, WORD) }

  function EncGroup(g: GroupMeta): Bytes {
    var list := GroupValue(g.front, g.segments);
    Word(g.id) + (Word(|list|) + list)
  }

  function EncGroups(gs: seq<GroupMeta>): Bytes { if gs == [] then [] else EncGroup(gs[0]) + EncGroups(gs[1..]) }

  /** An update log leaves values out. */
  function EncItem(i: Item, isUpdate: bool): Bytes {
    i.key + (Word(|i.location|) + (i.location + if isUpdate then [] else Word(|i.value|) + i.value))
  }

  function EncItems(items: seq<Item>, isUpdate: bool): Bytes {
    if items == [] then [] else EncItem(items[0], isUpdate) + EncItems(items[1..], isUpdate)
  }

  function EncFrame(gs: seq<GroupMeta>, items: seq<Item>, isUpdate: bool): Bytes {
    Word(|gs|) + (EncGroups(gs) + (Word(|items|) + EncItems(items, isUpdate))) + MAGIC
  }

  predicate GroupWide(g: GroupMeta) { g.id < U64 && |GroupValue(g.front, g.segments)| < U64 }

  predicate ItemWide(i: Item, isUpdate: bool) {
    |i.key| == VLogRecords.KEY_SIZE && 0 < |i.location| < U64 && |i.value| < U64 && (isUpdate ==> i.value == [])
  }

  predicate FrameWide(gs: seq<GroupMeta>, items: seq<Item>, isUpdate: bool) {
    && |gs| < U64 && |items| < U64 && items != []
    && (forall k :: 0 <= k < |gs| ==> GroupWide(gs[k]))
    && (forall k :: 0 <= k < |items| ==> ItemWide(items[k], isUpdate))
  }

  /** A word at the front, and what follows it. */
  function GetWord(s: Bytes): Option<(nat, Bytes)> {
    if |s| < WORD then None else Some((FromFixed(s[..WORD]), s[WORD..]))
  }

  function GetBytes(s: Bytes, n: nat): Option<(Bytes, Bytes)> { if |s| < n then None else Some((s[..n], s[n..])) }

  lemma WordRoundTrip(n: nat, rest: Bytes)
    requires n < U64
    ensures GetWord(Word(n) + rest) == Some((n, rest))
  {
    Fixed64RoundTrip(n);
    hide Fixed, FromFixed;
    assert (Word(n) + rest)[..WORD] == Word(n) && (Word(n) + rest)[WORD..] == rest;
  }

  lemma BytesRoundTrip(b: Bytes, rest: Bytes)
    ensures GetBytes(b + rest, |b|) == Some((b, rest))
  {
    assert (b + rest)[..|b|] == b && (b + rest)[|b|..] == rest;
  }

  function DecGroup(s: Bytes): Option<(GroupMeta, Bytes)> {
    match GetWord(s) case None => None case Some(id) =>
    match GetWord(id.1) case None => None case Some(len) =>
    match GetBytes(len.1, len.0) case None => None case Some(list) =>
    match ParseGroup(list.0) case None => None case Some(p) => Some((GroupMeta(id.0, p.0, p.1), list.1))
  }

  function DecItem(s: Bytes, isUpdate: bool): (r: Option<(Item, Bytes)>)
    ensures r.Some? ==> |r.value.1| < |s|
  {
    match GetBytes(s, VLogRecords.KEY_SIZE) case None => None case Some(key) =>
    match GetWord(key.1) case None => None case Some(len) =>
    match GetBytes(len.1, len.0) case None => None case Some(loc) =>
    if isUpdate then Some((Item(key.0, loc.0, []), loc.1))
    else
      match GetWord(loc.1) case None => None case Some(vlen) =>
      match GetBytes(vlen.1, vlen.0) case None => None case Some(v) => Some((Item(key.0, loc.0, v.0), v.1))
  }

  lemma GroupFieldRoundTrip(g: GroupMeta, rest: Bytes)
    requires GroupWide(g)
    ensures DecGroup(EncGroup(g) + rest) == Some((g, rest))
  {
    hide Word, GetWord, GetBytes, GroupValue, ParseGroup;
    var list := GroupValue(g.front, g.segments);
    assert EncGroup(g) + rest == Word(g.id) + (Word(|list|) + (list + rest));
    WordRoundTrip(g.id, Word(|list|) + (list + rest));
    WordRoundTrip(|list|, list + rest);
    BytesRoundTrip(list, rest);
    GroupRoundTrip(g.front, g.segments);
  }

  lemma ItemRoundTrip(i: Item, isUpdate: bool, rest: Bytes)
    requires ItemWide(i, isUpdate)
    ensures DecItem(EncItem(i, isUpdate) + rest, isUpdate) == Some((i, rest))
  {
    hide Word, GetWord, GetBytes;
    var s2 := if isUpdate then rest else Word(|i.value|) + (i.value + rest);
    var s1 := Word(|i.location|) + (i.location + s2);
    assert EncItem(i, isUpdate) + rest == i.key + s1;
    BytesRoundTrip(i.key, s1);
    WordRoundTrip(|i.location|, i.location + s2);
    BytesRoundTrip(i.location, s2);
    if !isUpdate {
      WordRoundTrip(|i.value|, i.value + rest);
      BytesRoundTrip(i.value, rest);
    }
  }

  predicate Complete(log: Bytes) { |log| >= |MAGIC| && log[|log| - |MAGIC|..] == MAGIC }

  function DecGroups(s: Bytes, n: nat): Option<(seq<GroupMeta>, Bytes)>
    decreases n
  {
    if n == 0 then Some(([], s))
    else
      match DecGroup(s) case None => None case Some(g) =>
      match DecGroups(g.1, n - 1) case None => None case Some(gs) => Some(([g.0] + gs.0, gs.1))
  }

  function DecItems(s: Bytes, isUpdate: bool): Option<seq<Item>>
    decreases |s|
  {
    if s == [] then Some([])
    else
      match DecItem(s, isUpdate) case None => None case Some(i) =>
      match DecItems(i.1, isUpdate) case None => None case Some(rest) => Some([i.0] + rest)
  }

  /**
   * A log without its end mark is ignored; keys are read until the text ends, and their number must be as announced.
   */
  function DecFrame(log: Bytes, isUpdate: bool): Option<(seq<GroupMeta>, seq<Item>)> {
    if !Complete(log) then None
    else
      match GetWord(log[..|log| - |MAGIC|]) case None => None case Some(n) =>
      match DecGroups(n.1, n.0) case None => None case Some(gs) =>
      match GetWord(gs.1) case None => None case Some(k) =>
      match DecItems(k.1, isUpdate) case None => None case Some(items) =>
        if |items| == k.0 then Some((gs.0, items)) else None
  }

  lemma {:induction false} GroupsRoundTrip(gs: seq<GroupMeta>, rest: Bytes)
    requires forall k :: 0 <= k < |gs| ==> GroupWide(gs[k])
    ensures DecGroups(EncGroups(gs) + rest, |gs|) == Some((gs, rest))
    decreases |gs|
  {
    hide EncGroup, DecGroup, GroupWide;
    if gs == [] {
      assert EncGroups(gs) + rest == rest;
    } else {
      var tail := EncGroups(gs[1..]) + rest;
      assert EncGroups(gs) + rest == EncGroup(gs[0]) + tail;
      GroupFieldRoundTrip(gs[0], tail);
      GroupsRoundTrip(gs[1..], rest);
      assert [gs[0]] + gs[1..] == gs;
    }
  }

  lemma {:induction false} ItemsFieldRoundTrip(items: seq<Item>, isUpdate: bool)
    requires forall k :: 0 <= k < |items| ==> ItemWide(items[k], isUpdate)
    ensures DecItems(EncItems(items, isUpdate), isUpdate) == Some(items)
    decreases |items|
  {
    hide EncItem, DecItem;
    if items != [] {
      var tail := EncItems(items[1..], isUpdate);
      ItemRoundTrip(items[0], isUpdate, tail);
      ItemsFieldRoundTrip(items[1..], isUpdate);
      assert [items[0]] + items[1..] == items;
    }
  }

  /** Reading a complete frame gives back the groups, keys and locations that were written, in order. */
  lemma FrameRoundTrip(gs: seq<GroupMeta>, items: seq<Item>, isUpdate: bool)
    requires FrameWide(gs, items, isUpdate)
    ensures DecFrame(EncFrame(gs, items, isUpdate), isUpdate) == Some((gs, items))
  {
    hide Word, GetWord, EncGroups, DecGroups, EncItems, DecItems, GroupWide, ItemWide;
    var s2 := Word(|items|) + EncItems(items, isUpdate);
    var s1 := EncGroups(gs) + s2;
    var log := EncFrame(gs, items, isUpdate);
    assert log == Word(|gs|) + s1 + MAGIC;
    assert log[..|log| - |MAGIC|] == Word(|gs|) + s1 && log[|log| - |MAGIC|..] == MAGIC;
    WordRoundTrip(|gs|, s1);
    GroupsRoundTrip(gs, s2);
    WordRoundTrip(|items|, EncItems(items, isUpdate));
    ItemsFieldRoundTrip(items, isUpdate);
  }

  /** Appends one frame to the log buffer; no keys, no frame. */
  method WriteBatch(gs: seq<GroupMeta>, items: seq<Item>, isUpdate: bool) returns (log: Option<Bytes>)
    ensures log == if items == [] then None else Some(EncFrame(gs, items, isUpdate))
  {
    hide EncGroup, EncItem, Word;
    if items == [] { return None; }
    var buffer := Word(|gs|);
    for i := 0 to |gs|
      invariant buffer + EncGroups(gs[i..]) == Word(|gs|) + EncGroups(gs)
    {
      assert gs[i..][1..] == gs[i + 1..];
      assert buffer + (EncGroup(gs[i]) + EncGroups(gs[i + 1..])) == buffer + EncGroup(gs[i]) + EncGroups(gs[i + 1..]);
      buffer := buffer + EncGroup(gs[i]);
    }
    assert buffer == Word(|gs|) + EncGroups(gs);
    buffer := buffer + Word(|items|);
    ghost var head := buffer;
    for i := 0 to |items|
      invariant buffer + EncItems(items[i..], isUpdate) == head + EncItems(items, isUpdate)
    {
      assert items[i..][1..] == items[i + 1..];
      var one := EncItem(items[i], isUpdate);
      assert buffer + (one + EncItems(items[i + 1..], isUpdate)) == buffer + one + EncItems(items[i + 1..], isUpdate);
      buffer := buffer + one;
    }
    assert buffer == head + EncItems(items, isUpdate);
    assert head + EncItems(items, isUpdate) ==
        Word(|gs|) + (EncGroups(gs) + (Word(|items|) + EncItems(items, isUpdate)));
    return Some(buffer + MAGIC);
  }

  /** Scans a log from front to back. */
  method ReadBatch(log: Bytes, isUpdate: bool) returns (r: Option<(seq<GroupMeta>, seq<Item>)>)
    ensures r == DecFrame(log, isUpdate)
  {
    hide GetWord, DecGroup, DecItem;
    if !Complete(log) { return None; }
    var n := GetWord(log[..|log| - |MAGIC|]);
    if n.None? { return None; }
    var s, gs: seq<GroupMeta> := n.value.1, [];
    assert forall rest: seq<GroupMeta> :: gs + rest == rest;
    for i := 0 to n.value.0
      invariant DecGroups(n.value.1, n.value.0) ==
                match DecGroups(s, n.value.0 - i) case None => None case Some(p) => Some((gs + p.0, p.1))
    {
      var g := DecGroup(s);
      if g.None? { return None; }
      assert forall rest: seq<GroupMeta> :: gs + ([g.value.0] + rest) == gs + [g.value.0] + rest;
      s, gs := g.value.1, gs + [g.value.0];
    }
    assert gs + [] == gs;
    var k := GetWord(s);
    if k.None? { return None; }
    ghost var whole := DecItems(k.value.1, isUpdate);
    var items: seq<Item> := [];
    s := k.value.1;
    assert forall rest: seq<Item> :: items + rest == rest;
    while s != []
      invariant whole == match DecItems(s, isUpdate) case None => None case Some(rest) => Some(items + rest)
      decreases |s|
    {
      var i := DecItem(s, isUpdate);
      if i.None? { return None; }
      assert forall rest: seq<Item> :: items + ([i.value.0] + rest) == items + [i.value.0] + rest;
      s, items := i.value.1, items + [i.value.0];
    }
    assert items + [] == items;
    return if |items| == k.value.0 then Some((gs, items)) else None;
  }
}
