/** How a GC pass over the value log ends, foretold from the sizes and the liveness of the records it begins with. */
module VLogOutcome {
  import opened Modular
  import opened Coding
  import opened VLogDevice
  import opened VLogRecords
  import opened VLogPass

  /** How a GC pass ends. All but the first end the process or never come about in it. */
  datatype Outcome =
    | Done
    | Exhausted       // gone once round without finding enough garbage: the source scans for ever
    | PastWriteFront  // the scan would read beyond the write front
    | Misaligned      // the scan does not end on a record boundary: the source exits

  // ---------------------------------------------------------------- a pass over sizes and liveness

  datatype Item = Item(size: nat, live: bool)

  /**
   * What the end of a pass depends on: the records still to be parsed, the sizes of those waiting to be written
   * back, the bytes read but not parsed and the bytes found dead.
   */
  datatype Tape = Tape(items: seq<Item>, buffered: seq<nat>, rest: nat, dead: nat)

  function Extent(items: seq<Item>): nat
    decreases |items|
  {
    if items == [] then 0 else Extent(items[..|items| - 1]) + items[|items| - 1].size
  }

  function Total(sizes: seq<nat>): nat
    decreases |sizes|
  {
    if sizes == [] then 0 else Total(sizes[..|sizes| - 1]) + sizes[|sizes| - 1]
  }

  function Alive(sizes: seq<nat>): seq<Item> { seq(|sizes|, i requires 0 <= i < |sizes| => Item(sizes[i], true)) }

  /** There is a whole record in the buffer. */
  predicate Whole(t: Tape) { t.items != [] && 0 < t.items[0].size <= t.rest }

  function Returned(t: Tape): Tape { t.(items := t.items + Alive(t.buffered), buffered := []) }

  function Roomy(t: Tape, g: nat): Tape
    requires t.items != []
  {
    if Total(t.buffered) + t.items[0].size > g then Returned(t) else t
  }

  function Passed(t: Tape): Tape
    requires Whole(t)
  {
    t.(items := t.items[1..], rest := t.rest - t.items[0].size, dead := t.dead + t.items[0].size)
  }

  function Taken(t: Tape): Tape
    requires Whole(t)
  {
    t.(items := t.items[1..], rest := t.rest - t.items[0].size, buffered := t.buffered + [t.items[0].size])
  }

  /** One record: a dead one is left behind, a live one joins the write buffer, which is written back if it is full. */
  function ParsedOne(t: Tape, g: nat): (r: Tape)
    requires Whole(t)
    ensures r.rest < t.rest
  {
    if t.items[0].live then Taken(Roomy(t, g)) else Passed(t)
  }

  function Parsed(t: Tape, g: nat): (r: Tape)
    ensures r.rest <= t.rest
    decreases t.rest
  {
    if Whole(t) then Parsed(ParsedOne(t, g), g) else t
  }

  /** The end of a pass with a read buffer of g bytes and `left` bytes to go once round. */
  function Ending(t: Tape, g: nat, left: nat): Outcome
    decreases left
  {
    if t.dead >= g then (if t.rest > 0 then Misaligned else Done)
    else if t.rest >= g then Misaligned
    else if left == 0 then Exhausted
    else
      var n := g - t.rest;
      if n > Extent(t.items) - t.rest then PastWriteFront
      else Ending(Parsed(t.(rest := g), g), g, if left > n then left - n else 0)
  }

  // ---------------------------------------------------------------- records of one size

  ghost predicate OneSize(t: Tape, n: nat) {
    && (forall i :: 0 <= i < |t.items| ==> t.items[i].size == n)
    && (forall i :: 0 <= i < |t.buffered| ==> t.buffered[i] == n)
  }

  lemma FrontBytes(items: seq<Item>)
    requires items != []
    ensures Extent(items) == items[0].size + Extent(items[1..])
    decreases |items|
  {
    if |items| > 1 {
      var front := items[..|items| - 1];
      FrontBytes(front);
      assert items[1..][..|items| - 2] == front[1..];
    }
  }

  lemma {:induction false} BytesJoin(a: seq<Item>, b: seq<Item>)
    ensures Extent(a + b) == Extent(a) + Extent(b)
    decreases |b|
  {
    if b == [] {
      assert a + b == a;
    } else {
      assert (a + b)[..|a + b| - 1] == a + b[..|b| - 1];
      BytesJoin(a, b[..|b| - 1]);
    }
  }

  lemma ModStep(r: nat, n: nat)
    requires 0 < n <= r
    ensures (r - n) % n == r % n
  {
    RemainderIs(r, (r - n) / n + 1, (r - n) % n, n);
  }

  lemma SmallMod(r: nat, n: nat)
    requires r < n
    ensures r % n == r
  {
  }

  /** Parsing one record uses up its bytes, of the buffer and of what is to come. */
  lemma ParsedOneBytes(t: Tape, g: nat)
    requires Whole(t) && t.rest <= Extent(t.items)
    ensures ParsedOne(t, g).rest == t.rest - t.items[0].size && ParsedOne(t, g).rest <= Extent(ParsedOne(t, g).items)
  {
    hide Extent, Total;
    var u := if t.items[0].live then Roomy(t, g) else t;
    BytesJoin(t.items, Alive(t.buffered));
    assert u.items[0] == t.items[0];
    FrontBytes(u.items);
  }

  lemma ParsedOneSize(t: Tape, g: nat, n: nat)
    requires Whole(t) && OneSize(t, n)
    ensures OneSize(ParsedOne(t, g), n)
  {
    hide Total;
  }

  /** As long as there are enough records, parsing leaves the remainder of what was read. */
  lemma {:induction false} ParsedEven(t: Tape, g: nat, n: nat)
    requires 0 < n && OneSize(t, n) && t.rest <= Extent(t.items)
    ensures OneSize(Parsed(t, g), n) && Parsed(t, g).rest == t.rest % n
    ensures Parsed(t, g).rest <= Extent(Parsed(t, g).items)
    decreases t.rest
  {
    hide ParsedOne;
    if Whole(t) {
      assert t.items[0].size == n;
      ParsedOneBytes(t, g);
      ParsedOneSize(t, g, n);
      ParsedEven(ParsedOne(t, g), g, n);
      ModStep(t.rest, n);
    } else {
      SmallMod(t.rest, n);
    }
  }

  /**
   * With records of one size a pass ends well only if that size divides the GC size, and misaligned only if it does
   * not.
   */
  lemma {:induction false} OneSizeEnds(t: Tape, g: nat, n: nat, left: nat)
    requires 0 < n && 0 < g && OneSize(t, n) && t.rest <= Extent(t.items) && t.rest == g % n
    ensures Ending(t, g, left).Done? ==> g % n == 0
    ensures Ending(t, g, left).Misaligned? ==> g % n != 0
    decreases left
  {
    if t.dead < g && t.rest < g && left > 0 && g <= Extent(t.items) {
      var u := t.(rest := g);
      ParsedEven(u, g, n);
      var m := g - t.rest;
      OneSizeEnds(Parsed(u, g), g, n, if left > m then left - m else 0);
    }
  }

  // ---------------------------------------------------------------- a pass over records of any sizes

  /** Where item p starts. */
  function Pos(items: seq<Item>, p: nat): nat
    requires p <= |items|
  {
    Extent(items[..p])
  }

  /** Bytes of the dead ones among the first p items. */
  function DeadSum(items: seq<Item>, p: nat): nat
    requires p <= |items|
  {
    if p == 0 then 0 else DeadSum(items, p - 1) + if items[p - 1].live then 0 else items[p - 1].size
  }

  lemma PosStep(items: seq<Item>, p: nat)
    requires p < |items|
    ensures Pos(items, p + 1) == Pos(items, p) + items[p].size
  {
    assert items[..p + 1][..p] == items[..p];
  }

  lemma {:induction false} PosGrows(items: seq<Item>, p: nat, q: nat)
    requires p <= q <= |items|
    ensures Pos(items, p) <= Pos(items, q) && DeadSum(items, p) <= DeadSum(items, q)
    ensures Pos(items, |items|) == Extent(items)
    decreases q - p
  {
    assert items[..|items|] == items;
    if p < q {
      PosStep(items, p);
      PosGrows(items, p + 1, q);
    }
  }

  /** The pass has left the first p of the items it began with behind. */
  ghost predicate Behind(own: seq<Item>, t: Tape, p: nat) {
    && p <= |own| && own[p..] <= t.items && t.dead == DeadSum(own, p)
    && forall i :: 0 <= i < |own| ==> own[i].size > 0
  }

  lemma BehindStep(own: seq<Item>, t: Tape, g: nat, p: nat)
    requires Behind(own, t, p) && p < |own| && own[p].size <= t.rest
    ensures Whole(t) && t.items[0] == own[p]
    ensures Behind(own, ParsedOne(t, g), p + 1) && ParsedOne(t, g).rest == t.rest - own[p].size
  {
    hide Total;
    assert t.items[0] == own[p..][0];
    assert own[p..][1..] == own[p + 1..];
  }

  /** Parsing goes on to the last item that ends in the buffer. */
  lemma {:induction false} ParsedTo(own: seq<Item>, t: Tape, g: nat, p: nat, q: nat)
    requires Behind(own, t, p) && p <= q <= |own| && Pos(own, q) <= Pos(own, p) + t.rest <= Extent(own)
    requires q < |own| ==> Pos(own, p) + t.rest < Pos(own, q + 1)
    ensures Behind(own, Parsed(t, g), q) && Parsed(t, g).rest == Pos(own, p) + t.rest - Pos(own, q)
    decreases q - p
  {
    hide ParsedOne, Pos, Extent;
    if p < q {
      PosStep(own, p);
      PosGrows(own, p + 1, q);
      BehindStep(own, t, g, p);
      ParsedTo(own, ParsedOne(t, g), g, p + 1, q);
    } else if p < |own| {
      PosStep(own, p);
      assert t.items[0] == own[p..][0];
    } else {
      PosGrows(own, p, p);
    }
  }

  /** The items at which one full buffer after the other stops, until enough garbage is found. */
  ghost predicate Stops(items: seq<Item>, g: nat, ps: seq<nat>) {
    && |ps| >= 2 && ps[0] == 0 && (forall i :: 0 <= i < |ps| ==> ps[i] <= |items|)
    && DeadSum(items, ps[|ps| - 1]) >= g
    && forall i :: 0 <= i < |ps| - 1 ==> NextStop(items, g, ps[i], ps[i + 1])
  }

  ghost predicate NextStop(items: seq<Item>, g: nat, p: nat, q: nat) {
    && p < q <= |items| && DeadSum(items, p) < g
    && Pos(items, q) <= Pos(items, p) + g <= Extent(items) && (q < |items| ==> Pos(items, p) + g < Pos(items, q + 1))
  }

  lemma {:induction false} StopsFrom(own: seq<Item>, t: Tape, g: nat, ps: seq<nat>, j: nat)
    requires 0 < g && Stops(own, g, ps) && j < |ps| - 1 && Behind(own, t, ps[j])
    requires t.rest < g && (j == 0 ==> t.rest == 0) && (j > 0 ==> t.rest == Pos(own, ps[j - 1]) + g - Pos(own, ps[j]))
    ensures var n := |ps| - 1;
            Ending(t, g, Extent(own) - Pos(own, ps[j]) - t.rest) ==
            if Pos(own, ps[n]) == Pos(own, ps[n - 1]) + g then Done else Misaligned
    decreases |ps| - j
  {
    hide Pos, Extent, DeadSum, Parsed;
    var left := Extent(own) - Pos(own, ps[j]) - t.rest;
    assert NextStop(own, g, ps[j], ps[j + 1]);
    EnoughAhead(own, t, ps[j]);
    var u := t.(rest := g);
    assert Behind(own, u, ps[j]);
    ParsedTo(own, u, g, ps[j], ps[j + 1]);
    var v := Parsed(u, g);
    if j + 1 < |ps| - 1 {
      assert NextStop(own, g, ps[j + 1], ps[j + 2]);
      RestBelow(own, g, ps[j], ps[j + 1]);
      StopsFrom(own, v, g, ps, j + 1);
    }
  }

  lemma EnoughAhead(own: seq<Item>, t: Tape, p: nat)
    requires Behind(own, t, p)
    ensures Extent(t.items) >= Extent(own) - Pos(own, p)
  {
    hide Extent;
    assert own == own[..p] + own[p..] && t.items == own[p..] + t.items[|own| - p..];
    BytesJoin(own[..p], own[p..]);
    BytesJoin(own[p..], t.items[|own| - p..]);
  }

  lemma RestBelow(own: seq<Item>, g: nat, p: nat, q: nat)
    requires NextStop(own, g, p, q) && forall i :: 0 <= i < |own| ==> own[i].size > 0
    ensures Pos(own, p) < Pos(own, q)
  {
    hide Extent;
    PosStep(own, p);
    PosGrows(own, p + 1, q);
  }

  /**
   * A pass that finds enough garbage among the records it begins with: it ends well if and only if the buffer in
   * which it finds the last of it ends where a record ends.
   */
  lemma StopsExact(t: Tape, g: nat, ps: seq<nat>)
    requires 0 < g && t.rest == 0 && t.dead == 0 && (forall i :: 0 <= i < |t.items| ==> t.items[i].size > 0)
    requires Stops(t.items, g, ps)
    ensures var n := |ps| - 1;
            Ending(t, g, Extent(t.items)) ==
            if Pos(t.items, ps[n]) == Pos(t.items, ps[n - 1]) + g then Done else Misaligned
  {
    hide Ending, Stops;
    assert t.items[0..] == t.items && t.items[..0] == [];
    StopsBegin(t.items, g, ps);
    StopsFrom(t.items, t, g, ps, 0);
  }

  lemma StopsBegin(items: seq<Item>, g: nat, ps: seq<nat>)
    requires Stops(items, g, ps)
    ensures |ps| >= 2 && ps[0] == 0
  {
  }

  // ---------------------------------------------------------------- when a pass over records of one size ends well

  function DeadCount(items: seq<Item>, p: nat): (r: nat)
    requires p <= |items|
    ensures r <= p
  {
    if p == 0 then 0 else DeadCount(items, p - 1) + if items[p - 1].live then 0 else 1
  }

  lemma {:induction false} DeadCountGrows(items: seq<Item>, p: nat, q: nat)
    requires p <= q <= |items|
    ensures DeadCount(items, p) <= DeadCount(items, q)
    decreases q - p
  {
    if p < q { DeadCountGrows(items, p + 1, q); }
  }

  /** The items that fill whole buffers of k. */
  function Filled(items: seq<Item>, k: nat): (p: nat)
    requires k > 0
    ensures p <= |items| && |items| - p < k
  {
    WrapBelow(|items|, k);
    |items| - Wrap(|items|, k)
  }

  /**
   * There is a buffer's worth of dead records among those that fill whole buffers; or there is one among all
   * records, and the live ones before the last, partial buffer are more than the write buffer holds, so that some of
   * them are back in the log and complete it.
   */
  predicate Ripe(items: seq<Item>, k: nat)
    requires k > 0
  {
    var p := Filled(items, k);
    || DeadCount(items, p) >= k
    || (p < |items| && DeadCount(items, |items|) >= k && p - DeadCount(items, p) > k)
  }

  /** The tape after p of the items it began with, x of them being back at its end. */
  ghost predicate Along(own: seq<Item>, t: Tape, n: nat, k: nat, p: nat, x: nat) {
    && OneSize(t, n) && p <= |own| && |t.items| == |own| - p + x && own[p..] <= t.items
    && (forall i :: |own| - p <= i < |t.items| ==> t.items[i].live)
    && t.dead == Times(n, DeadCount(own, p))
    && x + |t.buffered| == p - DeadCount(own, p)
    && (x == 0 || x >= k) && |t.buffered| <= k && (t.buffered == [] ==> x == 0)
  }

  lemma {:induction false} EvenTotal(sizes: seq<nat>, n: nat)
    requires forall i :: 0 <= i < |sizes| ==> sizes[i] == n
    ensures Total(sizes) == Times(n, |sizes|)
    decreases |sizes|
  {
    if sizes != [] { EvenTotal(sizes[..|sizes| - 1], n); }
  }

  lemma {:induction false} EvenExtent(items: seq<Item>, n: nat)
    requires forall i :: 0 <= i < |items| ==> items[i].size == n
    ensures Extent(items) == Times(n, |items|)
    decreases |items|
  {
    if items != [] { EvenExtent(items[..|items| - 1], n); }
  }

  function Times(n: nat, a: nat): nat { n * a }

  lemma TimesMinus(n: nat, a: nat, b: nat)
    requires a >= b
    ensures Times(n, a) == Times(n, b) + Times(n, a - b)
  {
    assert n * a == n * b + n * (a - b);
  }

  lemma TimesFacts(n: nat, a: nat, b: nat)
    requires n > 0
    ensures Times(n, a) >= Times(n, b) <==> a >= b
    ensures Times(n, a + 1) == Times(n, a) + n && Times(n, 0) == 0
    ensures a >= b ==> Times(n, a) - Times(n, b) == Times(n, a - b)
  {
    assert Times(n, 1) == n && Times(n, 0) == 0;
    TimesMinus(n, a + 1, a);
    if a >= b {
      TimesMinus(n, a, b);
    } else {
      TimesMinus(n, b, a);
      assert Times(n, b - a) >= n by { Multiples(n, b - a); }
    }
  }

  lemma RoomyEven(t: Tape, n: nat, k: nat)
    requires OneSize(t, n) && t.items != [] && 0 < n && |t.buffered| <= k
    ensures Roomy(t, Times(n, k)) == if |t.buffered| == k then Returned(t) else t
  {
    EvenTotal(t.buffered, n);
    hide Total, Times;
    TimesFacts(n, |t.buffered|, k);
    TimesFacts(n, |t.buffered| + 1, k);
  }

  lemma AlongStep(own: seq<Item>, t: Tape, n: nat, k: nat, p: nat, x: nat) returns (y: nat)
    requires Along(own, t, n, k, p, x) && p < |own| && 0 < n <= t.rest && 0 < k
    ensures Whole(t) && Along(own, ParsedOne(t, Times(n, k)), n, k, p + 1, y)
    ensures ParsedOne(t, Times(n, k)).rest == t.rest - n
  {
    hide Total, Times, Roomy;
    assert t.items[0] == own[p..][0] == own[p] && own[p..][1..] == own[p + 1..];
    RoomyEven(t, n, k);
    TimesFacts(n, DeadCount(own, p), 0);
    y := if own[p].live && |t.buffered| == k then x + k else x;
  }

  /** Beyond the items it began with a pass finds only live ones. */
  lemma {:induction false} LiveParsed(t: Tape, n: nat, g: nat)
    requires 0 < n && OneSize(t, n) && forall i :: 0 <= i < |t.items| ==> t.items[i].live
    ensures Parsed(t, g).dead == t.dead
    decreases t.rest
  {
    hide Total;
    if Whole(t) {
      ParsedOneSize(t, g, n);
      LiveParsed(ParsedOne(t, g), n, g);
    }
  }

  lemma {:induction false} AlongParsed(own: seq<Item>, t: Tape, n: nat, k: nat, p: nat, x: nat, j: nat) returns (y: nat)
    requires Along(own, t, n, k, p, x) && 0 < n && 0 < k && t.rest == Times(n, j)
    ensures var r := Parsed(t, Times(n, k));
            if p + j <= |own| then Along(own, r, n, k, p + j, y) && r.rest == 0
            else r.dead == Times(n, DeadCount(own, |own|))
    decreases j
  {
    hide ParsedOne, Times;
    TimesFacts(n, j, 0);
    if p < |own| && j > 0 {
      TimesFacts(n, j - 1, 0);
      y := AlongStep(own, t, n, k, p, x);
      hide Along;
      y := AlongParsed(own, ParsedOne(t, Times(n, k)), n, k, p + 1, y, j - 1);
    } else {
      if j > 0 { LiveParsed(t, n, Times(n, k)); }
      y := x;
    }
  }

  lemma WrapBelow(r: nat, k: nat)
    requires k > 0
    ensures Wrap(r, k) <= r
  {
    hide Wrap;
    if r < k { WrapSmall(r, k); }
  }

  lemma WholeBuffers(total: nat, p: nat, k: nat)
    requires k > 0 && Wrap(p, k) == 0 && p <= total
    ensures total - p < k <==> p == total - Wrap(total, k)
    ensures p + k <= total ==> Wrap(p + k, k) == 0 && p + k <= total - Wrap(total, k)
  {
    hide Wrap;
    var d := total - p;
    WrapAdd(p, d, k);
    WrapTurn(p, k);
    if d < k {
      WrapSmall(d, k);
    } else {
      WrapTurn(d - k, k);
      WrapBelow(d - k, k);
    }
  }

  lemma FilledIs(items: seq<Item>, p: nat, k: nat)
    requires k > 0 && Wrap(p, k) == 0 && p <= |items|
    ensures |items| - p < k <==> p == Filled(items, k)
    ensures p + k <= |items| ==> Wrap(p + k, k) == 0 && p + k <= Filled(items, k)
  {
    WholeBuffers(|items|, p, k);
  }

  /** One more whole buffer. */
  lemma EvenChunk(own: seq<Item>, t: Tape, n: nat, k: nat, p: nat, x: nat) returns (y: nat)
    requires Along(own, t, n, k, p, x) && 0 < n && 0 < k && t.rest == 0 && DeadCount(own, p) < k && p + k <= |own|
    ensures var g, left := Times(n, k), Times(n, |own| - p);
            var r := Parsed(t.(rest := g), g);
            && Along(own, r, n, k, p + k, y) && r.rest == 0 && left >= g > 0 && left - g == Times(n, |own| - p - k)
            && Ending(t, g, left) == Ending(r, g, left - g)
  {
    hide Times, Parsed, DeadCount, Extent;
    TimesFacts(n, DeadCount(own, p), k);
    TimesFacts(n, |own| - p, k);
    TimesFacts(n, 0, k);
    EvenExtent(t.items, n);
    TimesFacts(n, |t.items|, k);
    var u := t.(rest := Times(n, k));
    assert Along(own, u, n, k, p, x);
    y := AlongParsed(own, u, n, k, p, x, k);
  }

  /** The last, partial buffer. */
  lemma EvenLast(own: seq<Item>, t: Tape, n: nat, k: nat, p: nat, x: nat)
    requires Along(own, t, n, k, p, x) && 0 < n && 0 < k && t.rest == 0 && DeadCount(own, p) < k && |own| < p + k
    ensures Ending(t, Times(n, k), Times(n, |own| - p)).Done? <==>
            p < |own| && DeadCount(own, |own|) >= k && p - DeadCount(own, p) > k
  {
    hide Times, Parsed, DeadCount, Extent;
    var g, left := Times(n, k), Times(n, |own| - p);
    TimesFacts(n, DeadCount(own, p), k);
    TimesFacts(n, |own| - p, k);
    TimesFacts(n, 0, |own| - p);
    TimesFacts(n, 0, k);
    EvenExtent(t.items, n);
    TimesFacts(n, |t.items|, k);
    if p < |own| && k <= |t.items| {
      var u := t.(rest := g);
      assert Along(own, u, n, k, p, x);
      var y := AlongParsed(own, u, n, k, p, x, k);
      TimesFacts(n, DeadCount(own, |own|), k);
      ParsedEven(u, g, n);
      MultipleRest(n, k);
      var v := Parsed(u, g);
      assert Ending(t, g, left) == Ending(v, g, 0);
      assert Ending(v, g, 0) == if v.dead >= g then Done else Exhausted;
    }
  }

  /** The rest of a pass over records of one size that fills k of them into a buffer. */
  lemma {:induction false} EvenEnding(own: seq<Item>, t: Tape, n: nat, k: nat, p: nat, x: nat)
    requires Along(own, t, n, k, p, x) && 0 < n && 0 < k && t.rest == 0 && Wrap(p, k) == 0 && DeadCount(own, p) < k
    ensures Ending(t, Times(n, k), Times(n, |own| - p)).Done? <==> Ripe(own, k)
    decreases |own| - p
  {
    hide Times, Parsed, DeadCount, Extent, Filled, Wrap;
    FilledIs(own, p, k);
    if p + k <= |own| {
      var y := EvenChunk(own, t, n, k, p, x);
      DeadCountGrows(own, p + k, Filled(own, k));
      TimesFacts(n, DeadCount(own, p + k), k);
      if DeadCount(own, p + k) < k {
        hide Along, Ripe;
        EvenEnding(own, Parsed(t.(rest := Times(n, k)), Times(n, k)), n, k, p + k, y);
      }
    } else {
      EvenLast(own, t, n, k, p, x);
    }
  }

  lemma MultipleRest(n: nat, k: nat)
    requires n > 0
    ensures Times(n, k) % n == 0
  {
    RemainderIs(n * k, k, 0, n);
  }

  /**
   * With records of one size a pass ends well if and only if that size divides the GC size and there is enough
   * garbage where the pass can get to.
   */
  lemma OneSizeExact(t: Tape, g: nat, n: nat)
    requires 0 < n && 0 < g && OneSize(t, n) && t.rest == 0 && t.dead == 0 && t.buffered == []
    ensures Ending(t, g, Extent(t.items)).Done? <==> g % n == 0 && g / n > 0 && Ripe(t.items, g / n)
  {
    hide Ending, Ripe;
    if g % n == 0 {
      var k := g / n;
      assert g == Times(n, k);
      assert t.items[0..] == t.items;
      assert Along(t.items, t, n, k, 0, 0);
      WrapSmall(0, k);
      EvenEnding(t.items, t, n, k, 0, 0);
      EvenExtent(t.items, n);
    } else {
      OneSizeUneven(t, g, n);
    }
  }

  lemma OneSizeUneven(t: Tape, g: nat, n: nat)
    requires 0 < n && 0 < g && OneSize(t, n) && t.rest == 0 && t.dead == 0 && g % n != 0
    ensures !Ending(t, g, Extent(t.items)).Done?
  {
    var left := Extent(t.items);
    if left > 0 && g <= left {
      var u := t.(rest := g);
      ParsedEven(u, g, n);
      OneSizeEnds(Parsed(u, g), g, n, left - g);
    }
  }

  // ---------------------------------------------------------------- a front of dead records

  lemma {:induction false} DeadParsed(t: Tape, g: nat, p: nat)
    requires p <= |t.items| && Extent(t.items[..p]) == t.rest
    requires forall i :: 0 <= i < p ==> !t.items[i].live && t.items[i].size > 0
    ensures Parsed(t, g).rest == 0 && Parsed(t, g).dead == t.dead + t.rest
    decreases p
  {
    if p > 0 {
      FrontBytes(t.items[..p]);
      assert t.items[..p][1..] == t.items[1..][..p - 1];
      DeadParsed(Passed(t), g, p - 1);
    }
  }

  /** A front of dead records that has exactly the GC size ends well. */
  lemma DeadFrontEnds(t: Tape, g: nat, p: nat, left: nat)
    requires t.rest == 0 && t.dead == 0 && 0 < g <= left && p <= |t.items| && Extent(t.items[..p]) == g
    requires forall i :: 0 <= i < p ==> !t.items[i].live && t.items[i].size > 0
    ensures Ending(t, g, left) == Done
  {
    BytesJoin(t.items[..p], t.items[p..]);
    assert t.items[..p] + t.items[p..] == t.items;
    DeadParsed(t.(rest := g), g, p);
  }

  // ---------------------------------------------------------------- the tape of a pass

  /** The record of key k at position x is the one the index means. */
  ghost predicate LiveAt(s: Pass, k: Key, x: nat) { k !in KeysOf(s.kept) && k in s.pos && s.pos[k] == x }

  ghost function ItemAt(s: Pass, i: nat): Item
    requires i < |s.recs|
  {
    Item(Size(s.recs[i]), LiveAt(s, s.recs[i].key, s.base + Start(s.recs, i)))
  }

  ghost function ItemsOf(s: Pass): seq<Item> { seq(|s.recs|, i requires 0 <= i < |s.recs| => ItemAt(s, i)) }

  function SizesOf(rs: seq<Rec>): seq<nat> { seq(|rs|, i requires 0 <= i < |rs| => Size(rs[i])) }

  ghost function TapeOf(s: Pass): Tape { Tape(ItemsOf(s), SizesOf(s.kept), |s.rest|, s.gcBytes) }

  lemma NoBytes()
    ensures EncAll([]) == []
  {
  }

  lemma StartsGrow(rs: seq<Rec>, i: nat, j: nat)
    requires i < j <= |rs|
    ensures Start(rs, i) + Size(rs[i]) <= Start(rs, j)
    ensures Start(rs, j) <= |EncAll(rs)|
  {
    hide EncAll, Enc;
    RecordAt(rs, i);
    assert rs[..j] == rs[..i + 1] + rs[i + 1..j];
    EncAllAppend(rs[..i + 1], rs[i + 1..j]);
    assert rs == rs[..j] + rs[j..];
    EncAllAppend(rs[..j], rs[j..]);
  }

  lemma {:induction false} TapeBytes(s: Pass, p: nat)
    requires p <= |s.recs|
    ensures Extent(ItemsOf(s)[..p]) == Start(s.recs, p)
    decreases p
  {
    hide EncAll, LiveAt;
    if p == 0 {
      NoBytes();
      assert s.recs[..0] == [];
    } else {
      TapeBytes(s, p - 1);
      RecordAt(s.recs, p - 1);
      assert ItemsOf(s)[..p][..p - 1] == ItemsOf(s)[..p - 1];
    }
  }

  lemma {:induction false} BufferBytes(rs: seq<Rec>)
    ensures Total(SizesOf(rs)) == |EncAll(rs)|
    decreases |rs|
  {
    hide EncAll;
    if rs == [] {
      NoBytes();
    } else {
      var n := |rs| - 1;
      BufferBytes(rs[..n]);
      RecordAt(rs, n);
      assert SizesOf(rs)[..n] == SizesOf(rs[..n]);
      assert rs[..n + 1] == rs;
    }
  }

  /** The tape says how many bytes there are to read and to write back. */
  lemma TapeMeasures(s: Pass)
    ensures Extent(TapeOf(s).items) == |EncAll(s.recs)| && Total(TapeOf(s).buffered) == |EncAll(s.kept)|
  {
    TapeBytes(s, |s.recs|);
    assert ItemsOf(s)[..|s.recs|] == ItemsOf(s) && s.recs[..|s.recs|] == s.recs;
    BufferBytes(s.kept);
  }

  /** Where records start once the first is gone. */
  lemma StartShift(rs: seq<Rec>, i: nat)
    requires i < |rs|
    ensures Start(rs, i + 1) == Size(rs[0]) + Start(rs[1..], i)
  {
    hide Enc;
    assert rs[..i + 1] == [rs[0]] + rs[1..][..i];
    EncAllAppend([rs[0]], rs[1..][..i]);
    assert EncAll([rs[0]]) == Enc(rs[0]) by { assert [rs[0]][1..] == []; }
  }

  lemma TapeHead(s: Pass, c: nat, g: nat, total: nat)
    requires PassInv(s, c, g, total) && s.recs != []
    ensures TapeOf(s).items != [] && TapeOf(s).items[0].size == Size(s.recs[0])
    ensures var k := s.recs[0].key; TapeOf(s).items[0].live <==> k in s.lsm && s.lsm[k].offset == Wrap(s.base, c)
  {
    hide PassInv, EncAll, Wrap;
    LiveTest(s, c, g, total);
    assert s.recs[..0] == [];
    NoBytes();
  }

  lemma TapeReclaimed(s: Pass)
    requires s.recs != [] && Size(s.recs[0]) <= |s.rest| && !TapeOf(s).items[0].live
    ensures Whole(TapeOf(s)) && TapeOf(Reclaimed(s)) == Passed(TapeOf(s))
  {
    hide EncAll;
    var t := Reclaimed(s);
    forall i | 0 <= i < |t.recs| ensures ItemAt(t, i) == ItemAt(s, i + 1) { StartShift(s.recs, i); }
    assert ItemsOf(t) == ItemsOf(s)[1..];
  }

  lemma TapeKept(s: Pass)
    requires s.recs != [] && Size(s.recs[0]) <= |s.rest| && TapeOf(s).items[0].live
    ensures Whole(TapeOf(s)) && TapeOf(Kept(s)) == Taken(TapeOf(s))
  {
    hide EncAll;
    var t, r := Kept(s), s.recs[0];
    assert s.recs[..0] == [];
    NoBytes();
    assert r in t.kept by { assert t.kept[|s.kept|] == r; }
    forall i | 0 <= i < |t.recs| ensures ItemAt(t, i) == ItemAt(s, i + 1) {
      StartShift(s.recs, i);
      StartsGrow(s.recs, 0, i + 1);
      KeptKeys(s.kept, r, s.recs[i + 1].key);
    }
    assert ItemsOf(t) == ItemsOf(s)[1..];
    assert SizesOf(t.kept) == SizesOf(s.kept) + [Size(r)];
  }

  lemma KeptKeys(kept: seq<Rec>, r: Rec, k: Key)
    ensures k in KeysOf(kept + [r]) <==> k in KeysOf(kept) || k == r.key
  {
    var all := kept + [r];
    assert all[|kept|] == r && forall i :: 0 <= i < |kept| ==> all[i] == kept[i];
    if k in KeysOf(kept) {
      var x :| x in kept && x.key == k;
      assert x in all;
    }
  }

  lemma MovedBeyond(s: Pass, w: nat, k: Key, x: nat)
    requires x < w
    ensures k !in KeysOf(s.kept) && k in s.pos && s.pos[k] == x <==>
            k in PutPos(s.pos, w, s.kept) && PutPos(s.pos, w, s.kept)[k] == x
  {
    hide PutPos, Start;
    PutPosAt(s.pos, w, s.kept, k);
    if Mentions(s.kept, k) {
      var j := LastExists(s.kept, k);
      assert s.kept[j] in s.kept;
    } else {
      assert k !in KeysOf(s.kept);
    }
  }

  /** A record still to be parsed is as live after a write-back as before. */
  lemma OldItem(s: Pass, c: nat, i: nat)
    requires c > 0 && |s.disk| == c && i < |s.recs|
    ensures ItemAt(WrittenBack(s, c), i) == ItemAt(s, i)
  {
    hide Wrap, PutLocs, PutPos, Written, EncAll;
    var t, w := WrittenBack(s, c), s.base + |EncAll(s.recs)|;
    assert t.recs[..i] == s.recs[..i];
    StartsGrow(s.recs, i, |s.recs|);
    assert s.recs[..|s.recs|] == s.recs;
    assert KeysOf([]) == {};
    MovedBeyond(s, w, s.recs[i].key, s.base + Start(s.recs, i));
  }

  /** A record written back is live. */
  lemma NewItem(s: Pass, c: nat, j: nat)
    requires c > 0 && |s.disk| == c && j < |s.kept| && Apart(s.kept)
    ensures ItemAt(WrittenBack(s, c), |s.recs| + j) == Item(Size(s.kept[j]), true)
  {
    hide Wrap, PutLocs, PutPos, Written, EncAll;
    var t, w := WrittenBack(s, c), s.base + |EncAll(s.recs)|;
    assert t.recs[..|s.recs| + j] == s.recs + s.kept[..j];
    EncAllAppend(s.recs, s.kept[..j]);
    assert KeysOf([]) == {};
    assert LastFor(s.kept, j, s.kept[j].key);
    PutPosAt(s.pos, w, s.kept, s.kept[j].key);
  }

  lemma TapeWrittenBack(s: Pass, c: nat)
    requires c > 0 && |s.disk| == c && Apart(s.kept)
    ensures TapeOf(WrittenBack(s, c)) == Returned(TapeOf(s))
  {
    hide Wrap, PutLocs, PutPos, Written, EncAll, ItemAt;
    var t := WrittenBack(s, c);
    forall i | 0 <= i < |s.recs| ensures ItemAt(t, i) == ItemAt(s, i) { OldItem(s, c, i); }
    forall j | 0 <= j < |s.kept| ensures ItemAt(t, |s.recs| + j) == Item(Size(s.kept[j]), true) { NewItem(s, c, j); }
    assert ItemsOf(t) == ItemsOf(s) + Alive(SizesOf(s.kept));
  }

  // ---------------------------------------------------------------- live and dead bytes

  /** The index does not lead to record i. */
  ghost predicate Dead(s: Pass, c: nat, i: nat)
    requires c > 0 && i < |s.recs|
  {
    !(s.recs[i].key in s.lsm && s.lsm[s.recs[i].key].offset == Wrap(s.base + Start(s.recs, i), c))
  }

  /** Bytes of the dead ones among the first p records. */
  ghost function DeadBytes(s: Pass, c: nat, p: nat): nat
    requires c > 0 && p <= |s.recs|
  {
    if p == 0 then 0 else DeadBytes(s, c, p - 1) + if Dead(s, c, p - 1) then Size(s.recs[p - 1]) else 0
  }

  /** Between passes the comparison of remainders decides the liveness of every record, and so the whole tape. */
  lemma TapeFromIndex(s: Pass, c: nat, g: nat)
    requires PassInv(s, c, g, |EncAll(s.recs)|) && Idle(s)
    ensures c > 0 && TapeOf(s).rest == 0 && TapeOf(s).dead == 0 && TapeOf(s).buffered == []
    ensures |TapeOf(s).items| == |s.recs|
    ensures forall i :: 0 <= i < |s.recs| ==> TapeOf(s).items[i] == Item(Size(s.recs[i]), !Dead(s, c, i))
  {
    hide Wrap, EncAll, Buffered, AllSized, Reads, Holds;
    assert KeysOf([]) == {};
    forall i | 0 <= i < |s.recs| ensures ItemAt(s, i) == Item(Size(s.recs[i]), !Dead(s, c, i)) {
      var k := s.recs[i].key;
      StartsGrow(s.recs, i, |s.recs|);
      if k in s.lsm {
        HoldsBounds(s.base, s.recs, s.pos[k], Rec(k, s.flushed[k]));
        if Wrap(s.pos[k], c) == Wrap(s.base + Start(s.recs, i), c) { WrapSame(s.pos[k], s.base + Start(s.recs, i), c); }
      }
    }
  }

  /** The bytes the records of a map take, one for each key. */
  ghost function LiveBytes(m: map<Key, Bytes>): nat
    decreases |m|
  {
    if m == map[] then 0
    else
      var k :| k in m;
      Size(Rec(k, m[k])) + LiveBytes(m - {k})
  }

  lemma {:induction false} LiveBytesRemove(m: map<Key, Bytes>, k: Key)
    requires k in m
    ensures LiveBytes(m) == Size(Rec(k, m[k])) + LiveBytes(m - {k})
    decreases |m|
  {
    var j :| j in m && LiveBytes(m) == Size(Rec(j, m[j])) + LiveBytes(m - {j});
    if j != k {
      LiveBytesRemove(m - {j}, k);
      LiveBytesRemove(m - {k}, j);
      assert m - {j} - {k} == m - {k} - {j};
    }
  }

  /** The keys whose records lie before position x. */
  ghost function Before(s: Pass, x: nat): map<Key, Bytes> {
    map k | k in s.flushed && k in s.pos && s.pos[k] < x :: s.flushed[k]
  }

  /** Only the record itself can lie between its start and the next one. */
  lemma BetweenStarts(s: Pass, c: nat, g: nat, i: nat, k: Key)
    requires PassInv(s, c, g, |EncAll(s.recs)|) && Idle(s) && i < |s.recs| && k in s.pos
    requires s.base + Start(s.recs, i) <= s.pos[k] < s.base + Start(s.recs, i + 1)
    ensures k in s.flushed && s.recs[i] == Rec(k, s.flushed[k]) && s.pos[k] == s.base + Start(s.recs, i)
  {
    hide Wrap, EncAll, Buffered, AllSized, Reads, Enc;
    assert KeysOf([]) == {};
    var j :| 0 <= j < |s.recs| && s.recs[j] == Rec(k, s.flushed[k]) && s.base + Start(s.recs, j) == s.pos[k];
    if i < j { StartsGrow(s.recs, i, j); RecordAt(s.recs, i); }
    if j < i { StartsGrow(s.recs, j, i); }
  }

  lemma BeforeStep(s: Pass, c: nat, g: nat, i: nat)
    requires PassInv(s, c, g, |EncAll(s.recs)|) && Idle(s) && i < |s.recs|
    requires ItemAt(s, i).live <==> !Dead(s, c, i)
    ensures var now, next := Before(s, s.base + Start(s.recs, i)), Before(s, s.base + Start(s.recs, i + 1));
            if Dead(s, c, i) then next == now
            else s.recs[i].key !in now && next == now[s.recs[i].key := s.recs[i].value]
  {
    hide Dead, EncAll, PassInv, Enc;
    RecordAt(s.recs, i);
    assert KeysOf([]) == {};
    forall k | k in s.pos && s.base + Start(s.recs, i) <= s.pos[k] < s.base + Start(s.recs, i + 1)
      ensures k in s.flushed && s.recs[i] == Rec(k, s.flushed[k]) && s.pos[k] == s.base + Start(s.recs, i)
    {
      BetweenStarts(s, c, g, i, k);
    }
  }

  lemma {:induction false} LiveAndDead(s: Pass, c: nat, g: nat, i: nat)
    requires PassInv(s, c, g, |EncAll(s.recs)|) && Idle(s) && i <= |s.recs|
    requires forall j :: 0 <= j < |s.recs| ==> (ItemAt(s, j).live <==> !Dead(s, c, j))
    ensures Start(s.recs, i) == DeadBytes(s, c, i) + LiveBytes(Before(s, s.base + Start(s.recs, i)))
  {
    hide Dead, EncAll, PassInv, Enc, LiveBytes, Before, ItemAt;
    PassFacts(s, c, g, |EncAll(s.recs)|);
    if i == 0 {
      NoBytes();
      assert s.recs[..0] == [];
      NothingBefore(s, c, g);
    } else {
      LiveAndDead(s, c, g, i - 1);
      BeforeStep(s, c, g, i - 1);
      RecordAt(s.recs, i - 1);
      if !Dead(s, c, i - 1) {
        var now, k := Before(s, s.base + Start(s.recs, i - 1)), s.recs[i - 1].key;
        var next := now[k := s.recs[i - 1].value];
        LiveBytesRemove(next, k);
        assert next - {k} == now;
      }
    }
  }

  lemma NothingBefore(s: Pass, c: nat, g: nat)
    requires PassInv(s, c, g, |EncAll(s.recs)|) && Idle(s)
    ensures LiveBytes(Before(s, s.base)) == 0
  {
    hide Wrap, EncAll, Buffered, AllSized, Reads, Holds;
    assert KeysOf([]) == {};
    forall k | k in s.pos ensures s.pos[k] >= s.base { HoldsBounds(s.base, s.recs, s.pos[k], Rec(k, s.flushed[k])); }
    assert Before(s, s.base) == map[];
  }

  lemma AllBefore(s: Pass, c: nat, g: nat)
    requires PassInv(s, c, g, |EncAll(s.recs)|) && Idle(s)
    ensures Before(s, s.base + |EncAll(s.recs)|) == s.flushed
  {
    hide Wrap, EncAll, Buffered, AllSized, Reads, Holds;
    assert KeysOf([]) == {};
    forall k | k in s.pos ensures s.pos[k] < s.base + |EncAll(s.recs)| {
      HoldsBounds(s.base, s.recs, s.pos[k], Rec(k, s.flushed[k]));
    }
  }

  /** Between passes the log holds one live record for each key of the map and, besides, only dead ones. */
  lemma LiveOrDead(s: Pass, c: nat, g: nat)
    requires PassInv(s, c, g, |EncAll(s.recs)|) && Idle(s)
    ensures c > 0 && |EncAll(s.recs)| == LiveBytes(s.flushed) + DeadBytes(s, c, |s.recs|)
  {
    hide PassInv, EncAll, LiveBytes, Dead, ItemAt;
    TapeFromIndex(s, c, g);
    assert forall i :: 0 <= i < |s.recs| ==> TapeOf(s).items[i] == ItemAt(s, i);
    PassFacts(s, c, g, |EncAll(s.recs)|);
    LiveAndDead(s, c, g, |s.recs|);
    AllBefore(s, c, g);
    assert s.recs[..|s.recs|] == s.recs;
  }

  // ---------------------------------------------------------------- logs of records of one size

  /** How many of the first p records the index does not lead to. */
  ghost function DeadRecords(s: Pass, c: nat, p: nat): nat
    requires c > 0 && p <= |s.recs|
  {
    if p == 0 then 0 else DeadRecords(s, c, p - 1) + if Dead(s, c, p - 1) then 1 else 0
  }

  /** All records have n bytes. */
  ghost predicate Even(s: Pass, n: nat) { n > 0 && forall i :: 0 <= i < |s.recs| ==> Size(s.recs[i]) == n }

  /**
   * A buffer of g bytes holds k records. There are k dead records among those that fill whole buffers, or among all
   * with more than k live ones before the last, partial buffer.
   */
  ghost predicate RipeLog(s: Pass, c: nat, g: nat, n: nat)
    requires c > 0 && n > 0
  {
    && g % n == 0 && g / n > 0
    && var k, all := g / n, |s.recs|;
       var p := all - all % k;
       && p >= 0
       && (|| DeadRecords(s, c, p) >= k
           || (p < all && DeadRecords(s, c, all) >= k && p - DeadRecords(s, c, p) > k))
  }

  lemma {:induction false} DeadRecordsCount(s: Pass, c: nat, items: seq<Item>, p: nat)
    requires c > 0 && |items| == |s.recs| && p <= |items|
    requires forall i :: 0 <= i < |items| ==> (items[i].live <==> !Dead(s, c, i))
    ensures DeadRecords(s, c, p) == DeadCount(items, p)
  {
    hide Dead;
    if p > 0 { DeadRecordsCount(s, c, items, p - 1); }
  }

  /** A pass over such a log ends well if and only if the log is ripe. */
  lemma RipeLogEnds(s: Pass, c: nat, g: nat, n: nat)
    requires PassInv(s, c, g, |EncAll(s.recs)|) && Idle(s) && 0 < g && Even(s, n)
    ensures c > 0 && (Ending(TapeOf(s), g, |EncAll(s.recs)|).Done? <==> RipeLog(s, c, g, n))
  {
    hide PassInv, EncAll, Dead, TapeOf, Ending, Wrap;
    TapeFromIndex(s, c, g);
    TapeMeasures(s);
    OneSizeExact(TapeOf(s), g, n);
    if g % n == 0 && g / n > 0 {
      var k, items := g / n, TapeOf(s).items;
      WrapIs(|s.recs|, k);
      WrapBelow(|s.recs|, k);
      DeadRecordsCount(s, c, items, |s.recs| - |s.recs| % k);
      DeadRecordsCount(s, c, items, |s.recs|);
    }
  }

  lemma WrapIs(a: nat, k: nat)
    requires k > 0
    ensures Wrap(a, k) == a % k
  {
  }
}
