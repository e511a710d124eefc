/** Segment groups: allocation of segments and placement of records in them. */
module SegmentGroups {
  import opened Optional
  import opened Modular
  import opened DiskLayout

  /** A group starts with its main segment; its log segments follow in the order they were added. */
  datatype Group = Group(segments: seq<nat>, front: nat)

  /** Where a record was put: the place of its segment in the group, and the bytes in the segment. */
  datatype Spot = Spot(place: nat, offset: nat, size: nat)

  /** The front within the last segment of a group. */
  function LastSegmentFront(l: Layout, front: nat): (r: nat)
    requires WellFormed(l)
    ensures front > l.mainSize ==> 0 < r <= l.logSize
  {
    if front <= l.mainSize then Wrap(front, l.mainSize)
    else if Wrap(front - l.mainSize, l.logSize) == 0 then l.logSize
    else Wrap(front - l.mainSize, l.logSize)
  }

  /** The offset of the k-th segment of a group in the group's own address space. */
  function Base(l: Layout, k: nat): nat { if k == 0 then 0 else l.mainSize + Times(k - 1, l.logSize) }

  lemma BaseStep(l: Layout, k: nat)
    ensures Base(l, k + 1) == Base(l, k) + if k == 0 then l.mainSize else l.logSize
  {
    assert k > 0 ==> k * l.logSize == (k - 1) * l.logSize + l.logSize;
  }

  /** The front lies in the last segment that has been given to the group. */
  predicate FrontOk(l: Layout, g: Group) {
    && g.segments != []
    && (|g.segments| == 1 ==> g.front <= l.mainSize)
    && (|g.segments| > 1 ==> Base(l, |g.segments| - 1) < g.front <= Base(l, |g.segments| - 1) + l.logSize)
  }

  /**
   * What placement decides: whether a new log segment is needed, the offset in the segment, and the front it writes at.
   */
  function Placed(l: Layout, g: Group, r: nat): (bool, nat, nat)
    requires WellFormed(l)
  {
    var last := LastSegmentFront(l, g.front);
    if |g.segments| == 1 && g.front < l.mainSize && r + g.front <= l.mainSize then (false, last, g.front)
    else if g.front >= l.mainSize && Wrap(last, l.logSize) != 0 && r + last <= l.logSize then (false, last, g.front)
    else (true, 0, if g.front <= l.mainSize then l.mainSize else g.front + (l.logSize - last))
  }

  lemma ModIs(x: nat, d: nat, q: nat, r: nat)
    requires d > 0 && x == d * q + r && r < d
    ensures Wrap(x, d) == r
  {
    RemainderIs(x, q, r, d);
  }

  lemma ModSmall(x: nat, d: nat)
    requires d > 0 && x <= d
    ensures Wrap(x, d) == if x == d then 0 else x
  {
    if x == d { ModIs(x, d, 1, 0); } else { ModIs(x, d, 0, x); }
  }

  /** The front of the last segment, spelled out. */
  lemma LastFront(l: Layout, g: Group)
    requires WellFormed(l) && FrontOk(l, g)
    ensures var last := LastSegmentFront(l, g.front);
            && last <= (if |g.segments| == 1 then l.mainSize else l.logSize)
            && (|g.segments| == 1 ==> last == if g.front == l.mainSize then 0 else g.front)
            && (|g.segments| > 1 ==> g.front > l.mainSize && last > 0 && last == g.front - Base(l, |g.segments| - 1))
  {
    if |g.segments| == 1 {
      ModSmall(g.front, l.mainSize);
    } else {
      var k := |g.segments| - 1;
      var x, r := g.front - l.mainSize, g.front - Base(l, k);
      assert x == l.logSize * (k - 1) + r;
      Scale(0, k - 1, l.logSize);
      if r == l.logSize {
        assert l.logSize * k == l.logSize * (k - 1) + l.logSize;
        ModIs(x, l.logSize, k, 0);
      } else {
        ModIs(x, l.logSize, k - 1, r);
      }
    }
  }

  /** The bytes left in the last segment. */
  function Room(l: Layout, g: Group): int {
    var k := |g.segments| - 1;
    if k <= 0 then l.mainSize - g.front else Base(l, k) + l.logSize - g.front
  }

  /**
   * A record goes wholly inside one segment, at or after the front, and the front moves past it. It follows the
   * last record directly, and starts a new segment exactly when the last one has no room for it.
   */
  lemma PlacedFits(l: Layout, g: Group, r: nat)
    requires WellFormed(l) && FrontOk(l, g) && 0 < r <= l.logSize
    ensures var p := Placed(l, g, r);
            var k := if p.0 then |g.segments| else |g.segments| - 1;
            && p.2 >= g.front && p.2 == Base(l, k) + p.1
            && p.1 + r <= (if k == 0 then l.mainSize else l.logSize)
            && (p.0 <==> Room(l, g) < r) && (if p.0 then p.1 == 0 else p.2 == g.front)
            && (p.0 ==> forall s :: FrontOk(l, Group(g.segments + [s], p.2 + r)))
            && (!p.0 ==> FrontOk(l, Group(g.segments, p.2 + r)))
  {
    hide LastSegmentFront, Wrap, Times;
    BaseStep(l, |g.segments| - 1);
    LastFront(l, g);
    if |g.segments| > 1 || g.front == l.mainSize { ModSmall(LastSegmentFront(l, g.front), l.logSize); }
  }

  // ---------------------------------------------------------------- allocation

  /** A bit is set exactly for an allocated segment, and every segment belongs to exactly one group. */
  ghost predicate Allocated(l: Layout, bitmap: seq<bool>, owner: map<nat, nat>, groups: map<nat, Group>) {
    && |bitmap| == l.numMain + l.numLog
    && (forall s: nat :: s in owner <==> s < |bitmap| && bitmap[s])
    && (forall s :: s in owner ==> owner[s] in groups && s in groups[owner[s]].segments)
    && (forall g :: g in groups ==> GroupOk(l, owner, g, groups[g].segments))
  }

  /** A group has its own number as main segment, followed by log segments, none twice. */
  ghost predicate GroupOk(l: Layout, owner: map<nat, nat>, g: nat, segments: seq<nat>) {
    && segments != [] && segments[0] == g < l.numMain
    && (forall k :: 0 <= k < |segments| ==> segments[k] in owner && owner[segments[k]] == g)
    && (forall k :: 0 < k < |segments| ==> IsLog(l, segments[k]))
    && (forall j, k :: 0 <= j < k < |segments| ==> segments[j] != segments[k])
  }

  ghost function Taken(l: Layout, owner: map<nat, nat>,
                       log: bool): set<nat> { set s | s in owner && IsLog(l, s) == log }

  /** The free counts are what the map leaves. */
  ghost predicate Counted(l: Layout, owner: map<nat, nat>, freeMain: nat, freeLog: nat) {
    freeMain + |Taken(l, owner, false)| == l.numMain && freeLog + |Taken(l, owner, true)| == l.numLog
  }

  lemma CountTake(l: Layout, owner: map<nat, nat>, s: nat, g: nat)
    requires s !in owner
    ensures |Taken(l, owner[s := g], IsLog(l, s))| == |Taken(l, owner, IsLog(l, s))| + 1
    ensures |Taken(l, owner[s := g], !IsLog(l, s))| == |Taken(l, owner, !IsLog(l, s))|
  {
    assert Taken(l, owner[s := g], IsLog(l, s)) == Taken(l, owner, IsLog(l, s)) + {s};
    assert Taken(l, owner[s := g], !IsLog(l, s)) == Taken(l, owner, !IsLog(l, s));
  }

  /** The count of taken segments stays within the number there are, so a free segment is always counted. */
  lemma CountBound(l: Layout, bitmap: seq<bool>, owner: map<nat, nat>, groups: map<nat, Group>, s: nat)
    requires Allocated(l, bitmap, owner, groups) && s < |bitmap| && s !in owner
    ensures |Taken(l, owner, IsLog(l, s))| < if IsLog(l, s) then l.numLog else l.numMain
  {
    hide GroupOk;
    var t := Taken(l, owner, IsLog(l, s));
    if IsLog(l, s) {
      RangeCount(t + {s}, l.numMain, l.numMain + l.numLog);
    } else {
      RangeCount(t + {s}, 0, l.numMain);
    }
  }

  lemma {:induction false} RangeCount(t: set<nat>, lo: nat, hi: nat)
    requires lo <= hi && forall x :: x in t ==> lo <= x < hi
    ensures |t| <= hi - lo
    decreases hi - lo
  {
    if lo == hi {
      assert t == {};
    } else {
      RangeCount(t - {hi - 1}, lo, hi - 1);
    }
  }

  lemma OthersKeep(l: Layout, owner: map<nat, nat>, next: map<nat, nat>, groups: map<nat, Group>, g: nat)
    requires forall h :: h in groups ==> GroupOk(l, owner, h, groups[h].segments)
    requires forall s :: s in owner && owner[s] != g ==> s in next && next[s] == owner[s]
    ensures forall h :: h in groups && h != g ==> GroupOk(l, next, h, groups[h].segments)
  {
  }

  /** A free log segment joins a group. */
  lemma TakeLog(l: Layout, bitmap: seq<bool>, owner: map<nat, nat>, groups: map<nat, Group>, s: nat, g: nat, front: nat)
    requires Allocated(l, bitmap, owner, groups) && s < |bitmap| && !bitmap[s] && IsLog(l, s) && g in groups
    ensures Allocated(l, bitmap[s := true], owner[s := g], groups[g := Group(groups[g].segments + [s], front)])
  {
    var o, segments := owner[s := g], groups[g].segments + [s];
    assert s !in owner;
    OthersKeep(l, owner, o, groups, g);
    assert GroupOk(l, o, g, segments) by { assert GroupOk(l, owner, g, groups[g].segments); }
    hide GroupOk;
    forall t | t in o && o[t] == g ensures t in segments {
      if t == s { assert segments[|segments| - 1] == s; } else { assert t in groups[g].segments; }
    }
  }

  /** A free main segment starts a group of its own. */
  lemma TakeMain(l: Layout, bitmap: seq<bool>, owner: map<nat, nat>, groups: map<nat, Group>, s: nat)
    requires Allocated(l, bitmap, owner, groups) && s < |bitmap| && !bitmap[s] && !IsLog(l, s)
    ensures s !in groups && Allocated(l, bitmap[s := true], owner[s := s], groups[s := Group([s], 0)])
  {
    var o := owner[s := s];
    assert s !in owner;
    assert forall g :: g in groups ==> g in owner by {
      assert forall g :: g in groups ==> GroupOk(l, owner, g, groups[g].segments);
    }
    OthersKeep(l, owner, o, groups, s);
    assert GroupOk(l, o, s, [s]);
  }

  /** The last log segment of a group becomes free. */
  lemma DropLog(l: Layout, bitmap: seq<bool>, owner: map<nat, nat>, groups: map<nat, Group>, g: nat, front: nat)
    requires Allocated(l, bitmap, owner, groups) && g in groups && |groups[g].segments| > 1
    ensures var k := |groups[g].segments| - 1; var s := groups[g].segments[k];
            && s in owner && owner[s] == g && s < |bitmap| && IsLog(l, s)
            && Allocated(l, bitmap[s := false], owner - {s}, groups[g := Group(groups[g].segments[..k], front)])
  {
    var segments := groups[g].segments;
    var k := |segments| - 1;
    var s := segments[k];
    assert GroupOk(l, owner, g, segments);
    var o := owner - {s};
    OthersKeep(l, owner, o, groups, g);
    assert GroupOk(l, o, g, segments[..k]);
    hide GroupOk;
    forall t | t in o && o[t] == g ensures t in segments[..k] {
      assert t in segments;
      var j :| 0 <= j < |segments| && segments[j] == t;
      assert segments[..k][j] == t;
    }
  }

  // ---------------------------------------------------------------- records of a group

  /** Every record lies inside a segment of the group; addresses within the group strictly increase up to the front. */
  ghost predicate SpotsOk(l: Layout, g: Group, spots: seq<Spot>) {
    && (forall i :: 0 <= i < |spots| ==> SpotIn(l, g, spots[i]))
    && (forall i, j :: 0 <= i < j < |spots| ==> Linear(l, spots[i]) + spots[i].size <= Linear(l, spots[j]))
  }

  predicate SpotIn(l: Layout, g: Group, p: Spot) {
    && p.place < |g.segments| && p.size > 0
    && p.offset + p.size <= (if p.place == 0 then l.mainSize else l.logSize)
    && Linear(l, p) + p.size <= g.front
  }

  /** A record's address in its group, as references to the main segment use it. */
  function Linear(l: Layout, p: Spot): nat { Base(l, p.place) + p.offset }

  lemma SpotAdded(l: Layout, g: Group, spots: seq<Spot>, h: Group, p: Spot)
    requires SpotsOk(l, g, spots) && |g.segments| <= |h.segments| && SpotIn(l, h, p)
    requires g.front <= Linear(l, p)
    ensures SpotsOk(l, h, spots + [p])
  {
  }

  // ---------------------------------------------------------------- no two records overlap

  /** All groups, all records. */
  ghost predicate AllSpots(l: Layout, groups: map<nat, Group>, placed: map<nat, seq<Spot>>) {
    placed.Keys == groups.Keys && forall g :: g in groups ==> FrontOk(l, groups[g]) && SpotsOk(l, groups[g], placed[g])
  }

  function SegmentOf(g: Group, p: Spot): nat
    requires p.place < |g.segments|
  {
    g.segments[p.place]
  }

  /** Distinct records, of one group or of two, share no byte of a disk. */
  lemma RecordsDisjoint(l: Layout, bitmap: seq<bool>, owner: map<nat, nat>, groups: map<nat, Group>,
                        placed: map<nat, seq<Spot>>,
                        g: nat, i: nat, h: nat, j: nat)
    requires WellFormed(l) && Allocated(l, bitmap, owner, groups) && AllSpots(l, groups, placed)
    requires g in groups && h in groups && i < |placed[g]| && j < |placed[h]| && (g != h || i < j)
    ensures var a, b := placed[g][i], placed[h][j];
            && SpotIn(l, groups[g], a) && SpotIn(l, groups[h], b)
            && var s, t := SegmentOf(groups[g], a), SegmentOf(groups[h], b);
            DiskOf(l, s) == DiskOf(l, t) ==> Apart(OffsetOf(l, s) + a.offset, a.size, OffsetOf(l, t) + b.offset, b.size)
  {
    hide Div, Wrap, Times, OffsetOf, DiskOf;
    var a, b := placed[g][i], placed[h][j];
    assert SpotIn(l, groups[g], a) && SpotIn(l, groups[h], b);
    var s, t := SegmentOf(groups[g], a), SegmentOf(groups[h], b);
    assert GroupOk(l, owner, g, groups[g].segments) && GroupOk(l, owner, h, groups[h].segments);
    if DiskOf(l, s) == DiskOf(l, t) {
      PiecesDisjoint(l, s, a.offset, a.size, t, b.offset, b.size);
    }
  }

  // ---------------------------------------------------------------- the manager

  class SegmentGroupManager {
    const l: Layout
    var bitmap: seq<bool>
    var owner: map<nat, nat>
    var groups: map<nat, Group>
    var freeMain: nat
    var freeLog: nat
    ghost var placed: map<nat, seq<Spot>>   // records since the group was last collected

    ghost predicate Valid()
      reads this
    {
      && WellFormed(l) && Allocated(l, bitmap, owner, groups) && Counted(l, owner, freeMain, freeLog)
      && AllSpots(l, groups, placed)
    }

    constructor (l: Layout)
      requires WellFormed(l)
      ensures Valid() && groups == map[] && this.l == l
    {
      this.l := l;
      bitmap := seq(l.numMain + l.numLog, i => false);
      owner, groups, placed := map[], map[], map[];
      freeMain, freeLog := l.numMain, l.numLog;
    }

    /** The first free position from a start on. */
    method FirstZero(start: nat) returns (s: Option<nat>)
      requires start <= |bitmap|
      ensures s.Some? ==>
                start <= s.value < |bitmap| && !bitmap[s.value] && forall i :: start <= i < s.value ==> bitmap[i]
      ensures s.None? ==> forall i :: start <= i < |bitmap| ==> bitmap[i]
    {
      for i := start to |bitmap|
        invariant forall j :: start <= j < i ==> bitmap[j]
      {
        if !bitmap[i] { return Some(i); }
      }
      return None;
    }

    /** A new group for the first free main segment; refused exactly when every main segment is taken. */
    method GetNewMainSegment() returns (s: Option<nat>)
      requires Valid()
      modifies this
      ensures Valid() && (s.None? <==> forall i :: 0 <= i < l.numMain ==> i in old(owner))
      ensures s.None? ==> unchanged(this)
      ensures s.Some? ==>
                && s.value !in old(groups) && (forall i :: 0 <= i < s.value ==> i in old(owner))
                && groups == old(groups)[s.value := Group([s.value], 0)]
                && owner == old(owner)[s.value := s.value] && placed == old(placed)[s.value := []]
    {
      hide Allocated, AllSpots, Counted;
      Bits(l, bitmap, owner, groups);
      s := FirstZero(0);
      if s.None? || IsLog(l, s.value) { return None; }
      StartGroup(s.value);
    }

    /**
     * The group of a given main segment, as a put asks for it; refused exactly when it exists or is no main segment.
     */
    method GetMainSegment(n: nat) returns (ok: bool)
      requires Valid() && n < |bitmap|
      modifies this
      ensures Valid() && (ok <==> n !in old(owner) && n < l.numMain)
      ensures !ok ==> unchanged(this)
      ensures ok ==> n !in old(groups) && groups == old(groups)[n := Group([n], 0)]
                     && owner == old(owner)[n := n] && placed == old(placed)[n := []]
    {
      hide Allocated, AllSpots, Counted;
      Bits(l, bitmap, owner, groups);
      if n in owner || IsLog(l, n) { return false; }
      StartGroup(n);
      return true;
    }

    method StartGroup(n: nat)
      requires Valid() && n < |bitmap| && !bitmap[n] && !IsLog(l, n)
      modifies this
      ensures Valid() && n !in old(groups) && groups == old(groups)[n := Group([n], 0)]
      ensures owner == old(owner)[n := n] && placed == old(placed)[n := []]
    {
      hide Allocated, FrontOk, SpotsOk, Counted;
      Bits(l, bitmap, owner, groups);
      TakeMain(l, bitmap, owner, groups, n);
      CountBound(l, bitmap, owner, groups, n);
      CountMain(l, owner, freeMain, freeLog, n);
      NewGroupOk(l, n);
      bitmap, owner := bitmap[n := true], owner[n := n];
      groups, placed := groups[n := Group([n], 0)], placed[n := []];
      freeMain := freeMain - 1;
    }

    /** A free log segment for a group, whose front moves into it; refused exactly when every log segment is taken. */
    method GetNewLogSegment(g: nat, front: nat) returns (s: Option<nat>)
      requires g in groups && Allocated(l, bitmap, owner, groups) && Counted(l, owner, freeMain, freeLog)
      modifies this`bitmap, this`owner, this`freeLog, this`groups
      ensures Allocated(l, bitmap, owner, groups) && Counted(l, owner, freeMain, freeLog)
      ensures s.None? <==> forall i :: l.numMain <= i < l.numMain + l.numLog ==> i in old(owner)
      ensures s.None? ==> unchanged(this)
      ensures s.Some? ==>
                s.value !in old(owner) && groups == old(groups)[g := Group(old(groups)[g].segments + [s.value], front)]
                          && owner == old(owner)[s.value := g]
    {
      hide Allocated, Counted;
      Bits(l, bitmap, owner, groups);
      s := FirstZero(l.numMain);
      if s.None? { return; }
      var n := s.value;
      TakeLog(l, bitmap, owner, groups, n, g, front);
      CountBound(l, bitmap, owner, groups, n);
      CountLog(l, owner, freeMain, freeLog, n, g);
      bitmap, owner, freeLog := bitmap[n := true], owner[n := g], freeLog - 1;
      groups := groups[g := Group(groups[g].segments + [n], front)];
    }

    /** Puts a record into a group, adding a log segment when the last one cannot take it. */
    method Place(g: nat, r: nat) returns (p: Option<Spot>)
      requires Valid() && g in groups && 0 < r <= l.logSize
      modifies this
      ensures Valid() && groups.Keys == old(groups.Keys)
      ensures p.None? ==> unchanged(this) && Room(l, groups[g]) < r
      ensures p.None? ==> forall i :: l.numMain <= i < l.numMain + l.numLog ==> i in owner
      ensures p.Some? ==> p.value.size == r && placed == old(placed)[g := old(placed)[g] + [p.value]]
      ensures p.Some? ==> old(groups)[g].front <= Linear(l, p.value) && groups[g].front == Linear(l, p.value) + r
      ensures p.Some? && Room(l, old(groups)[g]) < r ==>
                p.value.offset == 0 && |groups[g].segments| == |old(groups)[g].segments| + 1
      ensures p.Some? && Room(l, old(groups)[g]) >= r ==>
                Linear(l, p.value) == old(groups)[g].front && groups[g].segments == old(groups)[g].segments
      ensures p.Some? ==> old(groups)[g].segments <= groups[g].segments
      ensures forall h :: h in groups && h != g ==> groups[h] == old(groups)[h]
    {
      hide Allocated, SpotsOk, Counted, Placed, FrontOk, SpotIn, Base, Room;
      Bits(l, bitmap, owner, groups);
      var group := groups[g];
      PlacedFits(l, group, r);
      var (grow, offset, at) := Placed(l, group, r);
      GroupNonEmpty(l, bitmap, owner, groups, g);
      if grow {
        var s := GetNewLogSegment(g, at + r);
        if s.None? { return None; }
      } else {
        Advance(l, bitmap, owner, groups, g, at + r);
        groups := groups[g := Group(group.segments, at + r)];
      }
      var spot := Spot(|groups[g].segments| - 1, offset, r);
      NewSpotIn(l, groups[g], spot);
      SpotAdded(l, group, placed[g], groups[g], spot);
      placed := placed[g := placed[g] + [spot]];
      p := Some(spot);
    }

    /** After a group was collected it keeps its main segment only. */
    method ReleaseGroupLogSegments(g: nat)
      requires Valid() && g in groups
      modifies this
      ensures Valid() && groups == old(groups)[g := Group([g], l.mainSize)] && placed == old(placed)[g := []]
      ensures forall s :: s in owner <==> s in old(owner) && (old(owner)[s] == g ==> s == g)
    {
      hide Allocated, SpotsOk, Counted, FrontOk;
      GroupNonEmpty(l, bitmap, owner, groups, g);
      while |groups[g].segments| > 1
        invariant g in groups && Allocated(l, bitmap, owner, groups) && Counted(l, owner, freeMain, freeLog)
        invariant groups == old(groups)[g := groups[g]] && groups[g].segments != [] && placed == old(placed)
        invariant forall s :: s in owner ==> s in old(owner) && owner[s] == old(owner)[s]
        invariant forall s :: s in old(owner) && old(owner)[s] != g ==> s in owner
        decreases |groups[g].segments|
      {
        FreeLast(g);
      }
      OnlyMain(l, bitmap, owner, groups, g);
      Advance(l, bitmap, owner, groups, g, l.mainSize);
      NewGroupOk(l, g);
      groups := groups[g := Group(groups[g].segments, l.mainSize)];
      placed := placed[g := []];
    }

    /** Takes the last log segment away from a group. */
    method FreeLast(g: nat)
      requires g in groups && Allocated(l, bitmap, owner, groups) && Counted(l, owner, freeMain, freeLog)
      requires |groups[g].segments| > 1
      modifies this`bitmap, this`owner, this`freeLog, this`groups
      ensures g in groups && Allocated(l, bitmap, owner, groups) && Counted(l, owner, freeMain, freeLog)
      ensures groups == old(groups)[g := groups[g]] && groups[g].segments != []
      ensures |groups[g].segments| < |old(groups)[g].segments|
      ensures owner.Keys <= old(owner).Keys && (forall s :: s in owner ==> owner[s] == old(owner)[s])
      ensures forall s :: s in old(owner) && old(owner)[s] != g ==> s in owner
    {
      hide Allocated, Counted;
      var k := |groups[g].segments| - 1;
      var s := groups[g].segments[k];
      DropLog(l, bitmap, owner, groups, g, groups[g].front);
      CountDrop(l, owner, freeMain, freeLog, s);
      bitmap, owner, freeLog := bitmap[s := false], owner - {s}, freeLog + 1;
      groups := groups[g := Group(groups[g].segments[..k], groups[g].front)];
    }
  }

  lemma Bits(l: Layout, bitmap: seq<bool>, owner: map<nat, nat>, groups: map<nat, Group>)
    requires Allocated(l, bitmap, owner, groups)
    ensures |bitmap| == l.numMain + l.numLog && forall s: nat :: s in owner <==> s < |bitmap| && bitmap[s]
  {
  }

  lemma CountMain(l: Layout, owner: map<nat, nat>, freeMain: nat, freeLog: nat, n: nat)
    requires Counted(l, owner, freeMain, freeLog) && n !in owner && !IsLog(l, n) && |Taken(l, owner, false)| < l.numMain
    ensures freeMain > 0 && Counted(l, owner[n := n], freeMain - 1, freeLog)
  {
    CountTake(l, owner, n, n);
  }

  lemma CountLog(l: Layout, owner: map<nat, nat>, freeMain: nat, freeLog: nat, n: nat, g: nat)
    requires Counted(l, owner, freeMain, freeLog) && n !in owner && IsLog(l, n) && |Taken(l, owner, true)| < l.numLog
    ensures freeLog > 0 && Counted(l, owner[n := g], freeMain, freeLog - 1)
  {
    CountTake(l, owner, n, g);
  }

  lemma CountDrop(l: Layout, owner: map<nat, nat>, freeMain: nat, freeLog: nat, s: nat)
    requires Counted(l, owner, freeMain, freeLog) && s in owner && IsLog(l, s)
    ensures Counted(l, owner - {s}, freeMain, freeLog + 1)
  {
    CountTake(l, owner - {s}, s, owner[s]);
    assert (owner - {s})[s := owner[s]] == owner;
  }

  lemma NewGroupOk(l: Layout, n: nat)
    requires WellFormed(l)
    ensures forall front: nat :: front <= l.mainSize ==>
              FrontOk(l, Group([n], front)) && SpotsOk(l, Group([n], front), [])
  {
  }

  lemma GroupNonEmpty(l: Layout, bitmap: seq<bool>, owner: map<nat, nat>, groups: map<nat, Group>, g: nat)
    requires Allocated(l, bitmap, owner, groups) && g in groups
    ensures groups[g].segments != []
  {
    assert GroupOk(l, owner, g, groups[g].segments);
  }

  lemma OnlyMain(l: Layout, bitmap: seq<bool>, owner: map<nat, nat>, groups: map<nat, Group>, g: nat)
    requires Allocated(l, bitmap, owner, groups) && g in groups && |groups[g].segments| == 1
    ensures groups[g].segments == [g] && g in owner && owner[g] == g
    ensures forall s :: s in owner && owner[s] == g ==> s == g
  {
    assert GroupOk(l, owner, g, groups[g].segments);
  }

  /** Moving a front changes nothing about who owns which segment. */
  lemma Advance(l: Layout, bitmap: seq<bool>, owner: map<nat, nat>, groups: map<nat, Group>, g: nat, front: nat)
    requires Allocated(l, bitmap, owner, groups) && g in groups
    ensures Allocated(l, bitmap, owner, groups[g := Group(groups[g].segments, front)])
  {
    hide GroupOk;
  }

  lemma NewSpotIn(l: Layout, g: Group, p: Spot)
    requires g.segments != [] && p.place == |g.segments| - 1 && p.size > 0 && g.front == Linear(l, p) + p.size
    requires p.offset + p.size <= if p.place == 0 then l.mainSize else l.logSize
    ensures SpotIn(l, g, p)
  {
  }
}
