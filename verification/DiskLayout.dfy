/** Where segments lie on the disks. */
module DiskLayout {
  import opened Modular

  datatype Layout = Layout(numMain: nat, numLog: nat, mainSize: nat, logSize: nat, numDisks: nat)

  predicate WellFormed(l: Layout) { l.mainSize > 0 && l.logSize > 0 && l.numDisks > 0 }

  predicate IsLog(l: Layout, s: nat) { s >= l.numMain }

  function SizeOf(l: Layout, s: nat): nat { if IsLog(l, s) then l.logSize else l.mainSize }

  function Div(x: nat, d: nat): nat
    requires d > 0
  {
    x / d
  }

  function Times(p: nat, k: nat): nat { p * k }

  function DiskOf(l: Layout, s: nat): nat
    requires WellFormed(l)
  {
    Wrap(s, l.numDisks)
  }

  /** Main segments come first on every disk, log segments after room for all of them. */
  function OffsetOf(l: Layout, s: nat): nat
    requires WellFormed(l)
  {
    if !IsLog(l, s) then Times(Div(s, l.numDisks), l.mainSize)
    else
      Times(Div(l.numMain + l.numDisks - 1, l.numDisks), l.mainSize) + Times(Div(s - l.numMain, l.numDisks), l.logSize)
  }

  predicate Apart(a: nat, sizeA: nat, b: nat, sizeB: nat) { a + sizeA <= b || b + sizeB <= a }

  lemma SameDiskFarApart(a: nat, b: nat, d: nat)
    requires d > 0 && a < b && Wrap(a, d) == Wrap(b, d)
    ensures a + d <= b
  {
    var p, q, r := a / d, b / d, a % d;
    assert a == d * p + r && b == d * q + r;
    MultiplesApart(p, q, r, d);
  }

  lemma MultiplesApart(p: nat, q: nat, r: nat, d: nat)
    requires d * p + r < d * q + r
    ensures d * p + r + d <= d * q + r
  {
    if q <= p { Scale(q, p, d); } else { Scale(p + 1, q, d); }
  }

  lemma Scale(p: nat, q: nat, k: nat)
    requires p <= q
    ensures k * p <= k * q && p * k <= q * k
  {
    assert k * q == k * p + k * (q - p);
  }

  lemma DivStep(a: nat, b: nat, d: nat)
    requires d > 0 && a + d <= b
    ensures a / d + 1 <= b / d
  {
    assert (a + d) / d == a / d + 1 by { Quotient(a + d, d, a / d + 1, a % d); }
    DivMonotone(a + d, b, d);
  }

  lemma Quotient(x: nat, d: nat, q: nat, r: nat)
    requires d > 0 && x == d * q + r && r < d
    ensures x / d == q
  {
    var p := x / d;
    assert x == d * p + x % d;
    if p < q { Scale(p + 1, q, d); } else if q < p { Scale(q + 1, p, d); }
  }

  lemma DivMonotone(a: nat, b: nat, d: nat)
    requires d > 0 && a <= b
    ensures a / d <= b / d
  {
    assert a == d * (a / d) + a % d && b == d * (b / d) + b % d;
    if b / d < a / d { Scale(b / d + 1, a / d, d); }
  }

  /** Rows d apart are k apart in bytes. */
  lemma RowsApart(a: nat, b: nat, d: nat, k: nat)
    requires d > 0 && a + d <= b
    ensures Times(Div(a, d), k) + k <= Times(Div(b, d), k)
  {
    DivStep(a, b, d);
    Scale(a / d + 1, b / d, k);
    assert (a / d + 1) * k == a / d * k + k;
  }

  /** Distinct segments occupy disjoint byte ranges of a disk, whatever the number of disks and segments. */
  lemma SegmentsDisjoint(l: Layout, a: nat, b: nat)
    requires WellFormed(l) && a < b && DiskOf(l, a) == DiskOf(l, b)
    ensures OffsetOf(l, a) + SizeOf(l, a) <= OffsetOf(l, b)
  {
    hide Div, Wrap, Times;
    var d := l.numDisks;
    SameDiskFarApart(a, b, d);
    if !IsLog(l, b) {
      RowsApart(a, b, d, l.mainSize);
    } else if !IsLog(l, a) {
      RowsApart(a, l.numMain + d - 1, d, l.mainSize);
    } else {
      RowsApart(a - l.numMain, b - l.numMain, d, l.logSize);
    }
  }

  /** Two pieces, each inside its segment, do not share a byte if they differ in segment or are apart in it. */
  lemma PiecesDisjoint(l: Layout, a: nat, offA: nat, lenA: nat, b: nat, offB: nat, lenB: nat)
    requires WellFormed(l) && offA + lenA <= SizeOf(l, a) && offB + lenB <= SizeOf(l, b)
    requires a != b || Apart(offA, lenA, offB, lenB)
    requires DiskOf(l, a) == DiskOf(l, b)
    ensures Apart(OffsetOf(l, a) + offA, lenA, OffsetOf(l, b) + offB, lenB)
  {
    if a < b { SegmentsDisjoint(l, a, b); } else if b < a { SegmentsDisjoint(l, b, a); }
  }
}
