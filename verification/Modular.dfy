/** The modular arithmetic the ring buffers need. */
module Modular {

  lemma Multiples(c: int, d: int)
    requires c > 0
    ensures d >= 1 ==> c * d >= c
    ensures d <= -1 ==> c * d <= -c
  {
  }

  /** Remainders are unique. */
  lemma RemainderIs(x: int, q: int, r: int, c: int)
    requires c > 0 && x == c * q + r && 0 <= r < c
    ensures x % c == r
  {
    var d := x / c - q;
    assert c * d == r - x % c by { assert x == c * (x / c) + x % c; }
    Multiples(c, d);
  }

  lemma AddMod(a: int, b: int, c: int)
    requires c > 0
    ensures (a % c + b) % c == (a + b) % c
  {
    var q, r := (a % c + b) / c, (a % c + b) % c;
    assert a == c * (a / c) + a % c;
    assert a + b == c * (a / c + q) + r by { assert a % c + b == c * q + r; }
    RemainderIs(a + b, a / c + q, r, c);
  }

  /** Two numbers less than c apart with the same remainder are equal. */
  lemma SameRemainder(a: int, b: int, c: int)
    requires c > 0 && a % c == b % c && -c < a - b < c
    ensures a == b
  {
    var d := a / c - b / c;
    assert a - b == c * d by { assert a == c * (a / c) + a % c && b == c * (b / c) + b % c; }
    Multiples(c, d);
  }

  /** Position p of a ring of size c. */
  function Wrap(p: int, c: int): (r: nat)
    requires c > 0
    ensures r < c
  {
    p % c
  }

  lemma WrapAdd(a: int, b: int, c: int)
    requires c > 0
    ensures Wrap(Wrap(a, c) + b, c) == Wrap(a + b, c)
  {
    AddMod(a, b, c);
  }

  lemma WrapSame(a: int, b: int, c: int)
    requires c > 0 && Wrap(a, c) == Wrap(b, c) && -c < a - b < c
    ensures a == b
  {
    SameRemainder(a, b, c);
  }

  lemma WrapSmall(a: int, c: int)
    requires 0 <= a < c
    ensures Wrap(a, c) == a
  {
  }

  lemma WrapTurn(a: int, c: int)
    requires c > 0
    ensures Wrap(a + c, c) == Wrap(a, c)
  {
    RemainderIs(a + c, a / c + 1, a % c, c);
  }

  /** The distance between two positions less than a turn apart. */
  lemma WrapDistance(a: int, b: int, c: int)
    requires c > 0 && 0 <= a - b < c
    ensures Wrap(Wrap(a, c) + c - Wrap(b, c), c) == a - b
  {
    WrapAdd(a, c - Wrap(b, c), c);
    WrapAdd(b, 0 - Wrap(b, c), c);
    WrapTurn(a - Wrap(b, c), c);
    WrapAdd(b, a - b - Wrap(b, c), c);
    WrapSmall(a - b, c);
  }

  lemma WrapBack(a: int, b: int, c: int)
    requires c > 0
    ensures Wrap(Wrap(a + b, c) - b + c, c) == Wrap(a, c)
  {
    WrapAdd(a + b, c - b, c);
    WrapTurn(a, c);
  }
}
