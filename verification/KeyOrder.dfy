/** Keys are byte strings compared lexicographically. */
module KeyOrder {
  import opened Coding

  predicate Before(a: Bytes, b: Bytes) {
    b != [] && (a == [] || a[0] < b[0] || (a[0] == b[0] && Before(a[1..], b[1..])))
  }

  predicate AtMost(a: Bytes, b: Bytes) { !Before(b, a) }

  lemma {:induction false} Irreflexive(a: Bytes)
    ensures !Before(a, a)
  {
    if a != [] { Irreflexive(a[1..]); }
  }

  lemma {:induction false} Transitive(a: Bytes, b: Bytes, c: Bytes)
    requires Before(a, b) && Before(b, c)
    ensures Before(a, c)
  {
    if a != [] && a[0] == b[0] == c[0] { Transitive(a[1..], b[1..], c[1..]); }
  }

  lemma {:induction false} Trichotomy(a: Bytes, b: Bytes)
    ensures Before(a, b) || a == b || Before(b, a)
  {
    if a != [] && b != [] && a[0] == b[0] {
      Trichotomy(a[1..], b[1..]);
      assert a == [a[0]] + a[1..] && b == [b[0]] + b[1..];
    }
  }

  /** Lexicographic comparison is a strict total order. */
  lemma TotalOrder()
    ensures forall a: Bytes {:trigger Before(a, a)} :: !Before(a, a)
    ensures forall a: Bytes, b: Bytes {:trigger Before(a, b)} :: Before(a, b) || a == b || Before(b, a)
    ensures forall a: Bytes, b: Bytes, c: Bytes {:trigger Before(a, b), Before(b, c)} ::
              Before(a, b) && Before(b, c) ==> Before(a, c)
  {
    hide Before;
    forall a: Bytes ensures !Before(a, a) { Irreflexive(a); }
    forall a: Bytes, b: Bytes ensures Before(a, b) || a == b || Before(b, a) { Trichotomy(a, b); }
    forall a: Bytes, b: Bytes, c: Bytes | Before(a, b) && Before(b, c) ensures Before(a, c) { Transitive(a, b, c); }
  }
}
