/** The circular log's space test: positions are kept modulo the capacity. */
module VLogRing {
  import opened Modular

  /**
   Whether a write of `diff` bytes is granted in the main log with write front w and GC
   front g, keeping `reserve` bytes free: the GC size for users, nothing for GC itself.
   */
  predicate Grants(w: nat, g: nat, capacity: nat, reserve: nat, diff: nat)
    requires 0 < capacity && reserve <= capacity
  {
    var inc := Wrap(w + diff, capacity);
    var front := Wrap(g - reserve + capacity, capacity);
    || (w >= front && (inc > w || inc < front))
    || (w < front && inc > w && inc < front)
  }

  /** A position plus a step shorter than a turn. */
  lemma WrapStep(w: nat, diff: nat, c: nat)
    requires w < c && diff < c
    ensures Wrap(w + diff, c) == if w + diff < c then w + diff else w + diff - c
  {
    hide Wrap;
    if w + diff < c {
      WrapSmall(w + diff, c);
    } else {
      WrapTurn(w + diff - c, c);
      WrapSmall(w + diff - c, c);
    }
  }

  /** How far ahead of position F position W lies on the ring. */
  lemma Ahead(W: int, F: int, c: nat)
    requires c > 0
    ensures var w, f := Wrap(W, c), Wrap(F, c); Wrap(W - F, c) == if w >= f then w - f else w - f + c
  {
    hide Wrap;
    var w, f := Wrap(W, c), Wrap(F, c);
    WrapAdd(W, 0 - f, c);
    WrapAdd(F, W - F - f, c);
    if w >= f {
      WrapSmall(w - f, c);
    } else {
      WrapTurn(w - f, c);
      WrapSmall(w - f + c, c);
    }
  }

  /** The test measures the distance from the reserved front to the write front, modulo the capacity. */
  lemma GrantsMeasures(W: nat, G: nat, capacity: nat, reserve: nat, diff: nat)
    requires G <= W < G + capacity && reserve < capacity && 0 < diff < capacity
    ensures Grants(Wrap(W, capacity), Wrap(G, capacity), capacity, reserve, diff) <==>
              Wrap(W - G + reserve, capacity) + diff < capacity
  {
    hide Wrap;
    WrapAdd(G, capacity - reserve, capacity);
    Ahead(W, G + (capacity - reserve), capacity);
    WrapTurn(W - G + reserve - capacity, capacity);
    WrapStep(Wrap(W, capacity), diff, capacity);
  }

  /** Where the log keeps its reserve, the test is exact: it grants a write exactly when the reserve stays free. */
  lemma GrantsExact(W: nat, G: nat, capacity: nat, reserve: nat, diff: nat)
    requires G <= W && W - G + reserve < capacity && 0 < diff < capacity
    ensures Grants(Wrap(W, capacity), Wrap(G, capacity), capacity, reserve, diff) <==> W - G + diff < capacity - reserve
  {
    hide Grants;
    GrantsMeasures(W, G, capacity, reserve, diff);
    WrapSmall(W - G + reserve, capacity);
  }

  /** Where it does not, the test wraps round and grants what it should refuse: the precondition above is exact. */
  lemma GrantsExactIff(W: nat, G: nat, capacity: nat, reserve: nat)
    requires G <= W < G + capacity && reserve < capacity && capacity >= 2
    ensures (forall diff :: 0 < diff < capacity ==>
               (Grants(Wrap(W, capacity), Wrap(G, capacity), capacity, reserve, diff) <==>
                 W - G + diff < capacity - reserve))
            <==> W - G + reserve < capacity
  {
    hide Wrap, Grants;
    if W - G + reserve < capacity {
      forall diff | 0 < diff < capacity
        ensures Grants(Wrap(W, capacity), Wrap(G, capacity), capacity, reserve, diff) <==>
                  W - G + diff < capacity - reserve
      {
        GrantsExact(W, G, capacity, reserve, diff);
      }
    } else {
      GrantsMeasures(W, G, capacity, reserve, 1);
      WrapTurn(W - G + reserve - capacity, capacity);
      WrapSmall(W - G + reserve - capacity, capacity);
      assert Grants(Wrap(W, capacity), Wrap(G, capacity), capacity, reserve, 1);
    }
  }
}
