/** A ship: a fixed type name and size and a hit counter that never passes the size. */
module Ships {

  /** The counter after one `Hit()`: one more, clamped at `size`. */
  function AfterHit(hits: nat, size: nat): (h: nat)
    ensures h <= size
    ensures h == hits + 1 <==> hits < size
    ensures hits <= size ==> hits <= h
  {
    if hits + 1 > size then size else hits + 1
  }

  /** The counter after `n` consecutive `Hit()` calls. */
  function HitsAfter(hits: nat, size: nat, n: nat): nat {
    if n == 0 then hits else AfterHit(HitsAfter(hits, size, n - 1), size)
  }

  /** Starting from a valid counter, `n` hits add `n`, up to the size and no further. */
  lemma {:induction false} HitsAfterIsClamped(hits: nat, size: nat, n: nat)
    requires hits <= size
    ensures HitsAfter(hits, size, n) == if hits + n < size then hits + n else size
  {
    if n > 0 {
      HitsAfterIsClamped(hits, size, n - 1);
    }
  }

  /** A fresh ship sinks on its `size`-th hit and not before, and stays sunk. */
  lemma SunkExactlyAfterSizeHits(size: nat, n: nat)
    ensures HitsAfter(0, size, n) == size <==> n >= size
    ensures n >= size ==> HitsAfter(0, size, n + 1) == size
  {
    HitsAfterIsClamped(0, size, n);
    HitsAfterIsClamped(0, size, n + 1);
  }

  class Ship {
    const kind: string
    const size: nat
    var hits: nat

    ghost predicate Valid()
      reads this
    {
      hits <= size
    }

    constructor (kind: string, size: nat)
      ensures this.kind == kind && this.size == size && hits == 0
      ensures Valid()
    {
      this.kind := kind;
      this.size := size;
      hits := 0;
    }

    /** Sunk exactly when a further hit would no longer count. */
    predicate IsSunk(): (sunk: bool)
      reads this
      ensures Valid() ==> (sunk <==> AfterHit(hits, size) == hits)
    {
      hits == size
    }

    method Hit()
      modifies this
      ensures hits == AfterHit(old(hits), size)
      ensures Valid()
    {
      hits := hits + 1;
      if hits > size {
        hits := size;
      }
    }
  }
}
