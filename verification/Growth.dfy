/** The growth policy both tables follow: start at 256 entries, double when full. */
module Growth {

  const INITIAL_SIZE := 256

  /** Capacity once `count` entries have been appended one at a time. */
  function Capacity(count: nat): nat {
    if count == 0 then INITIAL_SIZE
    else
      var before := Capacity(count - 1);
      if count - 1 == before then 2 * before else before
  }

  /** Entries copied by all the reallocations of the first `count` appends. */
  function Moved(count: nat): nat {
    if count == 0 then 0
    else Moved(count - 1) + if count - 1 == Capacity(count - 1) then count - 1 else 0
  }

  function Pow2(k: nat): nat {
    if k == 0 then 1 else 2 * Pow2(k - 1)
  }

  /** Capacity is the least 256 * 2^k that holds all entries. */
  lemma {:induction false} CapacityIsLeastDoubling(count: nat) returns (k: nat)
    ensures Capacity(count) == 256 * Pow2(k)
    ensures count <= Capacity(count)
    ensures k > 0 ==> 256 * Pow2(k - 1) < count
  {
    if count == 0 {
      k := 0;
    } else {
      k := CapacityIsLeastDoubling(count - 1);
      if count - 1 == Capacity(count - 1) {
        k := k + 1;
      }
    }
  }

  /** Every entry of the final capacity beyond the first 256 was paid for by exactly one move. */
  lemma {:induction false} MovesAreCapacityMinusInitial(count: nat)
    ensures Moved(count) == Capacity(count) - 256
  {
    if count > 0 {
      MovesAreCapacityMinusInitial(count - 1);
    }
  }

  /** Amortised cost: fewer than two moves for each append. */
  lemma AmortisedMoves(count: nat)
    ensures count > 0 ==> Moved(count) < 2 * count
    ensures Moved(0) == 0
  {
    var k := CapacityIsLeastDoubling(count);
    MovesAreCapacityMinusInitial(count);
  }
}
