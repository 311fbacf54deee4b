/** The parts of the 256-bit space that hashes of symbolic inputs are confined to, one per input size. */
module Intervals {

  const TT256: nat := 0x1_0000000000000000000000000000000000000000000000000000000000000000
  const TOTAL_PARTS: nat := 10000000000000000000000000000000000000000
  const PART: nat := (TT256 - 1) / TOTAL_PARTS
  const INTERVAL_DIFFERENCE: nat := 1000000000000000000000000000000
  const FIRST_INDEX: nat := TOTAL_PARTS - 34534
  const MAX_ALLOCATIONS: nat := 10000000000

  lemma PartSize()
    ensures PART == 11579208923731619542357098500868790785
    ensures forall n: nat :: IndexAt(n) == 9999999999999999999999999999999999965466 - n * 1000000000000000000000000000000
    ensures TOTAL_PARTS * PART <= TT256 - 1
  {
  }

  /** The index handed out by the `n`-th allocation. */
  function IndexAt(n: nat): int {
    FIRST_INDEX - n * INTERVAL_DIFFERENCE
  }

  function Low(index: int): int {
    index * PART
  }

  function High(index: int): int {
    Low(index) + PART
  }

  lemma IndexInRange(n: nat)
    requires n < MAX_ALLOCATIONS
    ensures 0 < IndexAt(n) <= FIRST_INDEX
  {
  }

  /** An interval does not wrap around and is wide enough for hashes that are multiples of 64. */
  lemma IntervalFits(index: int)
    requires 0 <= index <= FIRST_INDEX
    ensures 0 <= Low(index) && High(index) <= TT256
  {
    PartSize();
    assert index * PART <= FIRST_INDEX * PART;
  }

  /** As 256-bit constants the bounds of an interval in use are themselves. */
  lemma BoundsAreThemselves(index: int)
    requires 0 <= index <= FIRST_INDEX
    ensures Low(index) % TT256 == index * PART && High(index) % TT256 == index * PART + PART
  {
    PartSize();
    assert 0 <= index * PART <= FIRST_INDEX * PART;
  }

  lemma IntervalsDisjoint(n: nat, m: nat)
    requires n < m
    ensures High(IndexAt(m)) <= Low(IndexAt(n))
  {
    PartSize();
    assert IndexAt(m) + 1 <= IndexAt(n);
  }

}
