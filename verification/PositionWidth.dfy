/** Positions of table entries, which are stored in PMAX bits. */
module PositionWidth {
  import opened Powers

  const PMAX: nat := 32

  /** The first position that does not fit. */
  const MAX_POSITION: nat := Pow2(PMAX)

  lemma PositionsAre32Bits()
    ensures MAX_POSITION == 0x1_0000_0000
  {
    Pow2Add(8, 8);
    Pow2Add(16, 16);
    assert Pow2(8) == 256;
  }
}
