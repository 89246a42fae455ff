/** Words and bytes shared by the register models. */
module Words {

  /** A 32-bit word is the set of its one bits: `|=` is union, `&= ~` is difference, 0 is the empty set. */
  type Bit = b: nat | b < 32
  type Word = set<Bit>

  type Byte = bv8
}
