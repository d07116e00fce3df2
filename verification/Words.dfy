/** The numbers every model of chain data shares. */
module Words {

  /** A 256-bit word, as a number. */
  type Word = nat

  type Address = nat
}
