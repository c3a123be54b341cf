/** The 32-bit words of the Blowfish code and their operations. */
module Words {
  type Word = bv32

  function Xor(a: Word, b: Word): Word {
    a ^ b
  }

  function And(a: Word, b: Word): Word {
    a & b
  }

  /** Addition modulo 2^32. */
  function Plus(a: Word, b: Word): Word {
    a + b
  }

  function ShiftRight(a: Word, n: nat): Word
    requires n < 32
  {
    a >> n
  }
}
