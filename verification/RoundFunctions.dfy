// The functions of section 3.4 of RFC 1321 said another way: which bits they take,
// and where a circular shift puts them.
module RoundFunctions {
  import opened Words
  import Rfc1321
  import Md5

  // F chooses by x: where x is set the bits of y, elsewhere those of z.
  lemma FChooses(x: Word, y: Word, z: Word)
    ensures Rfc1321.Auxiliary(0, x, y, z) & x == y & x
    ensures Rfc1321.Auxiliary(0, x, y, z) & !x == z & !x
  {
  }

  // G chooses by z: where z is set the bits of x, elsewhere those of y.
  lemma GChooses(x: Word, y: Word, z: Word)
    ensures Rfc1321.Auxiliary(1, x, y, z) & z == x & z
    ensures Rfc1321.Auxiliary(1, x, y, z) & !z == y & !z
  {
  }

  // H is the parity: x where y and z agree, and elsewhere its complement.
  lemma HIsParity(x: Word, y: Word, z: Word)
    ensures Rfc1321.Auxiliary(2, x, y, z) & !(y ^ z) == x & !(y ^ z)
    ensures Rfc1321.Auxiliary(2, x, y, z) & (y ^ z) == !x & (y ^ z)
  {
  }

  // I is the complement of y where x is set, y where only z is, and otherwise the
  // complement again.
  lemma IChooses(x: Word, y: Word, z: Word)
    ensures Rfc1321.Auxiliary(3, x, y, z) & x == !y & x
    ensures Rfc1321.Auxiliary(3, x, y, z) & (!x & z) == y & (!x & z)
    ensures Rfc1321.Auxiliary(3, x, y, z) & (!x & !z) == !y & (!x & !z)
  {
  }

  // The macros of include/md5.h are these functions.
  lemma MacrosAreAuxiliary(x: Word, y: Word, z: Word)
    ensures Md5.F(x, y, z) == Rfc1321.Auxiliary(0, x, y, z)
    ensures Md5.G(x, y, z) == Rfc1321.Auxiliary(1, x, y, z)
    ensures Md5.H(x, y, z) == Rfc1321.Auxiliary(2, x, y, z)
    ensures Md5.I(x, y, z) == Rfc1321.Auxiliary(3, x, y, z)
  {
  }

  // After a circular shift by s the s high bits of a word are the low ones, and the
  // others have moved up.
  lemma CircularShiftUp(x: Word, s: Word)
    requires s < 32
    ensures Rfc1321.CircularShift(x, s) >> s == (x << s) >> s
  {
  }

  lemma CircularShiftAround(x: Word, s: Word)
    requires 0 < s < 32
    ensures Rfc1321.CircularShift(x, s) << (32 - s) == (x >> (32 - s)) << (32 - s)
  {
  }
}
