/** Machine words and the words of the checksum's specification: the bits of a bv32, its shifts and sums, and numerals. */
module MachineWords {
  import opened Keys
  import opened Crc32c

  // ----- machine words

  /** Bit `i` of a machine word. */
  predicate On(x: bv32, i: nat)
    decreases i
  {
    if i == 0 then x & 1 != 0 else On(x >> 1, i - 1)
  }

  function Bits32(x: bv32): Word { seq(32, i requires 0 <= i < 32 => On(x, i)) }

  lemma XorShifts(x: bv32, y: bv32, z: bv32)
    requires z == x ^ y
    ensures z >> 1 == (x >> 1) ^ (y >> 1)
  {}

  ghost predicate IsSum(x: bv32, y: bv32, z: bv32, i: nat) { On(z, i) == (On(x, i) != On(y, i)) }

  lemma SumFirst(x: bv32, y: bv32, z: bv32)
    requires z == x ^ y
    ensures IsSum(x, y, z, 0)
  {}

  lemma SumNext(x: bv32, y: bv32, z: bv32, i: nat)
    requires IsSum(x >> 1, y >> 1, z >> 1, i)
    ensures IsSum(x, y, z, i + 1)
  {
    OnNext(x, i);
    OnNext(y, i);
    OnNext(z, i);
  }

  lemma {:induction false} XorOn(x: bv32, y: bv32, z: bv32, i: nat)
    requires z == x ^ y
    ensures IsSum(x, y, z, i)
    decreases i
  {
    if i == 0 {
      SumFirst(x, y, z);
    } else {
      XorShifts(x, y, z);
      XorOn(x >> 1, y >> 1, z >> 1, i - 1);
      SumNext(x, y, z, i - 1);
    }
  }

  lemma XorOfBits(x: bv32, y: bv32)
    ensures Xor(Bits32(x), Bits32(y)) == Bits32(x ^ y)
  {
    var z := x ^ y;
    forall i | 0 <= i < 32 ensures On(z, i) == (On(x, i) != On(y, i)) { XorOn(x, y, z, i); }
  }

  lemma ShiftFour(x: bv32)
    ensures (((x >> 1) >> 1) >> 1) >> 1 == x >> 4
  {}

  lemma FourOn(x: bv32, i: nat)
    ensures On(x, i + 4) == On(x >> 4, i)
  {
    ShiftFour(x);
    OnNext(x, i + 3);
    OnNext(x >> 1, i + 2);
    OnNext((x >> 1) >> 1, i + 1);
    OnNext(((x >> 1) >> 1) >> 1, i);
  }

  lemma OnNext(x: bv32, i: nat)
    ensures On(x, i + 1) == On(x >> 1, i)
  {}

  lemma NothingAbove(x: bv32)
    ensures !On(x, 32)
  {
    ShiftsAdd(x);
    FourOn(x, 28);
    FourOn(x >> 4, 24);
    FourOn(x >> 8, 20);
    FourOn(x >> 12, 16);
    FourOn(x >> 16, 12);
    FourOn(x >> 20, 8);
    FourOn(x >> 24, 4);
    FourOn(x >> 28, 0);
  }

  lemma ShiftOfBits(x: bv32)
    ensures Shift(Bits32(x), 1) == Bits32(x >> 1)
  {
    forall i {:trigger On(x >> 1, i)} | 0 <= i < 32 ensures On(x >> 1, i) == (i + 1 < 32 && On(x, i + 1)) {
      OnNext(x, i);
      if i == 31 { NothingAbove(x); }
    }
  }

  // ----- literals

  /** Bit `i` of a number. */
  predicate BitOf(n: nat, i: nat)
    decreases i
  {
    if i == 0 then n % 2 == 1 else BitOf(n / 2, i - 1)
  }

  lemma {:induction false} BitsAre(n: nat, k: nat, i: nat)
    requires i < k
    ensures ToBits(n, k)[i] == BitOf(n, i)
  {
    if i > 0 { BitsAre(n / 2, k - 1, i - 1); }
  }

  /** The lowest `k` bits of the word and of the number agree. */
  ghost predicate Agree(x: bv32, n: nat, k: nat) { forall i :: 0 <= i < k ==> On(x, i) == BitOf(n, i) }

  /** The lowest four bits agree. */
  predicate SameNibble(x: bv32, n: nat) {
    && (x & 1 != 0) == (n % 2 == 1) && (x & 2 != 0) == (n / 2 % 2 == 1)
    && (x & 4 != 0) == (n / 4 % 2 == 1) && (x & 8 != 0) == (n / 8 % 2 == 1)
  }

  lemma FourMore(n: nat, i: nat)
    ensures BitOf(n, i + 4) == BitOf(n / 16, i)
  {
    assert BitOf(n, i + 4) == BitOf(n / 2, i + 3);
    assert BitOf(n / 2, i + 3) == BitOf(n / 2 / 2, i + 2);
    assert BitOf(n / 2 / 2, i + 2) == BitOf(n / 2 / 2 / 2, i + 1);
    assert BitOf(n / 2 / 2 / 2, i + 1) == BitOf(n / 2 / 2 / 2 / 2, i);
    Sixteenth(n);
  }

  lemma Sixteenth(n: nat)
    ensures n / 2 / 2 / 2 / 2 == n / 16 && n / 2 / 2 == n / 4 && n / 2 / 2 / 2 == n / 8
  {}

  lemma FirstFour(x: bv32, n: nat)
    requires SameNibble(x, n)
    ensures On(x, 0) == BitOf(n, 0) && On(x, 1) == BitOf(n, 1) && On(x, 2) == BitOf(n, 2) && On(x, 3) == BitOf(n, 3)
  {
    FirstMasks(x);
    FirstBits(n);
  }

  lemma LowFour(x: bv32)
    ensures ((x >> 1) & 1 != 0) == (x & 2 != 0) && (((x >> 1) >> 1) & 1 != 0) == (x & 4 != 0)
    ensures ((((x >> 1) >> 1) >> 1) & 1 != 0) == (x & 8 != 0)
  {}

  lemma FirstMasks(x: bv32)
    ensures On(x, 0) == (x & 1 != 0) && On(x, 1) == (x & 2 != 0) && On(x, 2) == (x & 4 != 0) && On(x, 3) == (x & 8 != 0)
  {
    LowFour(x);
    OnNext(x, 0);
    OnNext(x, 1);
    OnNext(x >> 1, 0);
    OnNext(x, 2);
    OnNext(x >> 1, 1);
    OnNext((x >> 1) >> 1, 0);
  }

  lemma FirstBits(n: nat)
    ensures BitOf(n, 0) == (n % 2 == 1) && BitOf(n, 1) == (n / 2 % 2 == 1)
    ensures BitOf(n, 2) == (n / 4 % 2 == 1) && BitOf(n, 3) == (n / 8 % 2 == 1)
  {
    Sixteenth(n);
    assert BitOf(n, 2) == BitOf(n / 2, 1) == BitOf(n / 2 / 2, 0);
    assert BitOf(n, 3) == BitOf(n / 2, 2) == BitOf(n / 2 / 2, 1) == BitOf(n / 2 / 2 / 2, 0);
  }

  lemma AgreeFour(x: bv32, y: bv32, n: nat, m: nat, k: nat)
    requires SameNibble(x, n) && y == x >> 4 && m == n / 16 && Agree(y, m, k)
    ensures Agree(x, n, k + 4)
  {
    FirstFour(x, n);
    forall i | 4 <= i < k + 4 ensures On(x, i) == BitOf(n, i) {
      FourOn(x, i - 4);
      FourMore(n, i - 4);
    }
    forall i | 0 <= i < k + 4 ensures On(x, i) == BitOf(n, i) {
      if i < 4 { assert i == 0 || i == 1 || i == 2 || i == 3; }
    }
  }

  lemma ShiftsAdd(x: bv32)
    ensures (x >> 4) >> 4 == x >> 8 && (x >> 8) >> 4 == x >> 12 && (x >> 12) >> 4 == x >> 16 && (x >> 16) >> 4 == x >> 20
    ensures (x >> 20) >> 4 == x >> 24 && (x >> 24) >> 4 == x >> 28 && (x >> 28) >> 4 == 0
  {}

  /** A machine word is the word of its numeral; the parts are shifted by one hexadecimal digit each. */
  lemma LiteralParts(
    x0: bv32, x1: bv32, x2: bv32, x3: bv32, x4: bv32, x5: bv32, x6: bv32, x7: bv32,
    n0: nat, n1: nat, n2: nat, n3: nat, n4: nat, n5: nat, n6: nat, n7: nat)
    requires x1 == x0 >> 4 && x2 == x1 >> 4 && x3 == x2 >> 4 && x4 == x3 >> 4
    requires x5 == x4 >> 4 && x6 == x5 >> 4 && x7 == x6 >> 4
    requires n1 == n0 / 16 && n2 == n1 / 16 && n3 == n2 / 16 && n4 == n3 / 16
    requires n5 == n4 / 16 && n6 == n5 / 16 && n7 == n6 / 16
    requires SameNibble(x0, n0) && SameNibble(x1, n1) && SameNibble(x2, n2) && SameNibble(x3, n3)
    requires SameNibble(x4, n4) && SameNibble(x5, n5) && SameNibble(x6, n6) && SameNibble(x7, n7)
    ensures Numeral(n0) == Bits32(x0)
  {
    AgreeEight(x6, x7, x7 >> 4, n6, n7, n7 / 16, 0);
    AgreeEight(x4, x5, x6, n4, n5, n6, 8);
    AgreeEight(x2, x3, x4, n2, n3, n4, 16);
    AgreeEight(x0, x1, x2, n0, n1, n2, 24);
    AgreeAll(x0, n0);
  }

  lemma AgreeEight(x0: bv32, x1: bv32, x2: bv32, n0: nat, n1: nat, n2: nat, k: nat)
    requires x1 == x0 >> 4 && x2 == x1 >> 4 && n1 == n0 / 16 && n2 == n1 / 16 && Agree(x2, n2, k)
    requires SameNibble(x0, n0) && SameNibble(x1, n1)
    ensures Agree(x0, n0, k + 8)
  {
    AgreeFour(x1, x2, n1, n2, k);
    AgreeFour(x0, x1, n0, n1, k + 4);
  }

  lemma AgreeAll(x: bv32, n: nat)
    requires Agree(x, n, 32)
    ensures Numeral(n) == Bits32(x)
  {
    forall i | 0 <= i < 32 ensures Numeral(n)[i] == Bits32(x)[i] {
      BitsAre(n, 32, i);
    }
  }

  // ----- bytes

  lemma LowOnes(c: bv8)
    ensures ((c as bv32) & 1 != 0) == ((c as int) / 1 % 2 == 1)
  {}

  lemma LowTwos(c: bv8)
    ensures ((c as bv32) & 2 != 0) == ((c as int) / 2 % 2 == 1)
  {}

  lemma LowFours(c: bv8)
    ensures ((c as bv32) & 4 != 0) == ((c as int) / 4 % 2 == 1)
  {}

  lemma LowEights(c: bv8)
    ensures ((c as bv32) & 8 != 0) == ((c as int) / 8 % 2 == 1)
  {}

  lemma HighOnes(c: bv8)
    ensures (((c as bv32) >> 4) & 1 != 0) == ((c as int) / 16 / 1 % 2 == 1)
  {}

  lemma HighTwos(c: bv8)
    ensures (((c as bv32) >> 4) & 2 != 0) == ((c as int) / 16 / 2 % 2 == 1)
  {}

  lemma HighFours(c: bv8)
    ensures (((c as bv32) >> 4) & 4 != 0) == ((c as int) / 16 / 4 % 2 == 1)
  {}

  lemma HighEights(c: bv8)
    ensures (((c as bv32) >> 4) & 8 != 0) == ((c as int) / 16 / 8 % 2 == 1)
  {}

  lemma NothingHigher(c: bv8)
    ensures ((c as bv32) >> 4) >> 4 == 0 && (c as int) / 16 / 16 == 0
  {}

  lemma ByteNibbles(c: bv8)
    ensures SameNibble(c as bv32, c as int) && SameNibble((c as bv32) >> 4, (c as int) / 16)
  {
    LowOnes(c);
    LowTwos(c);
    LowFours(c);
    LowEights(c);
    HighOnes(c);
    HighTwos(c);
    HighFours(c);
    HighEights(c);
  }

  lemma ByteLiteral(c: bv8)
    ensures Numeral(c as int) == Bits32(c as bv32)
  {
    ByteNibbles(c);
    NothingHigher(c);
    LiteralParts(c as bv32, (c as bv32) >> 4, 0, 0, 0, 0, 0, 0, c as int, (c as int) / 16, 0, 0, 0, 0, 0, 0);
  }
}
