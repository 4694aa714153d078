/** The checksum on machine words, its table, and what it gives on the standard vectors of section B.4 of RFC 3720
    (util/crc32c.cc, util/crc32c_test.cc). */
module CrcVectors {
  import opened Keys
  import opened Crc32c
  import opened MachineWords

  // ----- the register on machine words

  function Bit32(x: bv32): bv32 { if x & 1 != 0 then (x >> 1) ^ 0x82f63b78 else x >> 1 }

  function Byte32(x: bv32): bv32 { Bit32(Bit32(Bit32(Bit32(Bit32(Bit32(Bit32(Bit32(x)))))))) }

  lemma BitOfBits(x: bv32)
    ensures Bit(Bits32(x)) == Bits32(Bit32(x))
  {
    assert Bits32(x)[0] == (x & 1 != 0);
    Polynomial();
    ShiftOfBits(x);
    XorOfBits(x >> 1, 0x82f63b78);
  }

  function BitTimes(x: bv32, n: nat): bv32 { if n == 0 then x else Bit32(BitTimes(x, n - 1)) }

  lemma {:induction false} BitsOfBits(x: bv32, n: nat)
    ensures Bits(Bits32(x), n) == Bits32(BitTimes(x, n))
  {
    if n > 0 {
      BitsOfBits(x, n - 1);
      BitOfBits(BitTimes(x, n - 1));
    }
  }

  lemma OneMoreBit(x: bv32, n: nat)
    ensures BitTimes(x, n + 1) == Bit32(BitTimes(x, n)) && BitTimes(x, 0) == x
  {}

  lemma EightBits(x: bv32)
    ensures BitTimes(x, 8) == Byte32(x)
  {
    OneMoreBit(x, 0);
    OneMoreBit(x, 1);
    OneMoreBit(x, 2);
    OneMoreBit(x, 3);
    OneMoreBit(x, 4);
    OneMoreBit(x, 5);
    OneMoreBit(x, 6);
    OneMoreBit(x, 7);
  }

  lemma ByteOfBits(x: bv32)
    ensures Byte(Bits32(x)) == Bits32(Byte32(x))
  {
    BitsOfBits(x, 8);
    EightBits(x);
  }

  lemma Polynomial()
    ensures POLYNOMIAL == Bits32(0x82f63b78)
  {
    LiteralParts(0x82f63b78, 0x82f63b7, 0x82f63b, 0x82f63, 0x82f6, 0x82f, 0x82, 0x8,
                 0x82f63b78, 0x82f63b7, 0x82f63b, 0x82f63, 0x82f6, 0x82f, 0x82, 0x8);
  }

  // ----- the table

  /** What one byte step makes of a machine word, in numerals. */
  ghost predicate Steps(n: nat, m: nat) { Byte(Numeral(n)) == Numeral(m) }

  lemma StepsTo(x: bv32, y: bv32, n: nat, m: nat)
    requires Numeral(n) == Bits32(x) && Numeral(m) == Bits32(y) && y == Byte32(x)
    ensures Steps(n, m)
  {
    ByteOfBits(x);
  }

  /** The entries 1, 2, 4, .. 128 of the first table; the others are their sums, by linearity. */
  lemma TableBasis()
    ensures Byte(Numeral(1)) == Numeral(0xf26b8303) && Byte(Numeral(2)) == Numeral(0xe13b70f7)
    ensures Byte(Numeral(4)) == Numeral(0xc79a971f) && Byte(Numeral(8)) == Numeral(0x8ad958cf)
    ensures Byte(Numeral(16)) == Numeral(0x105ec76f) && Byte(Numeral(32)) == Numeral(0x20bd8ede)
    ensures Byte(Numeral(64)) == Numeral(0x417b1dbc) && Byte(Numeral(128)) == Numeral(0x82f63b78)
  {
    Entry1();
    Entry2();
    Entry4();
    Entry8();
    Entry16();
    Entry32();
    Entry64();
    Entry128();
  }

  lemma Word1()
    ensures Numeral(0xf26b8303) == Bits32(0xf26b8303)
  {
    LiteralParts(0xf26b8303, 0xf26b830, 0xf26b83, 0xf26b8, 0xf26b, 0xf26, 0xf2, 0xf,
                 0xf26b8303, 0xf26b830, 0xf26b83, 0xf26b8, 0xf26b, 0xf26, 0xf2, 0xf);
  }

  lemma Entry1()
    ensures Byte(Numeral(1)) == Numeral(0xf26b8303)
  {
    ByteLiteral(1);
    Word1();
    StepsTo(1, 0xf26b8303, 1, 0xf26b8303);
  }

  lemma Word2()
    ensures Numeral(0xe13b70f7) == Bits32(0xe13b70f7)
  {
    LiteralParts(0xe13b70f7, 0xe13b70f, 0xe13b70, 0xe13b7, 0xe13b, 0xe13, 0xe1, 0xe,
                 0xe13b70f7, 0xe13b70f, 0xe13b70, 0xe13b7, 0xe13b, 0xe13, 0xe1, 0xe);
  }

  lemma Entry2()
    ensures Byte(Numeral(2)) == Numeral(0xe13b70f7)
  {
    ByteLiteral(2);
    Word2();
    StepsTo(2, 0xe13b70f7, 2, 0xe13b70f7);
  }

  lemma Word4()
    ensures Numeral(0xc79a971f) == Bits32(0xc79a971f)
  {
    LiteralParts(0xc79a971f, 0xc79a971, 0xc79a97, 0xc79a9, 0xc79a, 0xc79, 0xc7, 0xc,
                 0xc79a971f, 0xc79a971, 0xc79a97, 0xc79a9, 0xc79a, 0xc79, 0xc7, 0xc);
  }

  lemma Entry4()
    ensures Byte(Numeral(4)) == Numeral(0xc79a971f)
  {
    ByteLiteral(4);
    Word4();
    StepsTo(4, 0xc79a971f, 4, 0xc79a971f);
  }

  lemma Word8()
    ensures Numeral(0x8ad958cf) == Bits32(0x8ad958cf)
  {
    LiteralParts(0x8ad958cf, 0x8ad958c, 0x8ad958, 0x8ad95, 0x8ad9, 0x8ad, 0x8a, 0x8,
                 0x8ad958cf, 0x8ad958c, 0x8ad958, 0x8ad95, 0x8ad9, 0x8ad, 0x8a, 0x8);
  }

  lemma Entry8()
    ensures Byte(Numeral(8)) == Numeral(0x8ad958cf)
  {
    ByteLiteral(8);
    Word8();
    StepsTo(8, 0x8ad958cf, 8, 0x8ad958cf);
  }

  lemma Word16()
    ensures Numeral(0x105ec76f) == Bits32(0x105ec76f)
  {
    LiteralParts(0x105ec76f, 0x105ec76, 0x105ec7, 0x105ec, 0x105e, 0x105, 0x10, 0x1,
                 0x105ec76f, 0x105ec76, 0x105ec7, 0x105ec, 0x105e, 0x105, 0x10, 0x1);
  }

  lemma Entry16()
    ensures Byte(Numeral(16)) == Numeral(0x105ec76f)
  {
    ByteLiteral(16);
    Word16();
    StepsTo(16, 0x105ec76f, 16, 0x105ec76f);
  }

  lemma Word32()
    ensures Numeral(0x20bd8ede) == Bits32(0x20bd8ede)
  {
    LiteralParts(0x20bd8ede, 0x20bd8ed, 0x20bd8e, 0x20bd8, 0x20bd, 0x20b, 0x20, 0x2,
                 0x20bd8ede, 0x20bd8ed, 0x20bd8e, 0x20bd8, 0x20bd, 0x20b, 0x20, 0x2);
  }

  lemma Entry32()
    ensures Byte(Numeral(32)) == Numeral(0x20bd8ede)
  {
    ByteLiteral(32);
    Word32();
    StepsTo(32, 0x20bd8ede, 32, 0x20bd8ede);
  }

  lemma Word64()
    ensures Numeral(0x417b1dbc) == Bits32(0x417b1dbc)
  {
    LiteralParts(0x417b1dbc, 0x417b1db, 0x417b1d, 0x417b1, 0x417b, 0x417, 0x41, 0x4,
                 0x417b1dbc, 0x417b1db, 0x417b1d, 0x417b1, 0x417b, 0x417, 0x41, 0x4);
  }

  lemma Entry64()
    ensures Byte(Numeral(64)) == Numeral(0x417b1dbc)
  {
    ByteLiteral(64);
    Word64();
    StepsTo(64, 0x417b1dbc, 64, 0x417b1dbc);
  }

  lemma Word128()
    ensures Numeral(0x82f63b78) == Bits32(0x82f63b78)
  {
    LiteralParts(0x82f63b78, 0x82f63b7, 0x82f63b, 0x82f63, 0x82f6, 0x82f, 0x82, 0x8,
                 0x82f63b78, 0x82f63b7, 0x82f63b, 0x82f63, 0x82f6, 0x82f, 0x82, 0x8);
  }

  lemma Entry128()
    ensures Byte(Numeral(128)) == Numeral(0x82f63b78)
  {
    ByteLiteral(128);
    Word128();
    StepsTo(128, 0x82f63b78, 128, 0x82f63b78);
  }

  // ----- vectors

  lemma {:induction false} ZeroBits(n: nat)
    ensures ToBits(0, n) == seq(n, i => false)
  {
    if n > 0 { ZeroBits(n - 1); }
  }

  lemma {:induction false} MoreBits(x: nat, m: nat, n: nat)
    requires x < Pow2(m)
    ensures ToBits(x, m + n) == ToBits(x, m) + ToBits(0, n)
  {
    if m > 0 { MoreBits(x / 2, m - 1, n); }
  }

  lemma ByteNumeral(b: byte)
    ensures FromByte(b) == Numeral(b)
  {
    PowersOfTwo();
    MoreBits(b, 8, 24);
    ZeroBits(24);
  }

  lemma FeedOne(l: Word, s: Bytes, p: nat, x: bv32, c: bv8, y: bv32)
    requires p < |s| && s[p] == c as int && Register(l, s[..p]) == Bits32(x) && y == Byte32(x ^ (c as bv32))
    ensures Register(l, s[..p + 1]) == Bits32(y)
  {
    assert s[..p + 1][..p] == s[..p];
    ByteNumeral(s[p]);
    ByteLiteral(c);
    XorOfBits(x, c as bv32);
    ByteOfBits(x ^ (c as bv32));
  }

  /** Four bytes through the register. */
  lemma Feed(l: Word, s: Bytes, p: nat, x: bv32, a: bv8, x1: bv32, b: bv8, x2: bv32, c: bv8, x3: bv32, d: bv8, y: bv32)
    requires p + 4 <= |s| && Register(l, s[..p]) == Bits32(x)
    requires s[p] == a as int && s[p + 1] == b as int && s[p + 2] == c as int && s[p + 3] == d as int
    requires x1 == Byte32(x ^ (a as bv32)) && x2 == Byte32(x1 ^ (b as bv32))
    requires x3 == Byte32(x2 ^ (c as bv32)) && y == Byte32(x3 ^ (d as bv32))
    ensures Register(l, s[..p + 4]) == Bits32(y)
  {
    FeedOne(l, s, p, x, a, x1);
    FeedOne(l, s, p + 1, x1, b, x2);
    FeedOne(l, s, p + 2, x2, c, x3);
    FeedOne(l, s, p + 3, x3, d, y);
  }

  /** The register starts as all ones. */
  lemma Start(s: Bytes)
    ensures Xor(Zero(), Ones()) == Bits32(0xffff_ffff) && Ones() == Bits32(0xffff_ffff)
    ensures Register(Xor(Zero(), Ones()), s[..0]) == Bits32(0xffff_ffff)
  {
    AllOnes();
    XorLaws(Ones(), Zero(), Ones(), Zero());
    assert s[..0] == [];
  }

  lemma AllOnes()
    ensures Ones() == Bits32(0xffff_ffff)
  {
    LargestWord();
    PowersOfTwo();
    OnesNumeral(0xffff_ffff, 32);
  }

  lemma LargestWord()
    ensures Numeral(0xffff_ffff) == Bits32(0xffff_ffff)
  {
    LiteralParts(0xffff_ffff, 0xfff_ffff, 0xff_ffff, 0xf_ffff, 0xffff, 0xfff, 0xff, 0xf,
                 0xffff_ffff, 0xfff_ffff, 0xff_ffff, 0xf_ffff, 0xffff, 0xfff, 0xff, 0xf);
  }

  lemma {:induction false} OnesNumeral(x: nat, n: nat)
    requires x == Pow2(n) - 1
    ensures ToBits(x, n) == seq(n, i => true)
  {
    if n > 0 { OnesNumeral(x / 2, n - 1); }
  }

  /** The register is inverted at the end. */
  lemma End(s: Bytes, x: bv32, y: bv32, n: nat)
    requires Register(Xor(Zero(), Ones()), s[..|s|]) == Bits32(x) && y == x ^ 0xffff_ffff && Numeral(n) == Bits32(y)
    ensures Crc32c.Value(s) == Numeral(n)
  {
    assert s[..|s|] == s;
    AllOnes();
    XorOfBits(x, 0xffff_ffff);
  }

  /** 32 bytes of zeros. */
  ghost predicate IsZeros(s: Bytes) {
    |s| == 32 && forall i :: 0 <= i < 32 ==> s[i] == 0
  }

  lemma Zeros(s: Bytes)
    requires IsZeros(s)
    ensures Crc32c.Value(s) == Numeral(0x8a9136aa)
  {
    var l := Xor(Zero(), Ones());
    Start(s);
    Zeros1(l, s);
    Zeros2(l, s);
    Zeros3(l, s);
    Zeros4(l, s);
    ZerosSum();
    End(s, 0x756ec955, 0x8a9136aa, 0x8a9136aa);
  }

  lemma ZerosSum()
    ensures Numeral(0x8a9136aa) == Bits32(0x8a9136aa)
  {
    LiteralParts(0x8a9136aa, 0x8a9136a, 0x8a9136, 0x8a913, 0x8a91, 0x8a9, 0x8a, 0x8,
                 0x8a9136aa, 0x8a9136a, 0x8a9136, 0x8a913, 0x8a91, 0x8a9, 0x8a, 0x8);
  }

  lemma Zeros1(l: Word, s: Bytes)
    requires IsZeros(s) && Register(l, s[..0]) == Bits32(0xffffffff)
    ensures Register(l, s[..8]) == Bits32(0x73d74d75)
  {
    Feed(l, s, 0, 0xffffffff, 0, 0xad82acae, 0, 0xe9e882d, 0, 0x9f9b5c85, 0, 0xb798b438);
    Feed(l, s, 4, 0xb798b438, 0, 0xba8d89ca, 0, 0xa8d58375, 0, 0x44c19592, 0, 0x73d74d75);
  }

  lemma Zeros2(l: Word, s: Bytes)
    requires IsZeros(s) && Register(l, s[..8]) == Bits32(0x73d74d75)
    ensures Register(l, s[..16]) == Bits32(0xbd8f6515)
  {
    Feed(l, s, 8, 0x73d74d75, 0, 0x441a975c, 0, 0x1c220f94, 0, 0x552e4907, 0, 0xd49f4aa2);
    Feed(l, s, 12, 0xd49f4aa2, 0, 0x43a45a1b, 0, 0x8994c80e, 0, 0xacf12bef, 0, 0xbd8f6515);
  }

  lemma Zeros3(l: Word, s: Bytes)
    requires IsZeros(s) && Register(l, s[..16]) == Bits32(0xbd8f6515)
    ensures Register(l, s[..24]) == Bits32(0x7b041311)
  {
    Feed(l, s, 16, 0xbd8f6515, 0, 0x25125c16, 0, 0x36da32db, 0, 0x4a6c90a2, 0, 0x433aa9c1);
    Feed(l, s, 20, 0x433aa9c1, 0, 0x31a59f6e, 0, 0xcd8f89da, 0, 0xb8fc461a, 0, 0x7b041311);
  }

  lemma Zeros4(l: Word, s: Bytes)
    requires IsZeros(s) && Register(l, s[..24]) == Bits32(0x7b041311)
    ensures Register(l, s[..32]) == Bits32(0x756ec955)
  {
    Feed(l, s, 24, 0x7b041311, 0, 0xe24e407f, 0, 0x2f692669, 0, 0x195b2188, 0, 0x8363896);
    Feed(l, s, 28, 0x8363896, 0, 0xb4012dc7, 0, 0x17f34302, 0, 0xe12c83b4, 0, 0x756ec955);
  }

  /** 32 bytes of ones. */
  ghost predicate IsAllSet(s: Bytes) {
    |s| == 32 && forall i :: 0 <= i < 32 ==> s[i] == 255
  }

  lemma AllSet(s: Bytes)
    requires IsAllSet(s)
    ensures Crc32c.Value(s) == Numeral(0x62a8ab43)
  {
    var l := Xor(Zero(), Ones());
    Start(s);
    AllSet1(l, s);
    AllSet2(l, s);
    AllSet3(l, s);
    AllSet4(l, s);
    AllSetSum();
    End(s, 0x9d5754bc, 0x62a8ab43, 0x62a8ab43);
  }

  lemma AllSetSum()
    ensures Numeral(0x62a8ab43) == Bits32(0x62a8ab43)
  {
    LiteralParts(0x62a8ab43, 0x62a8ab4, 0x62a8ab, 0x62a8a, 0x62a8, 0x62a, 0x62, 0x6,
                 0x62a8ab43, 0x62a8ab4, 0x62a8ab, 0x62a8a, 0x62a8, 0x62a, 0x62, 0x6);
  }

  lemma AllSet1(l: Word, s: Bytes)
    requires IsAllSet(s) && Register(l, s[..0]) == Bits32(0xffffffff)
    ensures Register(l, s[..8]) == Bits32(0xb798b438)
  {
    Feed(l, s, 0, 0xffffffff, 255, 0xffffff, 255, 0xffff, 255, 0xff, 255, 0x0);
    Feed(l, s, 4, 0x0, 255, 0xad7d5351, 255, 0xe9e77d2, 255, 0x9f9b5c7a, 255, 0xb798b438);
  }

  lemma AllSet2(l: Word, s: Bytes)
    requires IsAllSet(s) && Register(l, s[..8]) == Bits32(0xb798b438)
    ensures Register(l, s[..16]) == Bits32(0x10d0b3ef)
  {
    Feed(l, s, 8, 0xb798b438, 255, 0x17f0da9b, 255, 0xa64bf4a7, 255, 0xdb5ac9e8, 255, 0xc44ff94d);
    Feed(l, s, 12, 0xc44ff94d, 255, 0x53ea4dc7, 255, 0xba69fb33, 255, 0x8e7480ef, 255, 0x10d0b3ef);
  }

  lemma AllSet3(l: Word, s: Bytes)
    requires IsAllSet(s) && Register(l, s[..16]) == Bits32(0x10d0b3ef)
    ensures Register(l, s[..24]) == Bits32(0xee657f3b)
  {
    Feed(l, s, 16, 0x10d0b3ef, 255, 0x104e17dc, 255, 0x33fd333d, 255, 0x2285ab00, 255, 0xad5fd6fa);
    Feed(l, s, 20, 0xad5fd6fa, 255, 0x355c4bca, 255, 0x52701e6, 255, 0x68e93ba2, 255, 0xee657f3b);
  }

  lemma AllSet4(l: Word, s: Bytes)
    requires IsAllSet(s) && Register(l, s[..24]) == Bits32(0xee657f3b)
    ensures Register(l, s[..32]) == Bits32(0x9d5754bc)
  {
    Feed(l, s, 24, 0xee657f3b, 255, 0x4f9d4a4, 255, 0xc8a8883c, 255, 0xd0157db8, 255, 0x95616c2a);
    Feed(l, s, 28, 0x95616c2a, 255, 0xe6b794db, 255, 0xe7c1ae55, 255, 0xc94e5c30, 255, 0x9d5754bc);
  }

  /** 32 increasing bytes. */
  ghost predicate IsIncreasing(s: Bytes) {
    |s| == 32 && forall i :: 0 <= i < 32 ==> s[i] == i
  }

  lemma Increasing(s: Bytes)
    requires IsIncreasing(s)
    ensures Crc32c.Value(s) == Numeral(0x46dd794e)
  {
    var l := Xor(Zero(), Ones());
    Start(s);
    Increasing1(l, s);
    Increasing2(l, s);
    Increasing3(l, s);
    Increasing4(l, s);
    IncreasingSum();
    End(s, 0xb92286b1, 0x46dd794e, 0x46dd794e);
  }

  lemma IncreasingSum()
    ensures Numeral(0x46dd794e) == Bits32(0x46dd794e)
  {
    LiteralParts(0x46dd794e, 0x46dd794, 0x46dd79, 0x46dd7, 0x46dd, 0x46d, 0x46, 0x4,
                 0x46dd794e, 0x46dd794, 0x46dd79, 0x46dd7, 0x46dd, 0x46d, 0x46, 0x4);
  }

  lemma Increasing1(l: Word, s: Bytes)
    requires IsIncreasing(s) && Register(l, s[..0]) == Bits32(0xffffffff)
    ensures Register(l, s[..8]) == Bits32(0x75d343c4)
  {
    Feed(l, s, 0, 0xffffffff, 0, 0xad82acae, 1, 0xfcf50b2e, 2, 0x6d02b405, 3, 0x26cce55c);
    Feed(l, s, 4, 0x26cce55c, 4, 0xdbda4ef9, 5, 0xbef67aeb, 6, 0x5ca612b3, 7, 0x75d343c4);
  }

  lemma Increasing2(l: Word, s: Bytes)
    requires IsIncreasing(s) && Register(l, s[..8]) == Bits32(0x75d343c4)
    ensures Register(l, s[..16]) == Bits32(0x2636f714)
  {
    Feed(l, s, 8, 0x75d343c4, 8, 0x8ebb3a57, 9, 0xfdd3dece, 10, 0x4ea6205, 11, 0xac7c5545);
    Feed(l, s, 12, 0xac7c5545, 12, 0x3965ba25, 13, 0xaa5db3ab, 14, 0x9710fc09, 15, 0x2636f714);
  }

  lemma Increasing3(l: Word, s: Bytes)
    requires IsIncreasing(s) && Register(l, s[..16]) == Bits32(0x2636f714)
    ensures Register(l, s[..24]) == Bits32(0xd643786a)
  {
    Feed(l, s, 16, 0x2636f714, 16, 0xc7bca1e8, 17, 0x8b1b0818, 18, 0x6b693330, 19, 0x33861419);
    Feed(l, s, 20, 0x33861419, 20, 0xbf1bcac7, 21, 0x32578a96, 22, 0x82c46cf2, 23, 0xd643786a);
  }

  lemma Increasing4(l: Word, s: Bytes)
    requires IsIncreasing(s) && Register(l, s[..24]) == Bits32(0xd643786a)
    ensures Register(l, s[..32]) == Bits32(0xb92286b1)
  {
    Feed(l, s, 24, 0xd643786a, 24, 0x90756782, 25, 0xbb1224b, 26, 0xa345e8f2, 27, 0x9b21363e);
    Feed(l, s, 28, 0x9b21363e, 28, 0xc11ddf1f, 29, 0xe1fa6d28, 30, 0x16a35434, 31, 0xb92286b1);
  }

  /** 32 decreasing bytes. */
  ghost predicate IsDecreasing(s: Bytes) {
    |s| == 32 && forall i :: 0 <= i < 32 ==> s[i] == 31 - i
  }

  lemma Decreasing(s: Bytes)
    requires IsDecreasing(s)
    ensures Crc32c.Value(s) == Numeral(0x113fdb5c)
  {
    var l := Xor(Zero(), Ones());
    Start(s);
    Decreasing1(l, s);
    Decreasing2(l, s);
    Decreasing3(l, s);
    Decreasing4(l, s);
    DecreasingSum();
    End(s, 0xeec024a3, 0x113fdb5c, 0x113fdb5c);
  }

  lemma DecreasingSum()
    ensures Numeral(0x113fdb5c) == Bits32(0x113fdb5c)
  {
    LiteralParts(0x113fdb5c, 0x113fdb5, 0x113fdb, 0x113fd, 0x113f, 0x113, 0x11, 0x1,
                 0x113fdb5c, 0x113fdb5, 0x113fdb, 0x113fd, 0x113f, 0x113, 0x11, 0x1);
  }

  lemma Decreasing1(l: Word, s: Bytes)
    requires IsDecreasing(s) && Register(l, s[..0]) == Bits32(0xffffffff)
    ensures Register(l, s[..8]) == Bits32(0xeef60158)
  {
    Feed(l, s, 0, 0xffffffff, 31, 0xe3cf57e5, 30, 0x6a040b19, 29, 0xc7f09314, 28, 0x8a1ea85c);
    Feed(l, s, 4, 0x8a1ea85c, 27, 0x953b67ff, 26, 0xd6548761, 25, 0xfb975845, 24, 0xeef60158);
  }

  lemma Decreasing2(l: Word, s: Bytes)
    requires IsDecreasing(s) && Register(l, s[..8]) == Bits32(0xeef60158)
    ensures Register(l, s[..16]) == Bits32(0x7016b70c)
  {
    Feed(l, s, 8, 0xeef60158, 23, 0x1f86d799, 22, 0xdcfa818b, 21, 0x3e0cb9b1, 20, 0x9784ad03);
    Feed(l, s, 12, 0x9784ad03, 19, 0x10c943c2, 18, 0xd3c328e8, 17, 0x8b0f7791, 16, 0x7016b70c);
  }

  lemma Decreasing3(l: Word, s: Bytes)
    requires IsDecreasing(s) && Register(l, s[..16]) == Bits32(0x7016b70c)
    ensures Register(l, s[..24]) == Bits32(0x5c7c4cfa)
  {
    Feed(l, s, 16, 0x7016b70c, 15, 0x1320e543, 14, 0xfe40718a, 13, 0x56c21fe2, 12, 0x4f1ed522);
    Feed(l, s, 20, 0x4f1ed522, 11, 0x58404bc7, 10, 0x7cfd2a5c, 9, 0x64a833e5, 8, 0x5c7c4cfa);
  }

  lemma Decreasing4(l: Word, s: Bytes)
    requires IsDecreasing(s) && Register(l, s[..24]) == Bits32(0x5c7c4cfa)
    ensures Register(l, s[..32]) == Bits32(0xeec024a3)
  {
    Feed(l, s, 24, 0x5c7c4cfa, 7, 0x4c1a5fea, 6, 0xae3f7d95, 5, 0x9206c36a, 4, 0xcd2c2a86);
    Feed(l, s, 28, 0xcd2c2a86, 3, 0xb7ca034e, 2, 0xc8f186f, 1, 0xcdb2a35d, 0, 0xeec024a3);
  }

  /** An iSCSI read command: all zeros but for eight bytes. */
  ghost predicate IsCommand(s: Bytes) {
    && |s| == 48 && s[0] == 1 && s[1] == 192 && s[16] == 20 && s[22] == 4 && s[27] == 20
    && s[31] == 24 && s[32] == 40 && s[40] == 2
    && forall i :: 0 <= i < 48 && i !in {0, 1, 16, 22, 27, 31, 32, 40} ==> s[i] == 0
  }

  lemma Command(s: Bytes)
    requires IsCommand(s)
    ensures Crc32c.Value(s) == Numeral(0xd9963a56)
  {
    var l := Xor(Zero(), Ones());
    Start(s);
    Command1(l, s);
    Command2(l, s);
    Command3(l, s);
    Command4(l, s);
    Command5(l, s);
    Command6(l, s);
    CommandSum();
    End(s, 0x2669c5a9, 0xd9963a56, 0xd9963a56);
  }

  lemma CommandSum()
    ensures Numeral(0xd9963a56) == Bits32(0xd9963a56)
  {
    LiteralParts(0xd9963a56, 0xd9963a5, 0xd9963a, 0xd9963, 0xd996, 0xd99, 0xd9, 0xd,
                 0xd9963a56, 0xd9963a5, 0xd9963a, 0xd9963, 0xd996, 0xd99, 0xd9, 0xd);
  }

  lemma Command1(l: Word, s: Bytes)
    requires IsCommand(s) && Register(l, s[..0]) == Bits32(0xffffffff)
    ensures Register(l, s[..8]) == Bits32(0xb53239dc)
  {
    Feed(l, s, 0, 0xffffffff, 1, 0x5fe92fad, 192, 0xdeb1369e, 0, 0x3e0ef206, 0, 0x269fe91a);
    Feed(l, s, 4, 0x269fe91a, 0, 0x7b9a70be, 0, 0x1e16579e, 0, 0x3ece5567, 0, 0xb53239dc);
  }

  lemma Command2(l: Word, s: Bytes)
    requires IsCommand(s) && Register(l, s[..8]) == Bits32(0xb53239dc)
    ensures Register(l, s[..16]) == Bits32(0xf2772c61)
  {
    Feed(l, s, 8, 0xb53239dc, 0, 0x9e251c42, 0, 0xa0de4857, 0, 0x854f6070, 0, 0x711d1b6d);
    Feed(l, s, 12, 0x711d1b6d, 0, 0xde9fc2aa, 0, 0xc977025c, 0, 0x1caf6201, 0, 0xf2772c61);
  }

  lemma Command3(l: Word, s: Bytes)
    requires IsCommand(s) && Register(l, s[..16]) == Bits32(0xf2772c61)
    ensures Register(l, s[..24]) == Bits32(0x13a5b76d)
  {
    Feed(l, s, 16, 0xf2772c61, 20, 0x449b373d, 0, 0x8f8f9e55, 0, 0x645b4151, 0, 0xa32a0291);
    Feed(l, s, 20, 0xa32a0291, 0, 0x60605516, 0, 0x369f40d2, 4, 0xf5449903, 0, 0x13a5b76d);
  }

  lemma Command4(l: Word, s: Bytes)
    requires IsCommand(s) && Register(l, s[..24]) == Bits32(0x13a5b76d)
    ensures Register(l, s[..32]) == Bits32(0x8259fe8c)
  {
    Feed(l, s, 24, 0x13a5b76d, 0, 0xdefd7a06, 0, 0x267f1a92, 0, 0x73b5f3fa, 20, 0x4f3ba2ce);
    Feed(l, s, 28, 0x4f3ba2ce, 0, 0x6fbaa241, 0, 0xb37f241d, 0, 0xafc5f498, 24, 0x8259fe8c);
  }

  lemma Command5(l: Word, s: Bytes)
    requires IsCommand(s) && Register(l, s[..32]) == Bits32(0x8259fe8c)
    ensures Register(l, s[..40]) == Bits32(0x52b072c0)
  {
    Feed(l, s, 32, 0x8259fe8c, 40, 0x65537b47, 0, 0x95d42a2c, 0, 0x6d6b9524, 0, 0xe74a7254);
    Feed(l, s, 36, 0xe74a7254, 0, 0x965807be, 0, 0x1efb95e9, 0, 0x9b9c8843, 0, 0x52b072c0);
  }

  lemma Command6(l: Word, s: Bytes)
    requires IsCommand(s) && Register(l, s[..40]) == Bits32(0x52b072c0)
    ensures Register(l, s[..48]) == Bits32(0x2669c5a9)
  {
    Feed(l, s, 40, 0x52b072c0, 2, 0x22e4e641, 0, 0xb3327a59, 0, 0x29243365, 0, 0x541ea34d);
    Feed(l, s, 44, 0x541ea34d, 0, 0xfe074fcc, 0, 0x8e30ee5b, 0, 0xc8224106, 0, 0x2669c5a9);
  }
}
