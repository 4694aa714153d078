/** CRC-32C, four bytes at a time (util/crc32c.cc, util/crc32c.h, util/coding.cc).

    A 32-bit word is its bits, least significant first.  The specification is the bit-serial register of the
    Castagnoli polynomial (section 12.1 of RFC 3720), in its reflected form; the four tables are defined by their
    recurrence.
 */
module Crc32c {
  import opened Keys

  type Word = w: seq<bool> | |w| == 32 witness seq(32, i => false)

  // ----- numerals


  /** The lowest n bits of x, least significant first. */
  function ToBits(x: nat, n: nat): (w: seq<bool>)
    ensures |w| == n
  {
    if n == 0 then [] else [x % 2 == 1] + ToBits(x / 2, n - 1)
  }

  function FromBits(w: seq<bool>): (x: nat)
    ensures x < Pow2(|w|)
  {
    if w == [] then 0 else (if w[0] then 1 else 0) + 2 * FromBits(w[1..])
  }

  lemma {:induction false} BitsRoundTrip(w: seq<bool>)
    ensures ToBits(FromBits(w), |w|) == w
  {
    if w != [] {
      BitsRoundTrip(w[1..]);
      assert FromBits(w) / 2 == FromBits(w[1..]);
    }
  }

  lemma {:induction false} NumberRoundTrip(x: nat, n: nat)
    requires x < Pow2(n)
    ensures FromBits(ToBits(x, n)) == x
  {
    if n > 0 {
      NumberRoundTrip(x / 2, n - 1);
      assert ToBits(x, n)[1..] == ToBits(x / 2, n - 1);
    }
  }

  lemma PowersOfTwo()
    ensures Pow2(8) == 0x100 && Pow2(32) == 0x1_0000_0000
  {
    assert Pow2(4) == 16 && Pow2(8) == 256;
    assert Pow2(12) == 0x1000 && Pow2(16) == 0x10000;
    assert Pow2(20) == 0x10_0000 && Pow2(24) == 0x100_0000;
    assert Pow2(28) == 0x1000_0000;
  }

  /** A word given by its numeral. */
  function Numeral(x: nat): Word { ToBits(x, 32) }

  function Xor(a: Word, b: Word): Word { seq(32, i requires 0 <= i < 32 => a[i] != b[i]) }

  /** The lowest byte, and everything above it moved down. */
  function Low(a: Word): Word { seq(32, i requires 0 <= i < 32 => i < 8 && a[i]) }
  function Shift(a: Word, n: nat): Word { seq(32, i requires 0 <= i < 32 => i + n < 32 && a[i + n]) }

  function Zero(): Word { seq(32, i => false) }
  function Ones(): Word { seq(32, i => true) }

  // ----- bytes

  type Octet = w: seq<bool> | |w| == 8 witness seq(8, i => false)

  function BitsOf(b: byte): Octet { ToBits(b, 8) }

  function ByteOf(w: Octet): byte {
    PowersOfTwo();
    FromBits(w)
  }

  lemma ByteRoundTrip(b: byte, w: Octet)
    ensures ByteOf(BitsOf(b)) == b
    ensures BitsOf(ByteOf(w)) == w
  {
    PowersOfTwo();
    NumberRoundTrip(b, 8);
    BitsRoundTrip(w);
  }

  function FromByte(b: byte): Word { BitsOf(b) + seq(24, i => false) }

  /** EncodeFixed32 and DecodeFixed32: little-endian. */
  function EncodeFixed32(w: Word): (r: Bytes)
    ensures |r| == 4
  {
    [ByteOf(w[0..8]), ByteOf(w[8..16]), ByteOf(w[16..24]), ByteOf(w[24..32])]
  }

  function DecodeFixed32(s: Bytes): Word
    requires |s| == 4
  {
    BitsOf(s[0]) + BitsOf(s[1]) + BitsOf(s[2]) + BitsOf(s[3])
  }

  /** Fixed-width encoding is a bijection between words and strings of four bytes. */
  lemma Fixed32RoundTrip(w: Word, s: Bytes)
    requires |s| == 4
    ensures DecodeFixed32(EncodeFixed32(w)) == w
    ensures EncodeFixed32(DecodeFixed32(s)) == s
  {
    EncodeThenDecode(w);
    DecodeThenEncode(s);
  }

  lemma EncodeThenDecode(w: Word)
    ensures DecodeFixed32(EncodeFixed32(w)) == w
  {
    ByteRoundTrip(0, w[0..8]);
    ByteRoundTrip(0, w[8..16]);
    ByteRoundTrip(0, w[16..24]);
    ByteRoundTrip(0, w[24..32]);
    Joined(w, w[0..8], w[8..16], w[16..24], w[24..32]);
  }

  lemma Joined(w: Word, a: Octet, b: Octet, c: Octet, d: Octet)
    requires w[0..8] == a && w[8..16] == b && w[16..24] == c && w[24..32] == d
    ensures w == a + b + c + d
  {}

  lemma Sliced(w: Word, a: Octet, b: Octet, c: Octet, d: Octet)
    requires w == a + b + c + d
    ensures w[0..8] == a && w[8..16] == b && w[16..24] == c && w[24..32] == d
  {}

  lemma DecodeThenEncode(s: Bytes)
    requires |s| == 4
    ensures EncodeFixed32(DecodeFixed32(s)) == s
  {
    ByteRoundTrip(s[0], BitsOf(0));
    ByteRoundTrip(s[1], BitsOf(0));
    ByteRoundTrip(s[2], BitsOf(0));
    ByteRoundTrip(s[3], BitsOf(0));
    Sliced(DecodeFixed32(s), BitsOf(s[0]), BitsOf(s[1]), BitsOf(s[2]), BitsOf(s[3]));
  }

  // ----- specification

  const POLYNOMIAL: Word := Numeral(0x82f63b78)

  /** One bit through the register. */
  function Bit(x: Word): Word {
    if x[0] then Xor(Shift(x, 1), POLYNOMIAL) else Shift(x, 1)
  }

  function Bits(x: Word, n: nat): Word {
    if n == 0 then x else Bit(Bits(x, n - 1))
  }

  /** One byte through the register. */
  function Byte(x: Word): Word { Bits(x, 8) }

  /** The register after the bytes of `s`, each added at the low end. */
  function Register(l: Word, s: Bytes): Word {
    if s == [] then l else Byte(Xor(Register(l, s[..|s| - 1]), FromByte(s[|s| - 1])))
  }

  /** The checksum of a string with checksum `crc`, extended by `s`. */
  function Extended(crc: Word, s: Bytes): Word { Xor(Register(Xor(crc, Ones()), s), Ones()) }

  /** The checksum of `s`. */
  function Value(s: Bytes): Word { Extended(Zero(), s) }

  // ----- the register is linear

  lemma XorLaws(a: Word, b: Word, c: Word, d: Word)
    ensures Xor(Xor(a, b), Xor(c, d)) == Xor(Xor(a, c), Xor(b, d))
    ensures Xor(Xor(a, b), c) == Xor(a, Xor(b, c))
    ensures Xor(a, b) == Xor(b, a) && Xor(a, Zero()) == a && Xor(a, a) == Zero()
  {}

  lemma BitLinear(x: Word, y: Word)
    ensures Bit(Xor(x, y)) == Xor(Bit(x), Bit(y))
  {
    assert forall i :: 0 <= i < 32 ==> Bit(Xor(x, y))[i] == Xor(Bit(x), Bit(y))[i];
  }

  lemma {:induction false} BitsLinear(x: Word, y: Word, n: nat)
    ensures Bits(Xor(x, y), n) == Xor(Bits(x, n), Bits(y, n))
  {
    if n > 0 {
      BitsLinear(x, y, n - 1);
      BitLinear(Bits(x, n - 1), Bits(y, n - 1));
    }
  }

  /** With nothing in its lowest n bits, the register only shifts. */
  lemma {:induction false} UpperShifts(z: Word, n: nat)
    requires n <= 8 && forall i :: 0 <= i < n ==> !z[i]
    ensures Bits(z, n) == Shift(z, n)
  {
    if n > 0 {
      UpperShifts(z, n - 1);
      assert !Shift(z, n - 1)[0];
    }
  }

  // ----- the tables

  function Table0(c: Word): Word { Byte(Low(c)) }
  function Table1(c: Word): Word { Xor(Shift(Table0(c), 8), Table0(Table0(c))) }
  function Table2(c: Word): Word { Xor(Shift(Table1(c), 8), Table0(Table1(c))) }
  function Table3(c: Word): Word { Xor(Shift(Table2(c), 8), Table0(Table2(c))) }

  /** A byte step looks the lowest byte up and shifts the others down. */
  lemma ByteByTable(x: Word)
    ensures Byte(x) == Xor(Shift(x, 8), Table0(x))
  {
    var upper: Word := seq(32, i requires 0 <= i < 32 => i >= 8 && x[i]);
    assert Xor(Low(x), upper) == x;
    BitsLinear(Low(x), upper, 8);
    UpperShifts(upper, 8);
    assert Shift(upper, 8) == Shift(x, 8);
    XorLaws(Table0(x), Shift(x, 8), x, x);
  }

  /** Table k holds what a byte becomes after k + 1 byte steps. */
  lemma TablesIterate(c: Word)
    ensures Table1(c) == Byte(Table0(c)) && Table2(c) == Byte(Table1(c)) && Table3(c) == Byte(Table2(c))
  {
    ByteByTable(Table0(c));
    ByteByTable(Table1(c));
    ByteByTable(Table2(c));
  }

  lemma ByteLinear(x: Word, y: Word)
    ensures Byte(Xor(x, y)) == Xor(Byte(x), Byte(y))
  {
    BitsLinear(x, y, 8);
  }

  /** The four bytes of a word through four byte steps. */
  lemma FourBytes(c: Word)
    ensures Byte(Byte(Byte(Byte(c)))) ==
            Xor(Table3(c), Xor(Table2(Shift(c, 8)), Xor(Table1(Shift(c, 16)), Table0(Shift(c, 24)))))
  {
    var c1, c2, c3 := Shift(c, 8), Shift(c, 16), Shift(c, 24);
    assert Shift(c1, 8) == c2 && Shift(c2, 8) == c3 && Shift(c3, 8) == Zero();
    TablesIterate(c);
    TablesIterate(c1);
    TablesIterate(c2);
    PeelByte(c, c1);
    PeelByte(c1, c2);
    PeelByte(c2, c3);
    PeelByte(c3, Zero());
    XorLaws(Table0(c3), Zero(), c, c);
    XorLaws(Zero(), Table0(c3), c, c);
    // one byte step at a time, the byte just looked up moves on to the next table
    ByteLinear(Table0(c2), c3);
    ByteLinear(Table0(c1), c2);
    ByteLinear(Table1(c1), Byte(c2));
    ByteLinear(Table0(c), c1);
    ByteLinear(Table1(c), Byte(c1));
    ByteLinear(Table2(c), Byte(Byte(c1)));
  }

  lemma PeelByte(x: Word, rest: Word)
    requires rest == Shift(x, 8)
    ensures Byte(x) == Xor(Table0(x), rest)
  {
    ByteByTable(x);
    XorLaws(Table0(x), rest, x, x);
  }

  // ----- the steps of Extend

  /** STEP1 */
  function Step1(l: Word, b: byte): Word {
    Xor(Table0(Xor(Low(l), FromByte(b))), Shift(l, 8))
  }

  /** STEP4, on the next four bytes */
  function Step4(l: Word, s: Bytes): Word
    requires |s| == 4
  {
    var c := Xor(l, DecodeFixed32(s));
    Xor(Xor(Xor(Table3(c), Table2(Shift(c, 8))), Table1(Shift(c, 16))), Table0(Shift(c, 24)))
  }

  lemma Step1IsByte(l: Word, b: byte)
    ensures Step1(l, b) == Byte(Xor(l, FromByte(b)))
  {
    var x := Xor(l, FromByte(b));
    ByteByTable(x);
    assert Shift(x, 8) == Shift(l, 8);
    assert Low(x) == Low(Xor(Low(l), FromByte(b)));
    XorLaws(Table0(x), Shift(x, 8), x, x);
  }

  /** Adding a whole word at once, a byte step later only its upper bytes are still outstanding. */
  lemma FeedWord(l: Word, w: Word)
    ensures Byte(Xor(l, w)) == Xor(Byte(Xor(l, Low(w))), Shift(w, 8))
  {
    var upper: Word := seq(32, i requires 0 <= i < 32 => i >= 8 && w[i]);
    assert Xor(l, w) == Xor(Xor(l, Low(w)), upper);
    ByteLinear(Xor(l, Low(w)), upper);
    UpperShifts(upper, 8);
    assert Shift(upper, 8) == Shift(w, 8);
  }

  lemma BytesOfWord(s: Bytes)
    requires |s| == 4
    ensures var w := DecodeFixed32(s);
            && Low(w) == FromByte(s[0]) && Low(Shift(w, 8)) == FromByte(s[1])
            && Low(Shift(w, 16)) == FromByte(s[2]) && Low(Shift(w, 24)) == FromByte(s[3])
            && Shift(Shift(w, 8), 8) == Shift(w, 16) && Shift(Shift(w, 16), 8) == Shift(w, 24)
            && Shift(Shift(w, 24), 8) == Zero()
  {}

  /** Four bytes at a time is four times one byte. */
  lemma Step4IsFourSteps(l: Word, s: Bytes)
    requires |s| == 4
    ensures Step4(l, s) == Step1(Step1(Step1(Step1(l, s[0]), s[1]), s[2]), s[3])
  {
    var w := DecodeFixed32(s);
    var a1 := Step1(l, s[0]);
    var a2 := Step1(a1, s[1]);
    var a3 := Step1(a2, s[2]);
    var a4 := Step1(a3, s[3]);
    BytesOfWord(s);
    assert Byte(Xor(l, w)) == Xor(a1, Shift(w, 8)) by { Step1IsByte(l, s[0]); FeedWord(l, w); }
    assert Byte(Xor(a1, Shift(w, 8))) == Xor(a2, Shift(w, 16)) by { Step1IsByte(a1, s[1]); FeedWord(a1, Shift(w, 8)); }
    assert Byte(Xor(a2, Shift(w, 16))) == Xor(a3, Shift(w, 24)) by { Step1IsByte(a2, s[2]); FeedWord(a2, Shift(w, 16)); }
    assert Byte(Xor(a3, Shift(w, 24))) == Xor(a4, Zero()) by { Step1IsByte(a3, s[3]); FeedWord(a3, Shift(w, 24)); }
    XorLaws(a4, Zero(), a4, a4);
    var c := Xor(l, w);
    FourBytes(c);
    RegroupFour(Table3(c), Table2(Shift(c, 8)), Table1(Shift(c, 16)), Table0(Shift(c, 24)));
  }

  lemma RegroupFour(a: Word, b: Word, c: Word, d: Word)
    ensures Xor(Xor(Xor(a, b), c), d) == Xor(a, Xor(b, Xor(c, d)))
  {}

  lemma RegisterStep(l: Word, s: Bytes, p: nat)
    requires p < |s|
    ensures Register(l, s[..p + 1]) == Step1(Register(l, s[..p]), s[p])
  {
    assert s[..p + 1][..p] == s[..p];
    Step1IsByte(Register(l, s[..p]), s[p]);
  }

  lemma RegisterFour(l: Word, s: Bytes, p: nat)
    requires p + 4 <= |s|
    ensures Register(l, s[..p + 4]) == Step4(Register(l, s[..p]), s[p..p + 4])
  {
    RegisterStep(l, s, p);
    RegisterStep(l, s, p + 1);
    RegisterStep(l, s, p + 2);
    RegisterStep(l, s, p + 3);
    Step4IsFourSteps(Register(l, s[..p]), s[p..p + 4]);
  }

  method StepByte(ghost l0: Word, l: Word, buf: Bytes, p: nat) returns (l': Word, p': nat)
    requires p < |buf| && l == Register(l0, buf[..p])
    ensures p' == p + 1 && l' == Register(l0, buf[..p'])
  {
    RegisterStep(l0, buf, p);
    l', p' := Step1(l, buf[p]), p + 1;
  }

  method StepWord(ghost l0: Word, l: Word, buf: Bytes, p: nat) returns (l': Word, p': nat)
    requires p + 4 <= |buf| && l == Register(l0, buf[..p])
    ensures p' == p + 4 && l' == Register(l0, buf[..p'])
  {
    RegisterFour(l0, buf, p);
    l', p' := Step4(l, buf[p..p + 4]), p + 4;
  }

  /** Extend.  `misalign` is the buffer's address modulo 4: single bytes up to a word boundary, then words sixteen
      and four bytes at a time, then the bytes left over. */
  method Extend(crc: Word, buf: Bytes, misalign: nat) returns (r: Word)
    requires misalign < 4
    ensures r == Extended(crc, buf)
  {
    var l, p := Xor(crc, Ones()), 0;
    ghost var l0 := l;
    var x := (4 - misalign) % 4;
    if x <= |buf| {
      while p != x
        invariant 0 <= p <= x && l == Register(l0, buf[..p])
      {
        l, p := StepByte(l0, l, buf, p);
      }
    }
    while |buf| - p >= 16
      invariant 0 <= p <= |buf| && l == Register(l0, buf[..p])
    {
      l, p := StepWord(l0, l, buf, p);
      l, p := StepWord(l0, l, buf, p);
      l, p := StepWord(l0, l, buf, p);
      l, p := StepWord(l0, l, buf, p);
    }
    while |buf| - p >= 4
      invariant 0 <= p <= |buf| && l == Register(l0, buf[..p])
    {
      l, p := StepWord(l0, l, buf, p);
    }
    while p != |buf|
      invariant 0 <= p <= |buf| && l == Register(l0, buf[..p])
    {
      l, p := StepByte(l0, l, buf, p);
    }
    assert buf[..|buf|] == buf;
    r := Xor(l, Ones());
  }

  lemma {:induction false} RegisterSplits(l: Word, a: Bytes, b: Bytes)
    ensures Register(l, a + b) == Register(Register(l, a), b)
  {
    if b == [] {
      assert a + b == a;
    } else {
      var n := |b| - 1;
      RegisterSplits(l, a, b[..n]);
      assert (a + b)[..|a + b| - 1] == a + b[..n];
    }
  }

  /** A checksum can be computed in pieces. */
  lemma ExtendedSplits(crc: Word, a: Bytes, b: Bytes)
    ensures Extended(Extended(crc, a), b) == Extended(crc, a + b)
  {
    RegisterSplits(Xor(crc, Ones()), a, b);
    var mid := Register(Xor(crc, Ones()), a);
    assert Xor(Xor(mid, Ones()), Ones()) == mid;
  }

  // ----- masking

  const MASK_DELTA: nat := 0xa282ead8
  const MODULUS: nat := 0x1_0000_0000

  function RotateRight(w: Word, n: nat): Word
    requires n <= 32
  {
    w[n..] + w[..n]
  }

  /** Addition and subtraction of the mask constant, modulo 2^32. */
  function Add(x: nat): nat { (x + MASK_DELTA) % MODULUS }
  function Subtract(x: nat): nat { (x + MODULUS - MASK_DELTA) % MODULUS }

  /** Rotate right by 15 bits and add a constant. */
  function Mask(crc: Word): Word { Numeral(Add(FromBits(RotateRight(crc, 15)))) }

  function Unmask(masked: Word): Word { RotateRight(Numeral(Subtract(FromBits(masked))), 17) }

  lemma AddThenSubtract(x: nat, delta: nat, m: nat)
    requires x < m && delta < m
    ensures ((x + delta) % m + m - delta) % m == x
  {
    var y := (x + delta) % m;
    if x + delta < m {
      ModOnce(x + delta, m);
      assert y + m - delta == x + m;
    } else {
      ModOnce(x + delta - m, m);
      assert y + m - delta == x;
    }
    ModOnce(x, m);
  }

  lemma ModOnce(x: nat, m: nat)
    requires x < m
    ensures x % m == x && (x + m) % m == x
  {
    assert x + m == m * 1 + x;
  }

  lemma NumeralRoundTrip(x: nat, w: Word)
    ensures x < MODULUS ==> FromBits(Numeral(x)) == x
    ensures Numeral(FromBits(w)) == w && FromBits(w) < MODULUS
  {
    PowersOfTwo();
    if x < MODULUS { NumberRoundTrip(x, 32); }
    BitsRoundTrip(w);
  }

  lemma RotateBack(w: Word)
    ensures RotateRight(RotateRight(w, 15), 17) == w
  {}

  lemma {:induction false} MaskedNumber(crc: Word)
    ensures Subtract(FromBits(Mask(crc))) == FromBits(RotateRight(crc, 15))
  {
    var x := FromBits(RotateRight(crc, 15));
    NumeralRoundTrip(Add(x), RotateRight(crc, 15));
    AddThenSubtract(x, MASK_DELTA, MODULUS);
  }

  lemma {:induction false} NumberedWord(x: nat, rot: Word)
    requires x == FromBits(rot)
    ensures Numeral(x) == rot
  {
    NumeralRoundTrip(x, rot);
  }

  /** Unmask inverts Mask. */
  lemma {:induction false} MaskRoundTrip(crc: Word)
    ensures Unmask(Mask(crc)) == crc
  {
    MaskedNumber(crc);
    NumberedWord(Subtract(FromBits(Mask(crc))), RotateRight(crc, 15));
    RotateBack(crc);
  }
}
