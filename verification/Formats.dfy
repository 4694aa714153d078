/** What the stored formats look like, byte by byte (db/log_format.h, db/dbformat.cc, db/version_edit.cc,
    db/write_batch.cc, util/coding.cc, util/crc32c.h, doc/log_format.txt). The round trips of the other modules would
    hold of any consistent format; these are the facts that fix this one. */
module Formats {
  import opened Keys
  import opened Coding
  import Crc32c
  import Log
  import WriteBatch
  import VersionEdit
  import Comparator
  import Bloom
  import FilterBlock

  // ----- numbers

  /** Seven bits from each byte, the first one lowest. */
  function SevenBits(s: Bytes): nat { if s == [] then 0 else s[0] % 128 + 128 * SevenBits(s[1..]) }

  /** A varint has the number in its lower seven bits, the high bit on all bytes but the last, and no byte too many. */
  lemma {:induction false} VarintBytes(v: nat)
    ensures var s := Varint(v);
            && SevenBits(s) == v && (forall i :: 0 <= i < |s| - 1 ==> s[i] >= 128)
            && s[|s| - 1] < 128 && (|s| > 1 ==> s[|s| - 1] > 0)
  {
    if v >= 128 {
      VarintBytes(v / 128);
      var s, rest := Varint(v), Varint(v / 128);
      assert s[1..] == rest;
      forall i | 0 <= i < |s| - 1 ensures s[i] >= 128 {
        if i > 0 { assert s[i] == rest[i - 1]; }
      }
      assert s[|s| - 1] == rest[|rest| - 1];
    } else {
      assert Varint(v)[1..] == [];
    }
  }

  /** The bytes from `p` up to `q` are a varint that a decoder with this last shift reads to its end. */
  predicate VarintAt(s: Bytes, p: nat, q: nat, shift: nat, most: nat) {
    && p < q <= |s| && s[q - 1] < 128 && shift + 7 * (q - 1 - p) <= most
    && forall i :: p <= i < q - 1 ==> s[i] >= 128
  }

  lemma WrapOnce(a: nat, b: nat, limit: nat)
    requires limit > 0
    ensures (a % limit + b) % limit == (a + b) % limit
  {
    var r, k := a % limit + b, a / limit;
    assert a + b == r + limit * k;
    ModSteps(r, k, limit);
  }

  lemma {:induction false} ModSteps(r: nat, k: nat, limit: nat)
    requires limit > 0
    ensures (r + limit * k) % limit == r % limit
  {
    assert r == limit * (r / limit) + r % limit;
    Spread(limit, r / limit, k);
    Quotient(r + limit * k, limit, r / limit + k, r % limit);
  }

  lemma Spread(a: nat, b: nat, c: nat)
    ensures a * (b + c) == a * b + a * c
  {}

  lemma Placed(low: nat, high: nat, unit: nat)
    ensures (low + 128 * high) * unit == low * unit + high * (128 * unit)
  {
    assert (low + 128 * high) * unit == low * unit + (128 * high) * unit;
  }

  /** Any varint decodes to its bits, cut to the width of the word, whether it is the shortest form or not. */
  lemma {:induction false} DecodedBits(s: Bytes, p: nat, q: nat, shift: nat, result: nat, most: nat, limit: nat)
    requires limit > 0 && VarintAt(s, p, q, shift, most)
    ensures Decoded(s, p, shift, result, most, limit) == Some(((result + SevenBits(s[p..q]) * Pow2(shift)) % limit, q))
    decreases q - p
  {
    var bits, unit := SevenBits(s[p..q]), Pow2(shift);
    if q == p + 1 {
      assert s[p..q] == [s[p]] && s[p..q][1..] == [];
    } else {
      assert s[p..q][1..] == s[p + 1..q];
      var low, rest := s[p] - 128, SevenBits(s[p + 1..q]);
      assert bits == low + 128 * rest;
      DecodedBits(s, p + 1, q, shift + 7, (result + low * unit) % limit, most, limit);
      ShiftBySeven(shift);
      Placed(low, rest, unit);
      WrapOnce(result + low * unit, rest * (128 * unit), limit);
    }
  }

  /** Nothing else decodes. */
  lemma {:induction false} OnlyVarintsDecode(s: Bytes, p: nat, shift: nat, result: nat, most: nat, limit: nat)
    requires p <= |s| && limit > 0
    ensures var r := Decoded(s, p, shift, result, most, limit); r.Some? ==> VarintAt(s, p, r.value.1, shift, most)
    decreases |s| - p
  {
    if p < |s| && shift <= most && s[p] >= 128 {
      OnlyVarintsDecode(s, p + 1, shift + 7, (result + (s[p] - 128) * Pow2(shift)) % limit, most, limit);
    }
  }

  /** On every input, a 32-bit number is read from at most five bytes. */
  lemma Decodes32(s: Bytes, p: nat, q: nat)
    requires p <= |s|
    ensures VarintAt(s, p, q, 0, 28) ==> Decoded32(s, p) == Some((SevenBits(s[p..q]) % 0x1_0000_0000, q))
    ensures Decoded32(s, p).Some? ==> VarintAt(s, p, Decoded32(s, p).value.1, 0, 28)
  {
    if VarintAt(s, p, q, 0, 28) { DecodedBits(s, p, q, 0, 0, 28, 0x1_0000_0000); }
    OnlyVarintsDecode(s, p, 0, 0, 28, 0x1_0000_0000);
  }

  /** On every input, a 64-bit number is read from at most ten bytes. */
  lemma Decodes64(s: Bytes, p: nat, q: nat)
    requires p <= |s|
    ensures VarintAt(s, p, q, 0, 63) ==> Decoded64(s, p) == Some((SevenBits(s[p..q]) % 0x1_0000_0000_0000_0000, q))
    ensures Decoded64(s, p).Some? ==> VarintAt(s, p, Decoded64(s, p).value.1, 0, 63)
  {
    if VarintAt(s, p, q, 0, 63) { DecodedBits(s, p, q, 0, 0, 63, 0x1_0000_0000_0000_0000); }
    OnlyVarintsDecode(s, p, 0, 0, 63, 0x1_0000_0000_0000_0000);
  }

  /** An internal key ends in its type, as one byte, and its sequence number in seven, low byte first. */
  lemma PackedKey(user: Bytes, seqno: nat, typ: ValueType)
    ensures Comparator.Encoded(Comparator.InternalKey(user, Pack(seqno, typ)))
         == user + [if typ.Put? then 1 else 0] + Fixed(seqno, 7)
  {
    var tag := Pack(seqno, typ);
    assert tag % 256 == (if typ.Put? then 1 else 0) && tag / 256 == seqno;
    assert Fixed(tag, 8) == [tag % 256] + Fixed(seqno, 7);
  }

  // ----- checksums

  lemma {:induction false} JoinBits(a: seq<bool>, b: seq<bool>)
    ensures Crc32c.FromBits(a + b) == Crc32c.FromBits(a) + Pow2(|a|) * Crc32c.FromBits(b)
  {
    if a == [] {
      assert a + b == b;
    } else {
      JoinBits(a[1..], b);
      assert (a + b)[1..] == a[1..] + b && (a + b)[0] == a[0];
      Doubled(Crc32c.FromBits(a[1..]), Pow2(|a| - 1), Crc32c.FromBits(b));
    }
  }

  lemma Doubled(x: nat, p: nat, m: nat)
    ensures 2 * (x + p * m) == 2 * x + (2 * p) * m
  {}

  /** Rotating right by `n` bits, in numbers. */
  lemma RotatedNumber(w: Crc32c.Word, n: nat)
    requires n <= 32
    ensures Crc32c.FromBits(Crc32c.RotateRight(w, n))
         == Crc32c.FromBits(w) / Pow2(n) + Pow2(32 - n) * (Crc32c.FromBits(w) % Pow2(n))
  {
    var low, high := w[..n], w[n..];
    assert w == low + high;
    JoinBits(low, high);
    JoinBits(high, low);
    Quotient(Crc32c.FromBits(w), Pow2(n), Crc32c.FromBits(high), Crc32c.FromBits(low));
  }

  lemma Quotient(x: nat, p: nat, q: nat, r: nat)
    requires r < p && x == r + p * q
    ensures x / p == q && x % p == r
  {
    var d := x / p;
    assert x == p * d + x % p;
    if d > q { Times(p, q + 1, d); }
    if d < q { Times(p, d + 1, q); }
  }

  lemma Times(p: nat, a: nat, b: nat)
    requires a <= b
    ensures p * a <= p * b
  {
    assert p * b == p * a + p * (b - a);
  }

  /** The mask: rotate right by 15 bits, add 0xa282ead8. */
  lemma MaskedSum(crc: Crc32c.Word)
    ensures var x := Crc32c.FromBits(crc);
            Crc32c.FromBits(Crc32c.Mask(crc)) == (x / 0x8000 + 0x2_0000 * (x % 0x8000) + 0xa282ead8) % 0x1_0000_0000
  {
    RotatedNumber(crc, 15);
    SmallPowers();
    var y := Crc32c.FromBits(Crc32c.RotateRight(crc, 15));
    Crc32c.NumeralRoundTrip(Crc32c.Add(y), crc);
  }

  lemma SmallPowers()
    ensures Pow2(15) == 0x8000 && Pow2(17) == 0x2_0000
  {
    assert Pow2(4) == 16;
    assert Pow2(8) == 256;
    assert Pow2(12) == 0x1000;
    assert Pow2(15) == 0x8000;
  }

  /** The step between two probes of the Bloom filter: the hash, rotated right by 17 bits. */
  lemma ProbeStep(h: Crc32c.Word)
    ensures Bloom.Delta(Crc32c.FromBits(h)) == Crc32c.FromBits(Crc32c.RotateRight(h, 17))
  {
    RotatedNumber(h, 17);
    SmallPowers();
    StepOf(Crc32c.FromBits(h), Pow2(17), Pow2(15));
  }

  lemma StepOf(x: nat, p: nat, q: nat)
    requires p == 0x2_0000 && q == 0x8000
    ensures Bloom.Delta(x) == x / p + q * (x % p)
  {}

  /** The probes of a key: its hash, then steps by that much, on 32 bits, each modulo the number of bits. */
  lemma FirstProbe(h: nat, bits: nat)
    requires h < 0x1_0000_0000 && bits > 0
    ensures Bloom.Probe(h, 0, bits) == h % bits
  {
    NoSteps(h, Bloom.Delta(h));
  }

  lemma NoSteps(h: nat, delta: nat)
    requires h < 0x1_0000_0000
    ensures (h + 0 * delta) % 0x1_0000_0000 == h
  {}

  lemma {:induction false} ProbeSequence(h: nat, j: nat, bits: nat, x: nat)
    requires bits > 0 && x == (h + j * Bloom.Delta(h)) % 0x1_0000_0000
    ensures Bloom.Probe(h, j, bits) == x % bits
    ensures Bloom.Probe(h, j + 1, bits) == (x + Bloom.Delta(h)) % 0x1_0000_0000 % bits
  {
    Bloom.NextProbe(h, j);
  }

  lemma {:induction false} SliceBits(x: nat, n: nat, k: nat, m: nat)
    requires k + m <= n
    ensures Crc32c.ToBits(x, n)[k..k + m] == Crc32c.ToBits(x / Pow2(k), m)
  {
    if k > 0 {
      SliceBits(x / 2, n - 1, k - 1, m);
      assert Crc32c.ToBits(x, n)[k..k + m] == Crc32c.ToBits(x / 2, n - 1)[k - 1..k - 1 + m];
      HalfThen(x, Pow2(k - 1));
    } else {
      TakeBits(x, n, m);
    }
  }

  lemma {:induction false} TakeBits(x: nat, n: nat, m: nat)
    requires m <= n
    ensures Crc32c.ToBits(x, n)[..m] == Crc32c.ToBits(x, m)
  {
    if m > 0 { TakeBits(x / 2, n - 1, m - 1); }
  }

  lemma HalfThen(x: nat, p: nat)
    requires p > 0
    ensures x / 2 / p == x / (2 * p)
  {
    var q, r := x / 2 / p, x / 2 % p;
    Product(p, q);
    Quotient(x, 2 * p, q, 2 * r + x % 2);
  }

  lemma Product(p: nat, q: nat)
    ensures 2 * (p * q) == (2 * p) * q
  {}

  lemma {:induction false} LowByte(x: nat)
    ensures Crc32c.ByteOf(Crc32c.ToBits(x, 8)) == x % 256
  {
    Crc32c.PowersOfTwo();
    SameLow(x, x % 256, x / 256, 8);
    Crc32c.NumberRoundTrip(x % 256, 8);
  }

  lemma {:induction false} SameLow(x: nat, y: nat, q: nat, n: nat)
    requires x == y + Pow2(n) * q
    ensures Crc32c.ToBits(x, n) == Crc32c.ToBits(y, n)
  {
    if n > 0 {
      Product(Pow2(n - 1), q);
      assert x == y + 2 * (Pow2(n - 1) * q);
      SameLow(x / 2, y / 2, q, n - 1);
    }
  }

  /** One byte out of a number. */
  lemma {:induction false} ByteAt(x: nat, n: nat, k: nat, p: nat)
    requires k + 8 <= n && p == Pow2(k)
    ensures Crc32c.ByteOf(Crc32c.ToBits(x, n)[k..k + 8]) == x / p % 256
  {
    SliceBits(x, n, k, 8);
    SameByte(Crc32c.ToBits(x, n)[k..k + 8], x / p);
  }

  lemma {:induction false} SameByte(w: Crc32c.Octet, y: nat)
    requires w == Crc32c.ToBits(y, 8)
    ensures Crc32c.ByteOf(w) == y % 256
  {
    LowByte(y);
  }

  /** A word is stored low byte first. */
  lemma WordBytes(x: nat)
    requires x < 0x1_0000_0000
    ensures Crc32c.EncodeFixed32(Crc32c.Numeral(x)) == Fixed(x, 4)
  {
    WholePowers();
    ByteAt(x, 32, 0, 1);
    ByteAt(x, 32, 8, 0x100);
    ByteAt(x, 32, 16, 0x1_0000);
    ByteAt(x, 32, 24, 0x100_0000);
    FixedFour(x);
  }

  lemma WholePowers()
    ensures Pow2(0) == 1 && Pow2(8) == 0x100 && Pow2(16) == 0x1_0000 && Pow2(24) == 0x100_0000
  {
    SmallPowers();
    assert Pow2(8) == 0x100;
    assert Pow2(20) == 0x10_0000;
  }

  lemma FixedFour(x: nat)
    ensures Fixed(x, 4) == [x % 256, x / 0x100 % 256, x / 0x1_0000 % 256, x / 0x100_0000 % 256]
  {
    assert Fixed(x / 0x1_0000, 2) == [x / 0x1_0000 % 256, x / 0x100_0000 % 256];
    assert x / 256 / 256 == x / 0x1_0000;
  }

  // ----- the log

  /** A fragment: a checksum in four bytes, the length in two, the type in one, the data. */
  lemma FragmentBytes(f: Log.Fragment)
    requires |f.data| <= 32761
    ensures var s := Log.Physical(f);
            && |s| == 7 + |f.data| && s[4] as int + 256 * s[5] as int == |f.data| && s[6] == f.typ && s[7..] == f.data
  {
    Log.PhysicalHeader(f);
  }

  /** The checksum is the masked one of the type and the data. */
  lemma FragmentChecksum(f: Log.Fragment)
    ensures |Log.Physical(f)| >= 7
    ensures Crc32c.Unmask(Crc32c.DecodeFixed32(Log.Physical(f)[..4])) == Crc32c.Value(Log.Physical(f)[6..])
  {
    Log.PhysicalIntact(f);
  }

  /** How a record that starts a block is cut: whole (1), or first (2), middle (3) and last (4) fragments that fill
      32768-byte blocks. */
  lemma FragmentTypes(left: Bytes)
    ensures |left| <= 32761 ==> Log.Split(0, left, true) == [Log.Fragment(1, left)]
    ensures 32761 < |left| <= 65522 ==>
              Log.Split(0, left, true) == [Log.Fragment(2, left[..32761]), Log.Fragment(4, left[32761..])]
    ensures 65522 < |left| <= 98283 ==>
              Log.Split(0, left, true) == [Log.Fragment(2, left[..32761]), Log.Fragment(3, left[32761..65522]),
                                           Log.Fragment(4, left[65522..])]
  {
    if 32761 < |left| {
      var rest := left[32761..];
      NextFragment(rest);
      if 65522 < |left| {
        NextFragment(rest[32761..]);
        assert rest[..32761] == left[32761..65522] && rest[32761..] == left[65522..];
      }
    }
  }

  lemma NextFragment(left: Bytes)
    ensures |left| <= 32761 ==> Log.Split(32768, left, false) == [Log.Fragment(4, left)]
    ensures |left| > 32761 ==>
              Log.Split(32768, left, false) == [Log.Fragment(3, left[..32761])] + Log.Split(32768, left[32761..], false)
  {}

  /** A block with fewer than seven bytes left is filled up with zeros; with exactly seven, it takes an empty fragment. */
  lemma EndOfBlock(offset: nat, left: Bytes)
    requires offset <= 32768
    ensures Log.Padding(offset) == (if offset > 32761 then 32768 - offset else 0)
    ensures Log.Start(offset) == (if offset > 32761 then 0 else offset)
    ensures offset == 32761 && left != [] ==> Log.Split(offset, left, true)[0] == Log.Fragment(2, [])
  {}

  // ----- write batches

  /** A short operation of a batch. */
  lemma OperationBytes(key: Bytes, value: Bytes)
    requires |key| < 128 && |value| < 128
    ensures WriteBatch.Encode(WriteBatch.Set(key, value)) == [1, |key|] + key + [|value|] + value
    ensures WriteBatch.Encode(WriteBatch.Unset(key)) == [0, |key|] + key
  {
    assert Varint(|key|) == [|key|] && Varint(|value|) == [|value|];
  }

  /** A batch of one short operation: eight bytes of sequence number, four of count, then the operation. */
  lemma BatchBytes(rep: Bytes, key: Bytes, value: Bytes)
    requires WriteBatch.Holds(rep, [WriteBatch.Set(key, value)]) && |key| < 128 && |value| < 128
    ensures |rep| == 12 + 3 + |key| + |value| && FixedValue(rep[8..12]) == 1
    ensures rep[12..] == [1, |key|] + key + [|value|] + value
  {
    OperationBytes(key, value);
    WriteBatch.OneEncoding(WriteBatch.Set(key, value));
  }

  // ----- version edits

  lemma Items1(a: VersionEdit.Item)
    ensures VersionEdit.Encode([a]) == VersionEdit.ItemBytes(a)
  {
    assert [a][1..] == [];
  }

  lemma Items2(a: VersionEdit.Item, b: VersionEdit.Item)
    ensures VersionEdit.Encode([a, b]) == VersionEdit.ItemBytes(a) + VersionEdit.ItemBytes(b)
  {
    assert [a, b][1..] == [b];
    Items1(b);
  }

  lemma Items3(a: VersionEdit.Item, b: VersionEdit.Item, c: VersionEdit.Item)
    ensures VersionEdit.Encode([a, b, c]) == VersionEdit.ItemBytes(a) + VersionEdit.ItemBytes(b) + VersionEdit.ItemBytes(c)
  {
    assert [a, b, c][1..] == [b, c];
    Items2(b, c);
  }

  function FieldBytes(f: VersionEdit.Field): Bytes { VersionEdit.Encode(VersionEdit.Items(f)) }

  /** The tags of the fields of an edit, told for short contents. */
  lemma NumberFields(n: nat)
    requires n < 128
    ensures FieldBytes(VersionEdit.LogNumber(n)) == [2, n] && FieldBytes(VersionEdit.NextFile(n)) == [3, n]
    ensures FieldBytes(VersionEdit.LastSequence(n)) == [4, n] && FieldBytes(VersionEdit.PrevLogNumber(n)) == [9, n]
  {
    Items2(VersionEdit.Short(2), VersionEdit.Long(n));
    Items2(VersionEdit.Short(3), VersionEdit.Long(n));
    Items2(VersionEdit.Short(4), VersionEdit.Long(n));
    Items2(VersionEdit.Short(9), VersionEdit.Long(n));
  }

  lemma NamedFields(level: nat, n: nat, x: Bytes)
    requires level < 7 && n < 128 && |x| < 128
    ensures FieldBytes(VersionEdit.Comparator(x)) == [1, |x|] + x
    ensures FieldBytes(VersionEdit.CompactPointer(level, x)) == [5, level, |x|] + x
    ensures FieldBytes(VersionEdit.DeletedFile(level, n)) == [6, level, n]
  {
    Items2(VersionEdit.Short(1), VersionEdit.Blob(x));
    Items3(VersionEdit.Short(5), VersionEdit.Short(level), VersionEdit.Blob(x));
    Items3(VersionEdit.Short(6), VersionEdit.Short(level), VersionEdit.Long(n));
  }

  lemma NewFileField(level: nat, f: VersionEdit.FileInfo)
    requires level < 7 && f.number < 128 && f.size < 128 && |f.smallest| < 128 && |f.largest| < 128
    ensures FieldBytes(VersionEdit.NewFile(level, f))
         == [7, level, f.number, f.size, |f.smallest|] + f.smallest + [|f.largest|] + f.largest
  {
    var tail := [VersionEdit.Blob(f.smallest), VersionEdit.Blob(f.largest)];
    Items2(tail[0], tail[1]);
    FirstItem(VersionEdit.Long(f.size), tail);
    FirstItem(VersionEdit.Long(f.number), [VersionEdit.Long(f.size)] + tail);
    FirstItem(VersionEdit.Short(level), [VersionEdit.Long(f.number)] + ([VersionEdit.Long(f.size)] + tail));
    FirstItem(VersionEdit.Short(7),
              [VersionEdit.Short(level)] + ([VersionEdit.Long(f.number)] + ([VersionEdit.Long(f.size)] + tail)));
    assert VersionEdit.Items(VersionEdit.NewFile(level, f)) == [VersionEdit.Short(7)]
             + ([VersionEdit.Short(level)] + ([VersionEdit.Long(f.number)] + ([VersionEdit.Long(f.size)] + tail)));
    Flattened(7, level, f.number, f.size, f.smallest, f.largest);
  }

  lemma Flattened(a: byte, b: byte, c: byte, d: byte, x: Bytes, y: Bytes)
    requires |x| < 128 && |y| < 128
    ensures [a] + ([b] + ([c] + ([d] + (([|x|] + x) + ([|y|] + y))))) == [a, b, c, d, |x|] + x + [|y|] + y
  {}

  lemma FirstItem(a: VersionEdit.Item, rest: seq<VersionEdit.Item>)
    ensures VersionEdit.Encode([a] + rest) == VersionEdit.ItemBytes(a) + VersionEdit.Encode(rest)
  {
    assert ([a] + rest)[1..] == rest;
  }

  // ----- filter blocks

  /** One filter for every 2048 bytes of data blocks. */
  lemma FilterEvery2048(contents: Bytes, filters: seq<Bytes>, starts: seq<nat>)
    requires FilterBlock.Finished(contents, filters, starts)
    ensures FilterBlock.BASE == 2048 && |contents| > 0 && contents[|contents| - 1] == 11
  {}
}
