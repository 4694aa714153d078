/** Variable- and fixed-length numbers (util/coding.cc). Unsigned 32- and 64-bit words are numbers with explicit
    truncation. */
module Coding {
  import opened Keys

  const LIMIT32: nat := 0x1_0000_0000
  const LIMIT64: nat := 0x1_0000_0000_0000_0000

  // ----- varints

  /** Seven bits a byte, low bits first, the high bit set on all but the last byte. */
  function Varint(v: nat): (r: Bytes)
    ensures r != []
  {
    if v < 128 then [v] else [128 + v % 128] + Varint(v / 128)
  }

  /** EncodeVarint32: the same, unrolled by size. A store into a byte keeps the low eight bits. */
  method EncodeVarint32(v: nat) returns (r: Bytes)
    requires v < LIMIT32
    ensures r == Varint(v) && |r| <= 5
  {
    if v < 0x80 {
      r := [v];
    } else if v < 0x4000 {
      r := [128 + v % 128, v / 128];
    } else if v < 0x20_0000 {
      r := [128 + v % 128, 128 + v / 128 % 128, v / 0x4000];
    } else if v < 0x1000_0000 {
      r := [128 + v % 128, 128 + v / 128 % 128, 128 + v / 0x4000 % 128, v / 0x20_0000];
    } else {
      r := [128 + v % 128, 128 + v / 128 % 128, 128 + v / 0x4000 % 128, 128 + v / 0x20_0000 % 128, v / 0x1000_0000];
    }
    Unrolled(v);
  }

  lemma Unrolled(v: nat)
    requires v < LIMIT32
    ensures v >= 128 ==> Varint(v) == [128 + v % 128] + Varint(v / 128)
    ensures v >= 0x4000 ==> Varint(v / 128) == [128 + v / 128 % 128] + Varint(v / 0x4000)
    ensures v >= 0x20_0000 ==> Varint(v / 0x4000) == [128 + v / 0x4000 % 128] + Varint(v / 0x20_0000)
    ensures v >= 0x1000_0000 ==> Varint(v / 0x20_0000) == [128 + v / 0x20_0000 % 128] + Varint(v / 0x1000_0000)
  {
    assert v / 128 / 128 == v / 0x4000 && v / 0x4000 / 128 == v / 0x20_0000 && v / 0x20_0000 / 128 == v / 0x1000_0000;
  }

  /** EncodeVarint64 */
  method EncodeVarint64(v: nat) returns (r: Bytes)
    ensures r == Varint(v)
  {
    r := [];
    var rest := v;
    while rest >= 128
      invariant r + Varint(rest) == Varint(v)
    {
      assert r + Varint(rest) == r + [128 + rest % 128] + Varint(rest / 128);
      r := r + [rest % 128 + 128];
      rest := rest / 128;
    }
    r := r + [rest];
  }

  /** What the decoders' loop makes of the bytes from `p` on, at this shift: each byte gives seven bits, and the
      word is truncated to `limit`. */
  function Decoded(s: Bytes, p: nat, shift: nat, result: nat, most: nat, limit: nat): Option<(nat, nat)>
    requires p <= |s| && limit > 0
    decreases |s| - p
  {
    if p == |s| || shift > most then None
    else if s[p] >= 128 then
      Decoded(s, p + 1, shift + 7, (result + (s[p] - 128) * Pow2(shift)) % limit, most, limit)
    else Some(((result + s[p] * Pow2(shift)) % limit, p + 1))
  }

  /** GetVarint32PtrFallback and GetVarint64Ptr. The bits of a byte land above those read before, so the source's
      or is a sum. */
  method GetVarint(s: Bytes, start: nat, most: nat, limit: nat) returns (r: Option<(nat, nat)>)
    requires start <= |s| && limit > 0
    ensures r == Decoded(s, start, 0, 0, most, limit)
  {
    var result: nat, shift: nat, p := 0, 0, start;
    while shift <= most && p < |s|
      invariant start <= p <= |s|
      invariant Decoded(s, p, shift, result, most, limit) == Decoded(s, start, 0, 0, most, limit)
      decreases |s| - p
    {
      var b := s[p];
      p := p + 1;
      if b >= 128 {
        result := (result + (b - 128) * Pow2(shift)) % limit;
      } else {
        return Some(((result + b * Pow2(shift)) % limit, p));
      }
      shift := shift + 7;
    }
    return None;
  }

  /** These bytes stand at `p`. */
  predicate IsAt(s: Bytes, p: nat, part: Bytes) { p + |part| <= |s| && s[p..p + |part|] == part }

  lemma ShiftBySeven(shift: nat)
    ensures Pow2(shift + 7) == 128 * Pow2(shift)
  {
    assert Pow2(shift + 7) == 2 * Pow2(shift + 6) && Pow2(shift + 6) == 2 * Pow2(shift + 5);
    assert Pow2(shift + 5) == 2 * Pow2(shift + 4) && Pow2(shift + 4) == 2 * Pow2(shift + 3);
    assert Pow2(shift + 3) == 2 * Pow2(shift + 2) && Pow2(shift + 2) == 2 * Pow2(shift + 1);
  }

  lemma LowAndHigh(v: nat, p: nat)
    ensures v * p == (v % 128) * p + (v / 128) * (128 * p)
  {
    assert v == v % 128 + 128 * (v / 128);
    assert v * p == (v % 128 + 128 * (v / 128)) * p;
    assert (v % 128 + 128 * (v / 128)) * p == (v % 128) * p + (128 * (v / 128)) * p;
    assert (128 * (v / 128)) * p == (v / 128) * (128 * p);
  }

  lemma {:induction false} VarintDecodes(
    s: Bytes, p: nat, v: nat, shift: nat, result: nat, most: nat, limit: nat, total: nat)
    requires IsAt(s, p, Varint(v)) && total == result + v * Pow2(shift) < limit
    requires shift + 7 * |Varint(v)| <= most + 7
    ensures Decoded(s, p, shift, result, most, limit) == Some((total, p + |Varint(v)|))
    decreases v
  {
    var r, unit := Varint(v), Pow2(shift);
    assert s[p] == s[p..p + |r|][0] == r[0];
    if v >= 128 {
      ShiftBySeven(shift);
      LowAndHigh(v, unit);
      Rest(s, p, r, Varint(v / 128));
      NoWrap(result, (v % 128) * unit, (v / 128) * (128 * unit), limit);
      VarintDecodes(s, p + 1, v / 128, shift + 7, result + (v % 128) * unit, most, limit, total);
    } else {
      NoWrap(result, v * unit, 0, limit);
    }
  }

  lemma Rest(s: Bytes, p: nat, r: Bytes, rest: Bytes)
    requires IsAt(s, p, r) && |r| > 0 && r == [r[0]] + rest
    ensures IsAt(s, p + 1, rest)
  {
    assert s[p + 1..p + |r|] == s[p..p + |r|][1..];
  }

  lemma NoWrap(a: nat, b: nat, c: nat, limit: nat)
    requires a + b + c < limit && b >= 0
    ensures (a + b) % limit == a + b
  {}

  lemma {:induction false} VarintSize(v: nat, k: nat)
    requires k > 0 && v < Pow2(7 * k)
    ensures |Varint(v)| <= k
  {
    if v >= 128 {
      if k == 1 { assert Pow2(7) == 128 by { ShiftBySeven(0); } assert false; }
      ShiftBySeven(7 * (k - 1));
      VarintSize(v / 128, k - 1);
    }
  }

  lemma Words()
    ensures LIMIT32 == Pow2(32) <= Pow2(35) && LIMIT64 == Pow2(64) <= Pow2(70)
  {
    assert Pow2(29) == 2 * Pow2(28) && Pow2(30) == 2 * Pow2(29) && Pow2(31) == 2 * Pow2(30) && Pow2(32) == 2 * Pow2(31);
    assert Pow2(64) == 2 * Pow2(63);
    ShiftBySeven(0); ShiftBySeven(7); ShiftBySeven(14); ShiftBySeven(21); ShiftBySeven(28); ShiftBySeven(35);
    ShiftBySeven(42); ShiftBySeven(49); ShiftBySeven(56); ShiftBySeven(63);
  }

  function Decoded32(s: Bytes, p: nat): Option<(nat, nat)>
    requires p <= |s|
  {
    Decoded(s, p, 0, 0, 28, LIMIT32)
  }

  function Decoded64(s: Bytes, p: nat): Option<(nat, nat)>
    requires p <= |s|
  {
    Decoded(s, p, 0, 0, 63, LIMIT64)
  }

  lemma Varint32Size(v: nat)
    requires v < LIMIT32
    ensures |Varint(v)| <= 5
  {
    Words();
    VarintSize(v, 5);
  }

  lemma Varint64Size(v: nat)
    requires v < LIMIT64
    ensures |Varint(v)| <= 10
  {
    Words();
    VarintSize(v, 10);
  }

  lemma Varint32RoundTrip(s: Bytes, p: nat, v: nat)
    requires v < LIMIT32 && IsAt(s, p, Varint(v))
    ensures Decoded32(s, p) == Some((v, p + |Varint(v)|))
  {
    Varint32Size(v);
    VarintDecodes(s, p, v, 0, 0, 28, LIMIT32, v);
  }

  lemma Varint64RoundTrip(s: Bytes, p: nat, v: nat)
    requires v < LIMIT64 && IsAt(s, p, Varint(v))
    ensures Decoded64(s, p) == Some((v, p + |Varint(v)|))
  {
    Varint64Size(v);
    VarintDecodes(s, p, v, 0, 0, 63, LIMIT64, v);
  }

  /** GetVarint32Ptr */
  method GetVarint32(s: Bytes, p: nat) returns (r: Option<(nat, nat)>)
    requires p <= |s|
    ensures r == Decoded32(s, p) && (r.Some? ==> p < r.value.1 <= |s|)
  {
    r := GetVarint(s, p, 28, LIMIT32);
    DecodedAdvances(s, p, 0, 0, 28, LIMIT32);
  }

  /** GetVarint64Ptr */
  method GetVarint64(s: Bytes, p: nat) returns (r: Option<(nat, nat)>)
    requires p <= |s|
    ensures r == Decoded64(s, p) && (r.Some? ==> p < r.value.1 <= |s|)
  {
    r := GetVarint(s, p, 63, LIMIT64);
    DecodedAdvances(s, p, 0, 0, 63, LIMIT64);
  }

  // ----- length-prefixed slices

  function LengthPrefixed(x: Bytes): Bytes { Varint(|x|) + x }

  /** GetLengthPrefixedSlice: the slice and where it ends. */
  method GetLengthPrefixedSlice(s: Bytes, p: nat, ghost x: Bytes) returns (r: Option<(Bytes, nat)>)
    requires p <= |s|
    ensures r.Some? ==> p < r.value.1 <= |s|
    ensures |x| < LIMIT32 && IsAt(s, p, LengthPrefixed(x)) ==>
              r.Some? && r.value.0 == x && r.value.1 == p + |LengthPrefixed(x)|
  {
    if |x| < LIMIT32 && IsAt(s, p, LengthPrefixed(x)) {
      PrefixThenSlice(s, p, x);
      Varint32RoundTrip(s, p, |x|);
    }
    var len := GetVarint32(s, p);
    if len.None? { return None; }
    var (n, q) := len.value;
    return if q + n <= |s| then Some((s[q..q + n], q + n)) else None;
  }

  lemma PrefixThenSlice(s: Bytes, p: nat, x: Bytes)
    requires IsAt(s, p, LengthPrefixed(x))
    ensures IsAt(s, p, Varint(|x|)) && IsAt(s, p + |Varint(|x|)|, x)
  {
    IsAtJoin(s, p, Varint(|x|), x);
  }

  lemma IsAtJoin(s: Bytes, p: nat, a: Bytes, b: Bytes)
    ensures IsAt(s, p, a + b) <==> IsAt(s, p, a) && IsAt(s, p + |a|, b)
  {
    if IsAt(s, p, a + b) {
      assert s[p..p + |a|] == s[p..p + |a + b|][..|a|] == (a + b)[..|a|];
      assert s[p + |a|..p + |a| + |b|] == s[p..p + |a + b|][|a|..] == (a + b)[|a|..];
    }
    if IsAt(s, p, a) && IsAt(s, p + |a|, b) {
      assert s[p..p + |a + b|] == s[p..p + |a|] + s[p + |a|..p + |a| + |b|];
    }
  }

  lemma {:induction false} DecodedAdvances(s: Bytes, p: nat, shift: nat, result: nat, most: nat, limit: nat)
    requires p <= |s| && limit > 0
    ensures var r := Decoded(s, p, shift, result, most, limit); r.Some? ==> p < r.value.1 <= |s| && r.value.0 < limit
    decreases |s| - p
  {
    if p < |s| && shift <= most && s[p] >= 128 {
      DecodedAdvances(s, p + 1, shift + 7, (result + (s[p] - 128) * Pow2(shift)) % limit, most, limit);
    }
  }

  // ----- fixed-length numbers

  /** EncodeFixed32 and EncodeFixed64: `k` bytes, low byte first. */
  function Fixed(v: nat, k: nat): (r: Bytes)
    ensures |r| == k
  {
    if k == 0 then [] else [v % 256] + Fixed(v / 256, k - 1)
  }

  function FixedValue(s: Bytes): nat {
    if s == [] then 0 else s[0] as int + 256 * FixedValue(s[1..])
  }

  lemma {:induction false} FixedRoundTrip(v: nat, k: nat)
    requires v < Pow2(8 * k)
    ensures FixedValue(Fixed(v, k)) == v
  {
    if k > 0 {
      assert Pow2(8 * k) == 256 * Pow2(8 * (k - 1)) by {
        ShiftBySeven(8 * (k - 1));
        assert Pow2(8 * (k - 1) + 8) == 2 * Pow2(8 * (k - 1) + 7);
      }
      FixedRoundTrip(v / 256, k - 1);
      assert Fixed(v, k)[1..] == Fixed(v / 256, k - 1);
    }
  }

  // ----- arrays of 32-bit numbers

  function Read32(data: Bytes, p: nat): nat
    requires p + 4 <= |data|
  {
    FixedValue(data[p..p + 4])
  }

  /** Number `j` of the array at `base` is `v`. */
  ghost predicate NumberAt(data: Bytes, base: nat, j: nat, v: nat) {
    base + 4 * j + 4 <= |data| && Read32(data, base + 4 * j) == v
  }

  predicate IsPrefix(a: Bytes, b: Bytes) { |a| <= |b| && b[..|a|] == a }

  lemma IsAtKept(s: Bytes, more: Bytes, p: nat, part: Bytes)
    requires IsAt(s, p, part)
    ensures IsAt(s + more, p, part)
  {
    assert (s + more)[p..p + |part|] == s[p..p + |part|];
  }

  lemma NumberKept(data: Bytes, more: Bytes, base: nat, j: nat, v: nat)
    requires NumberAt(data, base, j, v)
    ensures NumberAt(data + more, base, j, v)
  {
    var p := base + 4 * j;
    assert (data + more)[p..p + 4] == data[p..p + 4];
  }

  lemma Fixed32Reads(data: Bytes, v: nat)
    requires v < LIMIT32
    ensures Read32(data + Fixed(v, 4), |data|) == v
  {
    assert (data + Fixed(v, 4))[|data|..|data| + 4] == Fixed(v, 4);
    Words();
    FixedRoundTrip(v, 4);
  }

  lemma NumberAppended(buffer: Bytes, data: Bytes, numbers: seq<nat>, i: nat)
    requires i < |numbers| && |data| == |buffer| + 4 * i && IsPrefix(buffer, data) && numbers[i] < LIMIT32
    requires forall j :: 0 <= j < i ==> NumberAt(data, |buffer|, j, numbers[j])
    ensures var data' := data + Fixed(numbers[i], 4);
            && IsPrefix(buffer, data')
            && forall j :: 0 <= j < i + 1 ==> NumberAt(data', |buffer|, j, numbers[j])
  {
    var more := Fixed(numbers[i], 4);
    assert (data + more)[..|buffer|] == data[..|buffer|];
    forall j | 0 <= j < i ensures NumberAt(data + more, |buffer|, j, numbers[j]) {
      NumberKept(data, more, |buffer|, j, numbers[j]);
    }
    Fixed32Reads(data, numbers[i]);
  }

  /** What PutFixed32 stores of these numbers. */
  function Truncated(numbers: seq<nat>): (r: seq<nat>)
    ensures |r| == |numbers| && forall i :: 0 <= i < |r| ==> r[i] < LIMIT32
    ensures (forall i :: 0 <= i < |r| ==> numbers[i] < LIMIT32) ==> r == numbers
  {
    seq(|numbers|, i requires 0 <= i < |numbers| => numbers[i] % LIMIT32)
  }

  /** PutFixed32, for each of these numbers. */
  method PutNumbers(buffer: Bytes, numbers: seq<nat>) returns (data: Bytes)
    requires forall j :: 0 <= j < |numbers| ==> numbers[j] < LIMIT32
    ensures |data| == |buffer| + 4 * |numbers| && IsPrefix(buffer, data)
    ensures forall j :: 0 <= j < |numbers| ==> NumberAt(data, |buffer|, j, numbers[j])
  {
    data := buffer;
    for i := 0 to |numbers|
      invariant |data| == |buffer| + 4 * i && IsPrefix(buffer, data)
      invariant forall j :: 0 <= j < i ==> NumberAt(data, |buffer|, j, numbers[j])
    {
      NumberAppended(buffer, data, numbers, i);
      data := data + Fixed(numbers[i], 4);
    }
  }

  // ----- parts one after the other

  function Concat(parts: seq<Bytes>, k: nat): Bytes
    requires k <= |parts|
  {
    if k == 0 then [] else Concat(parts, k - 1) + parts[k - 1]
  }

  lemma {:induction false} ConcatOfPrefix(parts: seq<Bytes>, more: seq<Bytes>, k: nat)
    requires k <= |parts|
    ensures Concat(parts + more, k) == Concat(parts, k)
  {
    if k > 0 { ConcatOfPrefix(parts, more, k - 1); }
  }

  lemma {:induction false} ConcatPrefix(parts: seq<Bytes>, k: nat, n: nat)
    requires k <= n <= |parts|
    ensures IsPrefix(Concat(parts, k), Concat(parts, n))
    decreases n
  {
    if k < n {
      ConcatPrefix(parts, k, n - 1);
      var a, b := Concat(parts, k), Concat(parts, n - 1);
      assert (b + parts[n - 1])[..|a|] == b[..|a|];
    }
  }

  lemma {:induction false} ConcatSnoc(parts: seq<Bytes>, p: Bytes)
    ensures Concat(parts + [p], |parts| + 1) == Concat(parts, |parts|) + p
  {
    ConcatOfPrefix(parts, [p], |parts|);
  }

  /** Where each part stands. */
  lemma {:induction false} PartAt(parts: seq<Bytes>, k: nat, n: nat)
    requires k < n <= |parts|
    ensures IsAt(Concat(parts, n), |Concat(parts, k)|, parts[k])
    ensures |Concat(parts, k + 1)| == |Concat(parts, k)| + |parts[k]|
  {
    ConcatPrefix(parts, k + 1, n);
    var upto, all, before := Concat(parts, k + 1), Concat(parts, n), Concat(parts, k);
    assert all[|before|..|upto|] == all[..|upto|][|before|..];
  }
}
