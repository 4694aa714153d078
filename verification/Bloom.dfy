/** The Bloom filter (util/bloom.cc). The 32-bit hash of a key is a parameter. */
module Bloom {
  import opened Keys
  import opened Coding
  import Crc32c

  /** (h >> 17) | (h << 15) on 32 bits. */
  function Delta(h: nat): nat { h / 0x2_0000 + h % 0x2_0000 * 0x8000 }

  /** The j-th probe of a key with this hash: double hashing, with 32-bit wrap-around. */
  function Probe(h: nat, j: nat, bits: nat): nat
    requires bits > 0
  {
    (h + j * Delta(h)) % LIMIT32 % bits
  }

  predicate BitOf(b: byte, i: nat)
    requires i < 8
  {
    Crc32c.BitsOf(b)[i]
  }

  /** b | (1 << i) */
  function WithBit(b: byte, i: nat): byte
    requires i < 8
  {
    Crc32c.ByteOf(Crc32c.BitsOf(b)[i := true])
  }

  lemma WithBitSets(b: byte, i: nat)
    requires i < 8
    ensures BitOf(WithBit(b, i), i) && forall j :: 0 <= j < 8 && j != i ==> BitOf(WithBit(b, i), j) == BitOf(b, j)
  {
    Crc32c.ByteRoundTrip(b, Crc32c.BitsOf(b)[i := true]);
  }

  predicate Bit(s: Bytes, p: nat)
    requires p < |s| * 8
  {
    BitOf(s[p / 8], p % 8)
  }

  /** Every probe of this hash is set in a filter: what KeyMayMatch tests. The last byte says how many probes there
      are; more than 30 is reserved and matches everything. */
  predicate Matches(filter: Bytes, h: nat) {
    && |filter| >= 2
    && var k, bits := filter[|filter| - 1], (|filter| - 1) * 8;
       k > 30 || forall j :: 0 <= j < k ==> Bit(filter, Probe(h, j, bits))
  }

  lemma NextProbe(h: nat, j: nat)
    ensures ((h + j * Delta(h)) % LIMIT32 + Delta(h)) % LIMIT32 == (h + (j + 1) * Delta(h)) % LIMIT32
  {
    var a, d := h + j * Delta(h), Delta(h);
    assert a % LIMIT32 + d == a + d - LIMIT32 * (a / LIMIT32);
    WrapsBack(a + d, a / LIMIT32);
  }

  lemma WrapsBack(x: nat, q: nat)
    requires LIMIT32 * q <= x
    ensures (x - LIMIT32 * q) % LIMIT32 == x % LIMIT32
  {
    var r := x - LIMIT32 * q;
    assert x == LIMIT32 * (r / LIMIT32 + q) + r % LIMIT32;
  }

  /** KeyMayMatch */
  method KeyMayMatch(h: nat, filter: Bytes) returns (r: bool)
    requires h < LIMIT32
    ensures r == Matches(filter, h)
  {
    var len := |filter|;
    if len < 2 { return false; }
    var bits := (len - 1) * 8;
    var k := filter[len - 1];
    if k > 30 { return true; }
    var x, delta := h, Delta(h);
    for j := 0 to k
      invariant x == (h + j * Delta(h)) % LIMIT32
      invariant forall i :: 0 <= i < j ==> Bit(filter, Probe(h, i, bits))
    {
      var bitpos := x % bits;
      assert bitpos == Probe(h, j, bits);
      if !BitOf(filter[bitpos / 8], bitpos % 8) { return false; }
      NextProbe(h, j);
      x := (x + delta) % LIMIT32;
    }
    return true;
  }

  lemma SetBit(s: Bytes, p: nat)
    requires p < |s| * 8
    ensures var t := s[p / 8 := WithBit(s[p / 8], p % 8)];
            |t| == |s| && forall q :: 0 <= q < |s| * 8 ==> Bit(t, q) == (Bit(s, q) || q == p)
  {
    var t := s[p / 8 := WithBit(s[p / 8], p % 8)];
    WithBitSets(s[p / 8], p % 8);
    forall q | 0 <= q < |s| * 8 ensures Bit(t, q) == (Bit(s, q) || q == p) {
      if q / 8 == p / 8 && q % 8 == p % 8 { assert q == p; }
    }
  }

  /** Bit `p` is one of the first `k` probes of this hash. */
  ghost predicate IsProbe(h: nat, k: nat, bits: nat, p: nat) {
    bits > 0 && exists j :: 0 <= j < k && Probe(h, j, bits) == p
  }

  /** Bit `p` is a probe of one of these hashes. */
  ghost predicate IsProbed(hashes: seq<nat>, k: nat, bits: nat, p: nat) {
    exists i :: 0 <= i < |hashes| && IsProbe(hashes[i], k, bits, p)
  }

  lemma NextIsProbe(h: nat, k: nat, bits: nat, p: nat)
    requires bits > 0
    ensures IsProbe(h, k + 1, bits, p) <==> IsProbe(h, k, bits, p) || p == Probe(h, k, bits)
  {
    if IsProbe(h, k + 1, bits, p) { var j :| 0 <= j < k + 1 && Probe(h, j, bits) == p; }
  }

  lemma NextIsProbed(hashes: seq<nat>, i: nat, k: nat, bits: nat, p: nat)
    requires i < |hashes|
    ensures IsProbed(hashes[..i + 1], k, bits, p) <==> IsProbed(hashes[..i], k, bits, p) || IsProbe(hashes[i], k, bits, p)
  {
    var before, all := hashes[..i], hashes[..i + 1];
    if IsProbed(before, k, bits, p) {
      var m :| 0 <= m < |before| && IsProbe(before[m], k, bits, p);
      assert all[m] == before[m];
    }
    if IsProbed(all, k, bits, p) {
      var m :| 0 <= m < |all| && IsProbe(all[m], k, bits, p);
      if m < i { assert before[m] == all[m]; }
    }
    assert all[i] == hashes[i];
  }

  /** All `k` probes of this hash are set. */
  ghost predicate Probed(s: Bytes, h: nat, k: nat) {
    |s| > 0 && forall j :: 0 <= j < k ==> Bit(s, Probe(h, j, |s| * 8))
  }

  /** The bits of `t` are those of `s` and the first `k` probes of this hash. */
  ghost predicate Adds(s: Bytes, t: Bytes, h: nat, k: nat) {
    |t| == |s| && forall p :: 0 <= p < |s| * 8 ==> Bit(t, p) == (Bit(s, p) || IsProbe(h, k, |s| * 8, p))
  }

  /** CreateFilter's inner loop: the probes of one key. */
  method AddHash(s: Bytes, h: nat, k: nat) returns (t: Bytes)
    requires |s| > 0 && h < LIMIT32
    ensures Adds(s, t, h, k)
  {
    var x, delta, bits := h, Delta(h), |s| * 8;
    t := s;
    for j := 0 to k
      invariant x == (h + j * Delta(h)) % LIMIT32 && Adds(s, t, h, j)
    {
      var bitpos := x % bits;
      ghost var before := t;
      SetBit(t, bitpos);
      t := t[bitpos / 8 := WithBit(t[bitpos / 8], bitpos % 8)];
      assert bitpos == Probe(h, j, bits);
      AddsOne(s, before, t, h, j);
      NextProbe(h, j);
      x := (x + delta) % LIMIT32;
    }
  }

  lemma AddsOne(s: Bytes, t: Bytes, u: Bytes, h: nat, j: nat)
    requires |s| > 0 && Adds(s, t, h, j) && |u| == |s|
    requires forall q :: 0 <= q < |s| * 8 ==> Bit(u, q) == (Bit(t, q) || q == Probe(h, j, |s| * 8))
    ensures Adds(s, u, h, j + 1)
  {
    forall p | 0 <= p < |s| * 8 ensures Bit(u, p) == (Bit(s, p) || IsProbe(h, j + 1, |s| * 8, p)) {
      NextIsProbe(h, j, |s| * 8, p);
    }
  }

  /** Exactly the probes of these hashes are set. */
  ghost predicate Exact(s: Bytes, hashes: seq<nat>, k: nat) {
    forall p :: 0 <= p < |s| * 8 ==> Bit(s, p) == IsProbed(hashes, k, |s| * 8, p)
  }

  /** CreateFilter: ten bits a key, say, but at least 64; a bit is set if and only if it is a probe of some key; so every
      key that went into the filter matches it. */
  method CreateFilter(hashes: seq<nat>, bitsPerKey: nat, k: nat) returns (filter: Bytes)
    requires 1 <= k <= 30 && forall i :: 0 <= i < |hashes| ==> hashes[i] < LIMIT32
    ensures forall i :: 0 <= i < |hashes| ==> Matches(filter, hashes[i])
    ensures |filter| == (if |hashes| * bitsPerKey < 64 then 8 else (|hashes| * bitsPerKey + 7) / 8) + 1
    ensures filter[|filter| - 1] == k && Exact(filter[..|filter| - 1], hashes, k)
  {
    var bits := |hashes| * bitsPerKey;
    if bits < 64 { bits := 64; }
    var size := (bits + 7) / 8;
    var s := seq(size, i => 0);
    EmptyIsExact(s, hashes, k);
    for i := 0 to |hashes|
      invariant |s| == size && Exact(s, hashes[..i], k)
    {
      var t := AddHash(s, hashes[i], k);
      ExactGrows(s, t, hashes, i, k);
      s := t;
    }
    assert hashes[..|hashes|] == hashes;
    filter := s + [k];
    assert filter[..|filter| - 1] == s;
    forall i | 0 <= i < |hashes| ensures Matches(filter, hashes[i]) {
      ExactProbes(s, hashes, i, k);
      ProbedMatches(s, hashes[i], k);
    }
  }

  lemma EmptyIsExact(s: Bytes, hashes: seq<nat>, k: nat)
    requires forall i :: 0 <= i < |s| ==> s[i] == 0
    ensures Exact(s, hashes[..0], k)
  {
    forall p | 0 <= p < |s| * 8 ensures !Bit(s, p) { ZeroByte(p % 8); }
  }

  lemma ZeroByte(i: nat)
    requires i < 8
    ensures !BitOf(0, i)
  {
    ZeroBits(8, i);
  }

  lemma {:induction false} ZeroBits(n: nat, i: nat)
    requires i < n
    ensures !Crc32c.ToBits(0, n)[i]
  {
    if i > 0 { ZeroBits(n - 1, i - 1); }
  }

  lemma ExactGrows(s: Bytes, t: Bytes, hashes: seq<nat>, i: nat, k: nat)
    requires i < |hashes| && Exact(s, hashes[..i], k) && Adds(s, t, hashes[i], k)
    ensures Exact(t, hashes[..i + 1], k)
  {
    forall p | 0 <= p < |t| * 8 ensures Bit(t, p) == IsProbed(hashes[..i + 1], k, |t| * 8, p) {
      NextIsProbed(hashes, i, k, |t| * 8, p);
    }
  }

  lemma ExactProbes(s: Bytes, hashes: seq<nat>, i: nat, k: nat)
    requires |s| > 0 && i < |hashes| && Exact(s, hashes, k)
    ensures Probed(s, hashes[i], k)
  {
    forall j | 0 <= j < k ensures Bit(s, Probe(hashes[i], j, |s| * 8)) {
      assert IsProbe(hashes[i], k, |s| * 8, Probe(hashes[i], j, |s| * 8));
    }
  }

  lemma ProbedMatches(s: Bytes, h: nat, k: byte)
    requires Probed(s, h, k)
    ensures Matches(s + [k], h)
  {
    var filter, bits := s + [k], |s| * 8;
    forall j | 0 <= j < k ensures Bit(filter, Probe(h, j, bits)) {
      assert Bit(s, Probe(h, j, bits));
    }
  }
}
