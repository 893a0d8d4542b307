/** Which single corrupted bytes of a packet the checksum notices. */
module Link1Errors {
  import opened Link1

  lemma XorMix(a: bv8, b: bv8, c: bv8, d: bv8)
    ensures (a ^ b) ^ c ^ d == (a ^ c ^ d) ^ b
    ensures c != d ==> a ^ c ^ d != a
  {}

  /** Changing one data byte changes the exclusive or by the same bits. */
  lemma {:induction false} XorAllUpdate(data: seq<bv8>, seed: bv8, i: nat, b: bv8)
    requires i < |data|
    ensures XorAll(data[i := b], seed) == XorAll(data, seed) ^ data[i] ^ b
    decreases |data|
  {
    var n := |data| - 1;
    if i == n {
      assert data[i := b][..n] == data[..n];
    } else {
      XorAllUpdate(data[..n], seed, i, b);
      assert data[i := b][..n] == data[..n][i := b];
      XorMix(XorAll(data[..n], seed), data[n], data[i], b);
    }
  }

  lemma {:induction false} XorAllAppend(a: seq<bv8>, b: seq<bv8>, seed: bv8)
    ensures XorAll(a + b, seed) == XorAll(b, XorAll(a, seed))
    decreases |b|
  {
    if b == [] {
      assert a + b == a;
    } else {
      var n := |b| - 1;
      assert (a + b)[..|a| + n] == a + b[..n];
      XorAllAppend(a, b[..n], seed);
    }
  }

  lemma {:induction false} XorAllSeed(data: seq<bv8>, s: bv8, t: bv8)
    ensures XorAll(data, s ^ t) == XorAll(data, s) ^ t
    decreases |data|
  {
    if data == [] {
    } else {
      var n := |data| - 1;
      XorAllSeed(data[..n], s, t);
      XorSwap(XorAll(data[..n], s), t, data[n]);
    }
  }

  lemma XorSwap(a: bv8, b: bv8, c: bv8)
    ensures (a ^ b) ^ c == (a ^ c) ^ b
    ensures a ^ b ^ a == b && a ^ (a ^ b) == b
  {}

  /** A packet with one data byte changed is rejected. */
  lemma DataErrorNoticed(data: seq<bv8>, i: nat, b: bv8)
    requires |data| <= DATA_SIZE && i < |data| && b != data[i]
    ensures !Good(Body(data)[i + 1 := b])
  {
    EncodeIsStartAndBody(data);
    var got := Body(data)[i + 1 := b];
    assert got[1..|got| - 1] == data[i := b];
    XorAllUpdate(data, |data| as bv8, i, b);
    XorMix(Checksum(data), 0, data[i], b);
  }

  /** A packet with its checksum changed is rejected. */
  lemma ChecksumErrorNoticed(data: seq<bv8>, sum: bv8)
    requires |data| <= DATA_SIZE && sum != Checksum(data)
    ensures !Good(Body(data)[|data| + 1 := sum])
  {
    EncodeIsStartAndBody(data);
    var got := Body(data)[|data| + 1 := sum];
    assert got[1..|got| - 1] == data;
  }

  /** What the reader takes for a packet when the size byte arrives as `m`. */
  function Resized(data: seq<bv8>, rest: seq<bv8>, m: nat): (got: seq<bv8>)
    requires |data| <= DATA_SIZE && m <= DATA_SIZE && m <= |data| + |rest|
    ensures |got| == m + 2
  {
    [m as bv8] + (data + [Checksum(data)] + rest)[..m + 1]
  }

  lemma ResizedParts(data: seq<bv8>, rest: seq<bv8>, m: nat)
    requires |data| <= DATA_SIZE && m <= DATA_SIZE && m <= |data| + |rest|
    ensures var got, all := Resized(data, rest, m), data + [Checksum(data)] + rest;
      SizeOf(got) == m && got[1..|got| - 1] == all[..m] && got[|got| - 1] == all[m]
  {
    SizeFits(m);
  }

  /** It passes when its last byte is the checksum of those before. */
  lemma GoodResized(data: seq<bv8>, rest: seq<bv8>, m: nat)
    requires |data| <= DATA_SIZE && m <= DATA_SIZE && m <= |data| + |rest|
    ensures var all := data + [Checksum(data)] + rest;
      Good(Resized(data, rest, m)) <==> all[m] == XorAll(all[..m], m as bv8)
  {
    ResizedParts(data, rest, m);
  }

  /** A smaller size goes unnoticed exactly when the byte it makes the checksum is that of the bytes before it. */
  lemma SmallerSize(data: seq<bv8>, rest: seq<bv8>, m: nat)
    requires |data| <= DATA_SIZE && m < |data|
    ensures Good(Resized(data, rest, m)) <==> data[m] == XorAll(data[..m], m as bv8)
  {
    GoodResized(data, rest, m);
    var all := data + [Checksum(data)] + rest;
    assert all[..m] == data[..m] && all[m] == data[m];
  }

  lemma XorBack(n: bv8, m: bv8)
    ensures n ^ (n ^ m) == m
  {}

  lemma XorEnds(b: bv8, sum: bv8, n: bv8, m: bv8)
    requires b == sum ^ (n ^ m)
    ensures b ^ sum == m ^ n
  {}

  /** Another seed changes the exclusive or by the bits that differ. */
  lemma OtherSeed(data: seq<bv8>, n: bv8, m: bv8)
    ensures XorAll(data, m) == XorAll(data, n) ^ (n ^ m)
  {
    var t := n ^ m;
    XorBack(n, m);
    XorAllSeed(data, n, t);
    assert XorAll(data, n ^ t) == XorAll(data, m);
  }

  lemma OneMore(data: seq<bv8>, b: bv8, seed: bv8)
    ensures XorAll(data + [b], seed) == XorAll(data, seed) ^ b
  {
    assert (data + [b])[..|data|] == data;
  }

  /** What a packet of size `n` adds to the checksum of one of size `m` is the two sizes. */
  lemma PacketCancels(data: seq<bv8>, n: bv8, sum: bv8, m: bv8)
    requires sum == XorAll(data, n)
    ensures XorAll(data + [sum], m) == m ^ n
  {
    var all, b := XorAll(data + [sum], m), XorAll(data, m);
    assert all == b ^ sum by {
      OneMore(data, sum, m);
    }
    assert b == sum ^ (n ^ m) by {
      OtherSeed(data, n, m);
    }
    XorEnds(b, sum, n, m);
  }

  lemma LargerSum(data: seq<bv8>, n: bv8, sum: bv8, more: seq<bv8>, m: bv8)
    requires sum == XorAll(data, n)
    ensures XorAll(data + [sum] + more, m) == XorAll(more, m ^ n)
  {
    XorAllAppend(data + [sum], more, m);
    PacketCancels(data, n, sum, m);
  }

  lemma Split(packet: seq<bv8>, rest: seq<bv8>, m: nat)
    requires |packet| <= m < |packet| + |rest|
    ensures (packet + rest)[..m] == packet + rest[..m - |packet|] && (packet + rest)[m] == rest[m - |packet|]
  {}

  /** A larger size goes unnoticed exactly when what follows the packet makes up for the two sizes. */
  lemma LargerSize(data: seq<bv8>, rest: seq<bv8>, m: nat)
    requires |data| < m <= DATA_SIZE && m <= |data| + |rest|
    ensures var k := m - |data| - 1;
      Good(Resized(data, rest, m)) <==> rest[k] == XorAll(rest[..k], (m as bv8) ^ (|data| as bv8))
  {
    GoodResized(data, rest, m);
    Split(data + [Checksum(data)], rest, m);
    LargerSum(data, |data| as bv8, Checksum(data), rest[..m - |data| - 1], m as bv8);
  }

  /** It does happen: a packet of one zero byte whose size arrives as 0 is read as an empty packet. */
  lemma SizeErrorMissed()
    ensures Good(Resized([0], [], 0)) && SizeOf(Resized([0], [], 0)) != |[0 as bv8]|
  {
    SmallerSize([0], [], 0);
    ResizedParts([0], [], 0);
    assert [0 as bv8][..0] == [];
  }
}
