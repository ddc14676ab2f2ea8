/** Bytes, fixed-width unsigned integers, and big-endian fields inside a buffer,
    as both wire codecs use them. */
module Bytes {
  type u8 = x: nat | x < 0x100
  type u16 = x: nat | x < 0x1_0000
  type u32 = x: nat | x < 0x1_0000_0000
  type u64 = x: nat | x < 0x1_0000_0000_0000_0000

  function Pow256(n: nat): (p: nat)
    ensures p > 0
  {
    if n == 0 then 1 else 256 * Pow256(n - 1)
  }

  lemma Widths()
    ensures Pow256(2) == 0x1_0000
    ensures Pow256(4) == 0x1_0000_0000
    ensures Pow256(8) == 0x1_0000_0000_0000_0000
  {
    assert Pow256(4) == 256 * (256 * Pow256(2));
    assert Pow256(8) == 256 * (256 * (256 * (256 * Pow256(4))));
  }

  /** The `n` low bytes of `x`, most significant first. */
  function ToBE(x: nat, n: nat): (s: seq<u8>)
    ensures |s| == n
  {
    if n == 0 then [] else ToBE(x / 256, n - 1) + [x % 256]
  }

  function FromBE(s: seq<u8>): (x: nat)
    ensures x < Pow256(|s|)
  {
    if s == [] then 0 else FromBE(s[..|s| - 1]) * 256 + s[|s| - 1]
  }

  lemma {:induction false} FromToBE(x: nat, n: nat)
    requires x < Pow256(n)
    ensures FromBE(ToBE(x, n)) == x
  {
    if n != 0 {
      var s := ToBE(x, n);
      assert s[..n - 1] == ToBE(x / 256, n - 1);
      FromToBE(x / 256, n - 1);
    }
  }

  lemma {:induction false} ToFromBE(s: seq<u8>)
    ensures ToBE(FromBE(s), |s|) == s
  {
    if s != [] {
      ToFromBE(s[..|s| - 1]);
    }
  }

  lemma Regroup(a: nat, p: nat)
    ensures a * (256 * p) == a * p * 256
  {
  }

  /** The first byte weighs most. */
  lemma {:induction false} BigEndian(s: seq<u8>)
    requires s != []
    ensures FromBE(s) == s[0] * Pow256(|s| - 1) + FromBE(s[1..])
  {
    var n := |s| - 1;
    if n > 0 {
      var init := s[..n];
      BigEndian(init);
      assert init[1..] == s[1..][..n - 1];
      Regroup(s[0], Pow256(n - 1));
    }
  }

  lemma TwoBytes(a: u8, b: u8)
    ensures FromBE([a, b]) == 256 * a + b && ToBE(256 * a + b, 2) == [a, b]
  {
    assert [a, b][..1] == [a] && [a][..0] == [];
    assert FromBE([a]) == a;
    ToFromBE([a, b]);
  }

  /** `u16::from_be_bytes` */
  function U16(s: seq<u8>): (x: u16)
    requires |s| == 2
  {
    Widths();
    FromBE(s)
  }

  function U32(s: seq<u8>): (x: u32)
    requires |s| == 4
  {
    Widths();
    FromBE(s)
  }

  function U64(s: seq<u8>): (x: u64)
    requires |s| == 8
  {
    Widths();
    FromBE(s)
  }

  lemma U16RoundTrip(x: u16)
    ensures U16(ToBE(x, 2)) == x
  {
    Widths();
    FromToBE(x, 2);
  }

  lemma U32RoundTrip(x: u32)
    ensures U32(ToBE(x, 4)) == x
  {
    Widths();
    FromToBE(x, 4);
  }

  lemma U64RoundTrip(x: u64)
    ensures U64(ToBE(x, 8)) == x
  {
    Widths();
    FromToBE(x, 8);
  }

  /** `buf` with `bytes` written over it from offset `at`. */
  function Put(buf: seq<u8>, at: nat, bytes: seq<u8>): (r: seq<u8>)
    requires at + |bytes| <= |buf|
    ensures |r| == |buf|
    ensures r[at..at + |bytes|] == bytes
    ensures forall lo, hi :: 0 <= lo <= hi <= at || at + |bytes| <= lo <= hi <= |buf| ==> r[lo..hi] == buf[lo..hi]
    ensures forall i :: 0 <= i < at || at + |bytes| <= i < |buf| ==> r[i] == buf[i]
  {
    buf[..at] + bytes + buf[at + |bytes|..]
  }

  /** Two adjacent writes are one. */
  lemma PutJoin(buf: seq<u8>, at: nat, a: seq<u8>, b: seq<u8>)
    requires at + |a| + |b| <= |buf|
    ensures Put(Put(buf, at, a), at + |a|, b) == Put(buf, at, a + b)
  {
  }

  /** A write inside what was just written. */
  lemma PutWithin(buf: seq<u8>, at: nat, w: seq<u8>, k: nat, b: seq<u8>)
    requires at + |w| <= |buf| && k + |b| <= |w|
    ensures Put(Put(buf, at, w), at + k, b) == Put(buf, at, Put(w, k, b))
  {
  }

  /** `buf[at..at + len].copy_from_slice(bytes)` */
  method CopyFromSlice(buf: array<u8>, at: nat, bytes: seq<u8>)
    requires at + |bytes| <= buf.Length
    modifies buf
    ensures buf[..] == Put(old(buf[..]), at, bytes)
  {
    for i := 0 to |bytes|
      invariant forall k :: 0 <= k < i ==> buf[at + k] == bytes[k]
      invariant forall k :: 0 <= k < at || at + i <= k < buf.Length ==> buf[k] == old(buf[k])
    {
      buf[at + i] := bytes[i];
    }
  }
}
