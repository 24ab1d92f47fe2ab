// Bytes, fixed-width machine integers and the big-endian layout that
// Go's encoding/binary package gives them.
module Bytes {
  import opened Common
  import opened Division

  type byte = x: int | 0 <= x < 0x100
  type bytes = seq<byte>

  const TWO_32: int := 0x1_0000_0000

  type uint32 = x: int | 0 <= x < TWO_32
  type uint64 = x: int | 0 <= x < TWO_64
  type int64 = x: int | -0x8000_0000_0000_0000 <= x < 0x8000_0000_0000_0000

  const MAX_INT64: int64 := 0x7fff_ffff_ffff_ffff

  // A Go conversion uint32(n): the value modulo 2^32.
  function Uint32(n: int): (r: uint32)
    ensures 0 <= n < TWO_32 ==> r == n
  {
    n % TWO_32
  }

  // The two's complement bit pattern of a signed 64-bit value, and back.
  function ToBits(x: int64): uint64 {
    if x < 0 then x + TWO_64 else x
  }

  function FromBits(u: uint64): (x: int64)
    ensures ToBits(x) == u
  {
    if u > MAX_INT64 then u - TWO_64 else u
  }

  function Pow256(width: nat): (p: nat)
    ensures p > 0
  {
    if width == 0 then 1 else 256 * Pow256(width - 1)
  }

  lemma MachineWidths()
    ensures Pow256(4) == TWO_32 && Pow256(8) == TWO_64
  {
    assert Pow256(2) == 0x1_0000;
    assert Pow256(4) == TWO_32;
    assert Pow256(6) == 0x1_0000_0000_0000;
  }

  function PutBig(n: nat, width: nat): (s: bytes)
    ensures |s| == width
  {
    if width == 0 then [] else PutBig(n / 256, width - 1) + [n % 256]
  }

  function GetBig(s: bytes): (n: nat)
    ensures n < Pow256(|s|)
  {
    if |s| == 0 then 0 else GetBig(s[..|s| - 1]) * 256 + s[|s| - 1]
  }

  lemma {:induction false} GetPut(n: nat, width: nat)
    requires n < Pow256(width)
    ensures GetBig(PutBig(n, width)) == n
  {
    if width == 0 {
    } else {
      GetPut(n / 256, width - 1);
      assert PutBig(n, width)[..width - 1] == PutBig(n / 256, width - 1);
    }
  }

  lemma {:induction false} PutGet(s: bytes)
    ensures PutBig(GetBig(s), |s|) == s
  {
    if |s| == 0 {
    } else {
      PutGet(s[..|s| - 1]);
      assert s == s[..|s| - 1] + [s[|s| - 1]];
    }
  }

  // The number n stands in s from `at` on, most significant byte first.
  predicate BigEndianAt(s: bytes, at: nat, width: nat, n: nat) {
    at + width <= |s| && forall j :: at <= j < at + width ==> s[j] == n / Pow256(at + width - 1 - j) % 256
  }

  // The value of s, read from its most significant byte.
  function Weighted(s: bytes): nat {
    if s == [] then 0 else s[0] * Pow256(|s| - 1) + Weighted(s[1..])
  }

  // Every byte that is written, by its place.
  lemma {:induction false} PutBytes(n: nat, width: nat)
    ensures BigEndianAt(PutBig(n, width), 0, width, n)
  {
    if width == 0 {
    } else {
      PutBytes(n / 256, width - 1);
      forall i | 0 <= i < width ensures PutBig(n, width)[i] == n / Pow256(width - 1 - i) % 256 {
        if i < width - 1 {
          QuotientTwice(n, 256, Pow256(width - 2 - i));
          assert PutBig(n, width)[i] == PutBig(n / 256, width - 1)[i];
        }
      }
    }
  }

  lemma {:induction false} WeightedSnoc(s: bytes, last: byte)
    ensures Weighted(s + [last]) == Weighted(s) * 256 + last
  {
    if s == [] {
      assert Weighted([last]) == last * Pow256(0) + Weighted([]);
    } else {
      WeightedSnoc(s[1..], last);
      assert (s + [last])[1..] == s[1..] + [last];
      assert s[0] * Pow256(|s|) == s[0] * (256 * Pow256(|s| - 1)) == 256 * (s[0] * Pow256(|s| - 1));
    }
  }

  // What is read is the sum of the bytes by the weight of their places.
  lemma {:induction false} GetWeighted(s: bytes)
    ensures GetBig(s) == Weighted(s)
  {
    if s == [] {
    } else {
      GetWeighted(s[..|s| - 1]);
      WeightedSnoc(s[..|s| - 1], s[|s| - 1]);
      assert s[..|s| - 1] + [s[|s| - 1]] == s;
    }
  }
}
