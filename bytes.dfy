/** Octets, byte strings and the big-endian integer conversions the program relies on. */
module Bytes {

  /** An octet (Rust `u8`). */
  newtype byte = x: int | 0 <= x < 256

  /** A Rust `&str` / `String`, modelled as its UTF-8 bytes, so `|s|` is `str::len`. */
  type Str = seq<byte>

  function Min(a: nat, b: nat): (m: nat)
    ensures m <= a && m <= b && (m == a || m == b)
  {
    if a <= b then a else b
  }

  /** `str::starts_with`, on bytes. */
  predicate StartsWith(s: Str, prefix: Str) {
    |prefix| <= |s| && s[..|prefix|] == prefix
  }

  /** Byte-wise lexicographic order, the `Ord` of Rust's `String`. */
  predicate ByteLess(a: Str, b: Str)
    decreases |a|
  {
    if |a| == 0 then |b| > 0
    else |b| > 0 && (a[0] < b[0] || (a[0] == b[0] && ByteLess(a[1..], b[1..])))
  }

  lemma {:induction false} ByteLessIrreflexive(a: Str)
    ensures !ByteLess(a, a)
    decreases |a|
  {
    if |a| > 0 {
      ByteLessIrreflexive(a[1..]);
    }
  }

  function Pow256(n: nat): (p: nat)
    ensures p > 0
  {
    if n == 0 then 1 else 256 * Pow256(n - 1)
  }

  /** The unsigned integer whose big-endian octets are `s` (`u32::from(Ipv4Addr)`,
      `u128::from(Ipv6Addr)`). */
  function BigEndianValue(s: seq<byte>): (v: nat)
    ensures v < Pow256(|s|)
  {
    if |s| == 0 then 0
    else BigEndianValue(s[..|s| - 1]) * 256 + s[|s| - 1] as nat
  }

  /** The `width` bytes that `v.to_be()` occupies in memory: whatever the host's byte order,
      the value converted to network order is laid out most significant byte first. Bits of
      `v` above `width` bytes are dropped, as with a fixed-width integer. */
  function ToBeBytes(v: nat, width: nat): (s: seq<byte>)
    ensures |s| == width
  {
    if width == 0 then []
    else ToBeBytes(v / 256, width - 1) + [(v % 256) as byte]
  }

  lemma DivModByte(q: nat, r: nat)
    requires r < 256
    ensures (q * 256 + r) / 256 == q && (q * 256 + r) % 256 == r
  {
  }

  /** Converting octets to an integer and back to network order gives the octets back. */
  lemma {:induction false} ToBeBytesOfValue(s: seq<byte>)
    ensures ToBeBytes(BigEndianValue(s), |s|) == s
    decreases |s|
  {
    if |s| > 0 {
      var init := s[..|s| - 1];
      var last := s[|s| - 1];
      DivModByte(BigEndianValue(init), last as nat);
      ToBeBytesOfValue(init);
      assert s == init + [last];
    }
  }

  /** And the other way round: a value that fits in `width` bytes is recovered from them. */
  lemma {:induction false} ValueOfToBeBytes(v: nat, width: nat)
    requires v < Pow256(width)
    ensures BigEndianValue(ToBeBytes(v, width)) == v
    decreases width
  {
    if width > 0 {
      var s := ToBeBytes(v, width);
      assert s[..|s| - 1] == ToBeBytes(v / 256, width - 1);
      ValueOfToBeBytes(v / 256, width - 1);
    }
  }
}
