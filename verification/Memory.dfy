/** Raw memory as a sequence of bytes, with little-endian integers stored in it. */
module Memory {

  type byte = x: int | 0 <= x < 256
  const TWO32: int := 0x1_0000_0000
  const TWO63: int := 0x8000_0000_0000_0000
  const TWO64: int := 0x1_0000_0000_0000_0000
  type u32 = x: int | 0 <= x < TWO32
  type u64 = x: int | 0 <= x < TWO64
  type int64 = x: int | -TWO63 <= x < TWO63

  function Pow256(n: nat): (p: nat)
    ensures p > 0
  {
    if n == 0 then 1 else 256 * Pow256(n - 1)
  }

  /** The number whose little-endian form is `b`. */
  function FromBytes(b: seq<byte>): (v: nat)
    ensures v < Pow256(|b|)
  {
    if b == [] then 0 else b[0] + 256 * FromBytes(b[1..])
  }

  /** The `n` low bytes of `v`, least significant first. */
  function ToBytes(v: nat, n: nat): (b: seq<byte>)
    ensures |b| == n
  {
    if n == 0 then [] else [v % 256] + ToBytes(v / 256, n - 1)
  }

  lemma {:induction false} RoundTrip(v: nat, n: nat)
    requires v < Pow256(n)
    ensures FromBytes(ToBytes(v, n)) == v
  {
    if n > 0 {
      RoundTrip(v / 256, n - 1);
      assert ToBytes(v, n)[1..] == ToBytes(v / 256, n - 1);
    }
  }

  lemma {:induction false} Powers()
    ensures Pow256(4) == TWO32 && Pow256(8) == TWO64
  {
    assert Pow256(2) == 65536;
    assert Pow256(4) == 65536 * 65536;
    assert Pow256(6) == 65536 * 65536 * 65536;
  }

  /** `b` is all zeros, as memset leaves it. */
  ghost predicate Zeros(b: seq<byte>) {
    forall i :: 0 <= i < |b| ==> b[i] == 0
  }

  lemma {:induction false} ZeroValue(b: seq<byte>)
    requires Zeros(b)
    ensures FromBytes(b) == 0
  {
    if b != [] {
      ZeroValue(b[1..]);
    }
  }

  /** The unsigned 32-bit word at offset `o`. */
  function U32(s: seq<byte>, o: nat): (v: u32)
    requires o + 4 <= |s|
  {
    Powers();
    FromBytes(s[o..o + 4])
  }

  /** Byte by byte, the least significant first. */
  lemma {:induction false} WordBytes(s: seq<byte>, o: nat)
    requires o + 4 <= |s|
    ensures U32(s, o)
         == (s[o] as int) + 0x100 * (s[o + 1] as int) + 0x1_0000 * (s[o + 2] as int) + 0x100_0000 * (s[o + 3] as int)
  {
    var b := s[o..o + 4];
    assert b[1..][1..] == b[2..] && b[2..][1..] == b[3..] && b[3..][1..] == [];
    assert FromBytes(b[3..]) == s[o + 3];
    assert FromBytes(b[2..]) == s[o + 2] + 256 * FromBytes(b[3..]);
    assert FromBytes(b[1..]) == s[o + 1] + 256 * FromBytes(b[2..]);
  }

  /** The unsigned 64-bit word at offset `o`. */
  function U64(s: seq<byte>, o: nat): (v: u64)
    requires o + 8 <= |s|
  {
    Powers();
    FromBytes(s[o..o + 8])
  }

  lemma {:induction false} LongBytes(s: seq<byte>, o: nat)
    requires o + 8 <= |s|
    ensures U64(s, o) == U32(s, o) + 0x1_0000_0000 * U32(s, o + 4)
  {
    var b := s[o..o + 8];
    Joined(b, 4);
    Powers();
    assert b[..4] == s[o..o + 4] && b[4..] == s[o + 4..o + 8];
  }

  lemma {:induction false} Joined(b: seq<byte>, n: nat)
    requires n <= |b|
    ensures FromBytes(b) == FromBytes(b[..n]) + Pow256(n) * FromBytes(b[n..])
  {
    if n > 0 {
      Joined(b[1..], n - 1);
      assert b[..n][1..] == b[1..][..n - 1] && b[n..] == b[1..][n - 1..];
      Distributes(FromBytes(b[1..][..n - 1]), FromBytes(b[n..]), Pow256(n - 1));
    } else {
      assert b[..0] == [] && b[0..] == b;
    }
  }

  lemma {:induction false} Distributes(x: int, y: int, p: int)
    ensures 256 * (x + p * y) == 256 * x + (256 * p) * y
  {
  }

  /** `s` after the bytes `b` were written at offset `o`. */
  function Put(s: seq<byte>, o: nat, b: seq<byte>): (r: seq<byte>)
    requires o + |b| <= |s|
    ensures |r| == |s|
  {
    s[..o] + b + s[o + |b|..]
  }

  /** int64_t is stored in two's complement. */
  function Unsigned(v: int64): u64 {
    if v >= 0 then v else v + TWO64
  }

  function Signed(u: u64): int64 {
    if u < TWO63 then u else u - TWO64
  }

  /** Byte ranges [a, a+n) and [b, b+m) do not meet. */
  predicate Apart(a: nat, n: nat, b: nat, m: nat) {
    a + n <= b || b + m <= a
  }
}
