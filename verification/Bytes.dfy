/** Bytes, little-endian integers and 32-bit words, as the file format stores them. */
module Bytes {
  import opened Arithmetic

  type byte = bv8
  /** A 32-bit pattern: a CRC32C value, or the bits of an `f32`. */
  type word = bv32

  type u16 = n: int | 0 <= n < 0x1_0000
  type u32 = n: int | 0 <= n < 0x1_0000_0000
  type u64 = n: int | 0 <= n < 0x1_0000_0000_0000_0000
  type i64 = n: int | -0x8000_0000_0000_0000 <= n < 0x8000_0000_0000_0000

  const U64_LIMIT: int := 0x1_0000_0000_0000_0000
  const U32_LIMIT: int := 0x1_0000_0000
  /** `isize::MAX`: the most bytes a Rust vector may hold. */
  const ISIZE_MAX: int := 0x7FFF_FFFF_FFFF_FFFF

  /** `n as u32`: the low 32 bits. */
  function CastU32(n: nat): (r: u32)
    ensures r <= n
    ensures r == n <==> n < U32_LIMIT
  {
    n % 0x1_0000_0000
  }

  /** Multiples of 2^32 are what the cast drops. */
  lemma CastDropsMultiples(q: nat, r: u32)
    ensures CastU32(q * U32_LIMIT + r) == r
  {
  }

  function Zeros(n: nat): (z: seq<byte>)
    ensures |z| == n
    ensures forall i :: 0 <= i < n ==> z[i] == 0
  {
    seq(n, i => 0)
  }

  // ----- Little-endian naturals -----

  function Pow256(k: nat): (p: nat)
    ensures p > 0
  {
    if k == 0 then 1 else 256 * Pow256(k - 1)
  }

  lemma Pow256Values()
    ensures Pow256(2) == 0x1_0000
    ensures Pow256(4) == 0x1_0000_0000
    ensures Pow256(8) == 0x1_0000_0000_0000_0000
  {
    assert Pow256(1) == 256;
    assert Pow256(3) == 0x100_0000;
    assert Pow256(5) == 0x100_0000_0000;
    assert Pow256(6) == 0x1_0000_0000_0000;
    assert Pow256(7) == 0x100_0000_0000_0000;
  }

  function ToByte(n: int): (b: byte)
    requires 0 <= n < 256
  {
    n as byte
  }

  function Val(b: byte): (n: int)
    ensures 0 <= n < 256
  {
    b as int
  }

  lemma ToByteOfVal(b: byte)
    ensures ToByte(Val(b)) == b
  {
  }

  lemma ValOfSucc(b: byte)
    requires b != 255
    ensures Val(b + 1) == Val(b) + 1
  {
  }

  lemma {:induction false} ValGrows(a: byte, b: byte)
    requires a < b
    ensures Val(a) < Val(b)
    decreases Val(b)
  {
    hide Val;
    ValOfSucc(b - 1);
    assert b - 1 + 1 == b;
    if a < b - 1 { ValGrows(a, b - 1); }
  }

  /** Bytes are ordered as their values are. */
  lemma ValOrder(a: byte, b: byte)
    ensures a <= b <==> Val(a) <= Val(b)
    ensures a == b <==> Val(a) == Val(b)
  {
    hide Val;
    if a < b { ValGrows(a, b); }
    if b < a { ValGrows(b, a); }
  }

  /** Every number below 256 is the value of some byte. */
  lemma {:induction false} ByteFor(n: nat) returns (b: byte)
    requires n < 256
    ensures Val(b) == n
  {
    if n == 0 {
      b := 0;
    } else {
      b := ByteFor(n - 1);
      assert Val(255) == 255;
      ValOfSucc(b);
      b := b + 1;
    }
  }

  lemma ValOfToByte(n: int)
    requires 0 <= n < 256
    ensures Val(ToByte(n)) == n
  {
    hide Val, ToByte;
    var b := ByteFor(n);
    ToByteOfVal(b);
  }

  /** The `k` low-order bytes of `n`, least significant first. */
  function Le(n: nat, k: nat): (b: seq<byte>)
    ensures |b| == k
    decreases k
  {
    if k == 0 then [] else [ToByte(n % 256)] + Le(n / 256, k - 1)
  }

  /** Byte `i` is digit `i` to the base 256. */
  lemma {:induction false} LeDigits(n: nat, k: nat, i: nat)
    requires i < k
    ensures Val(Le(n, k)[i]) == n / Pow256(i) % 256
    decreases i
  {
    if i == 0 {
      ValOfToByte(n % 256);
    } else {
      LeDigits(n / 256, k - 1, i - 1);
      DivDiv(n, Pow256(i - 1));
    }
  }

  lemma DivDiv(n: nat, p: nat)
    requires p > 0
    ensures n / 256 / p == n / (256 * p)
  {
    var q := n / 256;
    var x, y, r := Quot(q, p), Rem(q, p), n % 256;
    QuotRem(q, p);
    Assoc(256, p, x);
    Distrib(256, Times(p, x), y);
    UniqueQuotient(n, 256 * p, x, 256 * y + r);
  }

  function FromLe(b: seq<byte>): (n: nat)
    ensures n < Pow256(|b|)
  {
    if b == [] then 0 else Val(b[0]) + 256 * FromLe(b[1..])
  }

  lemma FromLeCons(x: byte, b: seq<byte>)
    ensures FromLe([x] + b) == Val(x) + 256 * FromLe(b)
  {
    assert ([x] + b)[1..] == b;
  }

  lemma PowUnfold(n: nat, k: nat)
    requires k > 0 && n < Pow256(k)
    ensures n / 256 < Pow256(k - 1)
  {
  }

  lemma DivMod(low: nat, high: nat, n: nat)
    requires n == low + 256 * high && low < 256
    ensures n % 256 == low && n / 256 == high
  {
  }

  lemma {:induction false} FromLeOfLe(n: nat, k: nat)
    requires n < Pow256(k)
    ensures FromLe(Le(n, k)) == n
    decreases k
  {
    if k > 0 {
      PowUnfold(n, k);
      FromLeOfLe(n / 256, k - 1);
      FromLeCons(ToByte(n % 256), Le(n / 256, k - 1));
      ValOfToByte(n % 256);
    }
  }

  lemma {:induction false} LeOfFromLe(b: seq<byte>)
    ensures Le(FromLe(b), |b|) == b
  {
    if b != [] {
      LeOfFromLe(b[1..]);
      DivMod(Val(b[0]), FromLe(b[1..]), FromLe(b));
      ToByteOfVal(b[0]);
    }
  }

  // ----- Fixed-width fields. Each writer is inverted by the reader below it, and conversely. -----

  function Le16(n: u16): (b: seq<byte>)
    ensures |b| == 2 && FromLe(b) == n
  {
    Pow256Values(); FromLeOfLe(n, 2);
    Le(n, 2)
  }

  function Le32(n: u32): (b: seq<byte>)
    ensures |b| == 4 && FromLe(b) == n
  {
    Pow256Values(); FromLeOfLe(n, 4);
    Le(n, 4)
  }

  function Le64(n: u64): (b: seq<byte>)
    ensures |b| == 8 && FromLe(b) == n
  {
    Pow256Values(); FromLeOfLe(n, 8);
    Le(n, 8)
  }

  function U16At(b: seq<byte>, i: nat): (n: u16)
    requires i + 2 <= |b|
    ensures Le16(n) == b[i..i + 2]
  {
    Pow256Values(); LeOfFromLe(b[i..i + 2]);
    FromLe(b[i..i + 2])
  }

  function U32At(b: seq<byte>, i: nat): (n: u32)
    requires i + 4 <= |b|
    ensures Le32(n) == b[i..i + 4]
  {
    Pow256Values(); LeOfFromLe(b[i..i + 4]);
    FromLe(b[i..i + 4])
  }

  function U64At(b: seq<byte>, i: nat): (n: u64)
    requires i + 8 <= |b|
    ensures Le64(n) == b[i..i + 8]
  {
    Pow256Values(); LeOfFromLe(b[i..i + 8]);
    FromLe(b[i..i + 8])
  }

  /** Two's complement. */
  function LeI64(n: i64): (b: seq<byte>)
    ensures |b| == 8
  {
    Le64(if n < 0 then n + U64_LIMIT else n)
  }

  function I64At(b: seq<byte>, i: nat): (n: i64)
    requires i + 8 <= |b|
    ensures LeI64(n) == b[i..i + 8]
  {
    var u := U64At(b, i);
    if u < 0x8000_0000_0000_0000 then u else u - U64_LIMIT
  }

  /** Read as an unsigned number, the bytes differ from `n` by a multiple of 2^64. */
  lemma LeI64Meaning(n: i64)
    ensures FromLe(LeI64(n)) == if n < 0 then n + 0x1_0000_0000_0000_0000 else n
  {
  }

  lemma LeI64Injective(m: i64, n: i64)
    requires LeI64(m) == LeI64(n)
    ensures m == n
  {
    assert FromLe(LeI64(m)) == FromLe(LeI64(n));
  }

  lemma I64AtOfLe(b: seq<byte>, i: nat, n: i64)
    requires i + 8 <= |b| && b[i..i + 8] == LeI64(n)
    ensures I64At(b, i) == n
  {
    LeI64Injective(I64At(b, i), n);
  }

  // ----- 32-bit words -----

  function LeWord(w: word): (b: seq<byte>)
    ensures |b| == 4
  {
    [(w & 0xFF) as byte, ((w >> 8) & 0xFF) as byte, ((w >> 16) & 0xFF) as byte, (w >> 24) as byte]
  }

  function Pack(b0: byte, b1: byte, b2: byte, b3: byte): word {
    (b0 as word) | (b1 as word << 8) | (b2 as word << 16) | (b3 as word << 24)
  }

  function WordOf(b: seq<byte>): (w: word)
    requires |b| == 4
  {
    Pack(b[0], b[1], b[2], b[3])
  }

  lemma WordOfLeWord(w: word)
    ensures WordOf(LeWord(w)) == w
  {
  }

  lemma LeWordOfWord(b: seq<byte>)
    requires |b| == 4
    ensures LeWord(WordOf(b)) == b
  {
  }

  function WordAt(b: seq<byte>, i: nat): (w: word)
    requires i + 4 <= |b|
    ensures LeWord(w) == b[i..i + 4]
  {
    LeWordOfWord(b[i..i + 4]);
    WordOf(b[i..i + 4])
  }

  lemma SubSlice(b: seq<byte>, lo: nat, hi: nat, i: nat, j: nat)
    requires lo <= hi <= |b| && i <= j <= hi - lo
    ensures b[lo..hi][i..j] == b[lo + i..lo + j]
  {
    var x, y := b[lo..hi][i..j], b[lo + i..lo + j];
    assert |x| == |y|;
    forall k | 0 <= k < |x|
      ensures x[k] == y[k]
    {
      assert x[k] == b[lo..hi][i + k] == b[lo + (i + k)];
    }
  }

  // ----- In-place filling of a byte array -----

  /** `buf[at..at + src.len()].copy_from_slice(src)`. */
  method CopyFromSlice(buf: array<byte>, at: nat, src: seq<byte>)
    requires at + |src| <= buf.Length
    modifies buf
    ensures buf[..at + |src|] == old(buf[..at]) + src
    ensures forall i :: at + |src| <= i < buf.Length ==> buf[i] == old(buf[i])
  {
    forall i | 0 <= i < |src| {
      buf[at + i] := src[i];
    }
  }
}
