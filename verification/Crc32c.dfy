/**
  CRC32C (Castagnoli), bit by bit, as section 12.1 of RFC 3720 defines it: the reflected
  polynomial 0x82F63B78, initial value and final xor 0xFFFFFFFF.
 */
module Crc32c {
  import opened Bytes

  const POLY: word := 0x82F63B78
  const ONES: word := 0xFFFF_FFFF

  // ----- The register -----

  /** Shift one bit out of the register. */
  function Step(s: word): word {
    if s & 1 == 1 then (s >> 1) ^ 0x82F63B78 else s >> 1
  }

  function Steps(s: word, n: nat): word
    decreases n
  {
    if n == 0 then s else Steps(Step(s), n - 1)
  }

  const BYTE_BITS: nat := 8

  function Wide(b: byte): word {
    b as word
  }

  function Xor(a: word, b: word): word {
    a ^ b
  }

  /** Feed one byte: xor it into the low end, then shift eight bits out. */
  function Feed(s: word, b: byte): word {
    Steps(Xor(s, Wide(b)), BYTE_BITS)
  }

  function Run(s: word, buf: seq<byte>): word
    decreases |buf|
  {
    if buf == [] then s else Run(Feed(s, buf[0]), buf[1..])
  }

  /** `crc32c::crc32c_append(crc, buf)`: continue a finished checksum over more bytes. */
  function Append(crc: word, buf: seq<byte>): word {
    Xor(Run(Xor(crc, ONES), buf), ONES)
  }

  /** `crc32c(buf)`. */
  function Checksum(buf: seq<byte>): word {
    Append(0, buf)
  }

  // ----- Exclusive or -----

  lemma XorInverse(a: word, b: word)
    ensures Xor(Xor(a, b), b) == a
  {
  }

  lemma XorCancels(s: word, a: word, b: word)
    requires Xor(s, a) == Xor(s, b)
    ensures a == b
  {
  }

  // ----- Streaming -----

  lemma {:induction false} RunConcat(s: word, a: seq<byte>, b: seq<byte>)
    ensures Run(s, a + b) == Run(Run(s, a), b)
    decreases |a|
  {
    hide Feed;
    if a == [] {
      assert a + b == b;
    } else {
      assert (a + b)[1..] == a[1..] + b;
      RunConcat(Feed(s, a[0]), a[1..], b);
    }
  }

  /** The append law that the builder, and through it the scrubber, depend on. */
  lemma AppendConcat(crc: word, a: seq<byte>, b: seq<byte>)
    ensures Append(crc, a + b) == Append(Append(crc, a), b)
  {
    hide Xor, Run;
    RunConcat(Xor(crc, ONES), a, b);
    XorInverse(Run(Xor(crc, ONES), a), ONES);
  }

  lemma AppendNothing(crc: word)
    ensures Append(crc, []) == crc
  {
    hide Xor;
    XorInverse(crc, ONES);
  }

  lemma EmptyIsZero()
    ensures Checksum([]) == 0
  {
  }

  /** Streaming builder: a fresh one starts at zero, and each update continues the checksum. */
  class Crc32cBuilder {
    var state: word
    ghost var fed: seq<byte>  // everything update has been given

    ghost predicate Valid()
      reads this
    {
      state == Checksum(fed)
    }

    constructor ()
      ensures Valid() && fed == []
    {
      state := 0;
      fed := [];
      new;
      EmptyIsZero();
    }

    method Update(buf: seq<byte>)
      requires Valid()
      modifies this
      ensures Valid() && fed == old(fed) + buf
    {
      hide Append;
      AppendConcat(0, fed, buf);
      state := Append(state, buf);
      fed := fed + buf;
    }

    method Finalize() returns (crc: word)
      requires Valid()
      ensures crc == Checksum(fed)
    {
      crc := state;
    }
  }

  // ----- Linearity and injectivity of the bit step -----

  lemma ShiftOfXor(a: word, b: word)
    ensures (a ^ b) >> 1 == (a >> 1) ^ (b >> 1)
  {
  }

  lemma LowBitOfXor(a: word, b: word)
    ensures Xor(a, b) & 1 == Xor(a & 1, b & 1)
    ensures a & 1 == 0 || a & 1 == 1
  {
  }

  lemma XorMoves(a: word, b: word, p: word)
    ensures Xor(Xor(a, p), b) == Xor(Xor(a, b), p)
    ensures Xor(a, Xor(b, p)) == Xor(Xor(a, b), p)
    ensures Xor(Xor(a, p), Xor(b, p)) == Xor(a, b)
  {
  }

  lemma StepIsLinear(a: word, b: word)
    ensures Step(Xor(a, b)) == Xor(Step(a), Step(b))
  {
    ShiftOfXor(a, b);
    LowBitOfXor(a, b);
    LowBitOfXor(b, a);
    XorMoves(a >> 1, b >> 1, POLY);
  }

  lemma StepIsInjective(a: word, b: word)
    requires Step(a) == Step(b)
    ensures a == b
  {
  }

  lemma {:induction false} StepsIsLinear(a: word, b: word, n: nat)
    ensures Steps(Xor(a, b), n) == Xor(Steps(a, n), Steps(b, n))
    decreases n
  {
    hide Step, Xor;
    if n > 0 {
      StepIsLinear(a, b);
      StepsIsLinear(Step(a), Step(b), n - 1);
    }
  }

  lemma {:induction false} StepsIsInjective(a: word, b: word, n: nat)
    requires Steps(a, n) == Steps(b, n)
    ensures a == b
    decreases n
  {
    hide Step;
    if n > 0 {
      StepsIsInjective(Step(a), Step(b), n - 1);
      StepIsInjective(a, b);
    }
  }

  lemma {:induction false} RunIsInjective(s: word, t: word, buf: seq<byte>)
    requires Run(s, buf) == Run(t, buf)
    ensures s == t
    decreases |buf|
  {
    hide Steps, Xor, Wide;
    if buf != [] {
      RunIsInjective(Feed(s, buf[0]), Feed(t, buf[0]), buf[1..]);
      StepsIsInjective(Xor(s, Wide(buf[0])), Xor(t, Wide(buf[0])), BYTE_BITS);
      XorInverse(s, Wide(buf[0]));
      XorInverse(t, Wide(buf[0]));
    }
  }

  // ----- Bursts of up to 32 bits -----

  /** The low `n` bits are clear. */
  ghost predicate LowClear(v: word, n: nat)
    decreases n
  {
    n == 0 || (v & 1 == 0 && LowClear(v >> 1, n - 1))
  }

  ghost function ShiftDown(v: word, n: nat): word
    decreases n
  {
    if n == 0 then v else ShiftDown(v >> 1, n - 1)
  }

  /** Clear bits shift out without touching the polynomial. */
  lemma {:induction false} StepsOfClear(v: word, n: nat)
    requires LowClear(v, n)
    ensures Steps(v, n) == ShiftDown(v, n)
    decreases n
  {
    if n > 0 {
      StepsOfClear(v >> 1, n - 1);
    }
  }

  function Up(w: word): word { w << 8 }

  function Down(w: word): word { w >> 8 }

  lemma ByteOfClearBits(w: word)
    ensures LowClear(Up(w), BYTE_BITS)
    ensures ShiftDown(Up(w), BYTE_BITS) == Down(Up(w))
  {
    assert BYTE_BITS == 8;
  }

  /** Bytes still to come may be xored in early, one byte higher up. */
  lemma FeedEarly(s: word, b: word, later: word)
    requires Down(Up(later)) == later
    ensures Steps(Xor(s, Xor(b, Up(later))), BYTE_BITS) == Xor(Steps(Xor(s, b), BYTE_BITS), later)
  {
    hide Xor, Steps, Up, Down;
    XorMoves(s, b, Up(later));
    StepsIsLinear(Xor(s, b), Up(later), BYTE_BITS);
    ByteOfClearBits(later);
    StepsOfClear(Up(later), BYTE_BITS);
  }

  lemma FourEarly(s: word, b0: word, b1: word, b2: word, b3: word)
    requires var t2 := Xor(b2, Up(b3));
             var t1 := Xor(b1, Up(t2));
             Down(Up(b3)) == b3 && Down(Up(t2)) == t2 && Down(Up(t1)) == t1
    ensures Step32(Xor(s, Xor(b0, Up(Xor(b1, Up(Xor(b2, Up(b3))))))))
            == Steps(Xor(Steps(Xor(Steps(Xor(Steps(Xor(s, b0), BYTE_BITS), b1), BYTE_BITS), b2), BYTE_BITS), b3), BYTE_BITS)
  {
    hide Xor, Steps, Up, Down;
    var t2 := Xor(b2, Up(b3));
    var s1 := Steps(Xor(s, b0), BYTE_BITS);
    var s2 := Steps(Xor(s1, b1), BYTE_BITS);
    FeedEarly(s, b0, Xor(b1, Up(t2)));
    FeedEarly(s1, b1, t2);
    FeedEarly(s2, b2, b3);
  }

  function Step32(s: word): word {
    Steps(Steps(Steps(Steps(s, BYTE_BITS), BYTE_BITS), BYTE_BITS), BYTE_BITS)
  }

  /** Feeding four bytes is xoring in their little-endian word and shifting 32 bits out. */
  lemma RunFour(s: word, buf: seq<byte>)
    requires |buf| == 4
    ensures Run(s, buf) == Step32(Xor(s, WordOf(buf)))
  {
    hide Xor, Steps, Up, Down, Run, Pack, Step32, Wide;
    RunUnfoldFour(s, buf);
    Packing(buf[0], buf[1], buf[2], buf[3]);
    UpDownOne(buf[3]);
    UpDownTwo(buf[2], buf[3]);
    UpDownThree(buf[1], buf[2], buf[3]);
    FourEarly(s, Wide(buf[0]), Wide(buf[1]), Wide(buf[2]), Wide(buf[3]));
  }

  lemma RunUnfoldFour(s: word, buf: seq<byte>)
    requires |buf| == 4
    ensures Run(s, buf) == Feed(Feed(Feed(Feed(s, buf[0]), buf[1]), buf[2]), buf[3])
  {
    hide Feed;
    RunOne(s, buf);
    RunOne(Feed(s, buf[0]), buf[1..]);
    RunOne(Feed(Feed(s, buf[0]), buf[1]), buf[2..]);
    RunOne(Feed(Feed(Feed(s, buf[0]), buf[1]), buf[2]), buf[3..]);
  }

  lemma RunOne(s: word, buf: seq<byte>)
    requires 0 < |buf| <= 4
    ensures Run(s, buf) == Run(Feed(s, buf[0]), buf[1..])
    ensures |buf| == 4 ==> buf[1..][0] == buf[1] && buf[1..][1..] == buf[2..]
    ensures |buf| == 1 ==> Run(s, buf) == Feed(s, buf[0])
  {
    hide Feed;
  }

  /** The bytes of a word, least significant first, each above the one before it. */
  lemma Packing(b0: byte, b1: byte, b2: byte, b3: byte)
    ensures Xor(Wide(b0), Up(Xor(Wide(b1), Up(Xor(Wide(b2), Up(Wide(b3))))))) == Pack(b0, b1, b2, b3)
  {
    PackingBits(b0, b1, b2, b3);
  }

  lemma PackingBits(b0: byte, b1: byte, b2: byte, b3: byte)
    ensures (b0 as word) ^ (((b1 as word) ^ (((b2 as word) ^ ((b3 as word) << 8)) << 8)) << 8)
            == (b0 as word) | (b1 as word << 8) | (b2 as word << 16) | (b3 as word << 24)
  {
  }

  lemma UpDownOne(b3: byte)
    ensures Down(Up(Wide(b3))) == Wide(b3)
  {
  }

  lemma UpDownTwo(b2: byte, b3: byte)
    ensures Down(Up(Xor(Wide(b2), Up(Wide(b3))))) == Xor(Wide(b2), Up(Wide(b3)))
  {
  }

  lemma UpDownThree(b1: byte, b2: byte, b3: byte)
    ensures Down(Up(Xor(Wide(b1), Up(Xor(Wide(b2), Up(Wide(b3)))))))
            == Xor(Wide(b1), Up(Xor(Wide(b2), Up(Wide(b3)))))
  {
  }

  /** Two different four-byte windows in the same surroundings never meet in the same register. */
  lemma FourByteBurst(s: word, w: seq<byte>, x: seq<byte>, rest: seq<byte>)
    requires |w| == |x| == 4
    requires Run(s, w + rest) == Run(s, x + rest)
    ensures w == x
  {
    hide Xor, Steps, Run, WordOf;
    RunConcat(s, w, rest);
    RunConcat(s, x, rest);
    RunIsInjective(Run(s, w), Run(s, x), rest);
    RunFour(s, w);
    RunFour(s, x);
    Step32IsInjective(Xor(s, WordOf(w)), Xor(s, WordOf(x)));
    XorCancels(s, WordOf(w), WordOf(x));
    LeWordOfWord(w);
    LeWordOfWord(x);
  }

  lemma Step32IsInjective(a: word, b: word)
    requires Step32(a) == Step32(b)
    ensures a == b
  {
    hide Steps;
    var a1, b1 := Steps(a, BYTE_BITS), Steps(b, BYTE_BITS);
    var a2, b2 := Steps(a1, BYTE_BITS), Steps(b1, BYTE_BITS);
    var a3, b3 := Steps(a2, BYTE_BITS), Steps(b2, BYTE_BITS);
    StepsIsInjective(a3, b3, BYTE_BITS);
    StepsIsInjective(a2, b2, BYTE_BITS);
    StepsIsInjective(a1, b1, BYTE_BITS);
    StepsIsInjective(a, b, BYTE_BITS);
  }

  /** What differs is confined to four consecutive positions starting at `k`. */
  ghost predicate DifferWithin4(f: seq<byte>, g: seq<byte>, k: nat) {
    && |f| == |g|
    && forall i :: 0 <= i < |f| && !(k <= i < k + 4) ==> f[i] == g[i]
  }

  /** No change confined to four consecutive bytes goes unnoticed. */
  lemma BurstChangesRun(s: word, f: seq<byte>, g: seq<byte>, k: nat)
    requires DifferWithin4(f, g, k) && f != g
    ensures Run(s, f) != Run(s, g)
  {
    hide Run;
    if Run(s, f) == Run(s, g) {
      SameRunSameBytes(s, f, g, k);
    }
  }

  lemma SameRunSameBytes(s: word, f: seq<byte>, g: seq<byte>, k: nat)
    requires DifferWithin4(f, g, k)
    requires Run(s, f) == Run(s, g)
    ensures f == g
  {
    hide Run;
    if 4 <= |f| {
      var j := if k + 4 <= |f| then k else |f| - 4;
      var p, q := f[..j], f[j + 4..];
      SplitAround(f, g, j);
      RunConcat(s, p, f[j..j + 4] + q);
      RunConcat(s, p, g[j..j + 4] + q);
      FourByteBurst(Run(s, p), f[j..j + 4], g[j..j + 4], q);
    } else {
      var pad := Zeros(4 - |f|);
      RunConcat(s, f, pad);
      RunConcat(s, g, pad);
      assert (f + pad) + [] == f + pad && (g + pad) + [] == g + pad;
      FourByteBurst(s, f + pad, g + pad, []);
      assert f == (f + pad)[..|f|] && (g + pad)[..|g|] == g;
    }
  }

  lemma SplitAround(f: seq<byte>, g: seq<byte>, j: nat)
    requires j + 4 <= |f| && DifferWithin4(f, g, j)
    ensures f == f[..j] + (f[j..j + 4] + f[j + 4..])
    ensures g == f[..j] + (g[j..j + 4] + f[j + 4..])
  {
  }

  lemma BurstChangesChecksum(f: seq<byte>, g: seq<byte>, k: nat)
    requires DifferWithin4(f, g, k) && f != g
    ensures Checksum(f) != Checksum(g)
  {
    hide Run, Xor;
    BurstChangesRun(Xor(0, ONES), f, g, k);
    XorInverse(Run(Xor(0, ONES), f), ONES);
    XorInverse(Run(Xor(0, ONES), g), ONES);
  }

  // ----- A trailing checksum -----

  /** The register after any bytes followed by their own little-endian checksum. */
  const RESIDUE: word := Step32(ONES)

  /** Four bytes are the checksum of what precedes them exactly when the register ends in the residue. */
  lemma TrailerResidue(body: seq<byte>, trailer: seq<byte>)
    requires |trailer| == 4
    ensures WordOf(trailer) == Checksum(body) <==> Run(ONES, body + trailer) == RESIDUE
  {
    hide Run, Xor, Steps, WordOf;
    ZeroXorOnes();
    var r, t := Run(ONES, body), WordOf(trailer);
    RunConcat(ONES, body, trailer);
    RunFour(r, trailer);
    if t == Checksum(body) {
      XorOwnComplement(r);
    }
    if Run(ONES, body + trailer) == RESIDUE {
      Step32IsInjective(Xor(r, t), ONES);
      ComplementOf(r, t);
    }
  }

  lemma ZeroXorOnes()
    ensures Xor(0, ONES) == ONES
  {
  }

  lemma XorOwnComplement(r: word)
    ensures Xor(r, Xor(r, ONES)) == ONES
  {
  }

  lemma ComplementOf(r: word, t: word)
    requires Xor(r, t) == ONES
    ensures t == Xor(r, ONES)
  {
  }

  // ----- A published answer: the first example in appendix B.4 of RFC 3720 -----

  function Step8(s: word): word {
    Step(Step(Step(Step(Step(Step(Step(Step(s))))))))
  }

  lemma Step8IsSteps(s: word)
    ensures Steps(s, BYTE_BITS) == Step8(s)
  {
    hide Step;
  }

  lemma FeedZero(s: word, t: word, n: nat)
    requires n > 0 && Step8(s) == t
    ensures Run(s, Zeros(n)) == Run(t, Zeros(n - 1))
  {
    hide Steps, Step;
    Step8IsSteps(s);
    assert Zeros(n)[1..] == Zeros(n - 1);
    assert Wide(0) == 0 && Xor(s, 0) == s;
  }

  lemma EightZeros1()
    ensures Run(0xFFFFFFFF, Zeros(32)) == Run(0x73D74D75, Zeros(24))
  {
    hide Run, Zeros;
    FeedZero(0xFFFFFFFF, 0xAD82ACAE, 32);
    FeedZero(0xAD82ACAE, 0x0E9E882D, 31);
    FeedZero(0x0E9E882D, 0x9F9B5C85, 30);
    FeedZero(0x9F9B5C85, 0xB798B438, 29);
    FeedZero(0xB798B438, 0xBA8D89CA, 28);
    FeedZero(0xBA8D89CA, 0xA8D58375, 27);
    FeedZero(0xA8D58375, 0x44C19592, 26);
    FeedZero(0x44C19592, 0x73D74D75, 25);
  }

  lemma EightZeros2()
    ensures Run(0x73D74D75, Zeros(24)) == Run(0xBD8F6515, Zeros(16))
  {
    hide Run, Zeros;
    FeedZero(0x73D74D75, 0x441A975C, 24);
    FeedZero(0x441A975C, 0x1C220F94, 23);
    FeedZero(0x1C220F94, 0x552E4907, 22);
    FeedZero(0x552E4907, 0xD49F4AA2, 21);
    FeedZero(0xD49F4AA2, 0x43A45A1B, 20);
    FeedZero(0x43A45A1B, 0x8994C80E, 19);
    FeedZero(0x8994C80E, 0xACF12BEF, 18);
    FeedZero(0xACF12BEF, 0xBD8F6515, 17);
  }

  lemma EightZeros3()
    ensures Run(0xBD8F6515, Zeros(16)) == Run(0x7B041311, Zeros(8))
  {
    hide Run, Zeros;
    FeedZero(0xBD8F6515, 0x25125C16, 16);
    FeedZero(0x25125C16, 0x36DA32DB, 15);
    FeedZero(0x36DA32DB, 0x4A6C90A2, 14);
    FeedZero(0x4A6C90A2, 0x433AA9C1, 13);
    FeedZero(0x433AA9C1, 0x31A59F6E, 12);
    FeedZero(0x31A59F6E, 0xCD8F89DA, 11);
    FeedZero(0xCD8F89DA, 0xB8FC461A, 10);
    FeedZero(0xB8FC461A, 0x7B041311, 9);
  }

  lemma EightZeros4()
    ensures Run(0x7B041311, Zeros(8)) == Run(0x756EC955, Zeros(0))
  {
    hide Run, Zeros;
    FeedZero(0x7B041311, 0xE24E407F, 8);
    FeedZero(0xE24E407F, 0x2F692669, 7);
    FeedZero(0x2F692669, 0x195B2188, 6);
    FeedZero(0x195B2188, 0x08363896, 5);
    FeedZero(0x08363896, 0xB4012DC7, 4);
    FeedZero(0xB4012DC7, 0x17F34302, 3);
    FeedZero(0x17F34302, 0xE12C83B4, 2);
    FeedZero(0xE12C83B4, 0x756EC955, 1);
  }

  lemma ThirtyTwoZeros()
    ensures Checksum(Zeros(32)) == 0x8A9136AA
  {
    hide Run, Zeros;
    ZeroXorOnes();
    EightZeros1();
    EightZeros2();
    EightZeros3();
    EightZeros4();
    assert Run(0x756EC955, Zeros(0)) == 0x756EC955 by { RunNothing(0x756EC955); }
  }

  lemma RunNothing(s: word)
    ensures Run(s, Zeros(0)) == s
  {
  }
}
