/** UTF-8 byte strings, by the grammar in section 4 of RFC 3629. */
module Utf8 {
  import opened Bytes

  /** UTF8-tail. */
  predicate Tail(b: byte) {
    0x80 <= b <= 0xBF
  }

  /** The length of the well-formed sequence that starts `s`, or 0 when there is none. */
  function FirstLen(s: seq<byte>): (n: nat)
    ensures n <= |s| && n <= 4
  {
    if |s| >= 1 && s[0] <= 0x7F then 1
    else if |s| >= 2 && 0xC2 <= s[0] <= 0xDF && Tail(s[1]) then 2
    else if |s| >= 3 && s[0] == 0xE0 && 0xA0 <= s[1] <= 0xBF && Tail(s[2]) then 3
    else if |s| >= 3 && 0xE1 <= s[0] <= 0xEC && Tail(s[1]) && Tail(s[2]) then 3
    else if |s| >= 3 && s[0] == 0xED && 0x80 <= s[1] <= 0x9F && Tail(s[2]) then 3
    else if |s| >= 3 && 0xEE <= s[0] <= 0xEF && Tail(s[1]) && Tail(s[2]) then 3
    else if |s| >= 4 && s[0] == 0xF0 && 0x90 <= s[1] <= 0xBF && Tail(s[2]) && Tail(s[3]) then 4
    else if |s| >= 4 && 0xF1 <= s[0] <= 0xF3 && Tail(s[1]) && Tail(s[2]) && Tail(s[3]) then 4
    else if |s| >= 4 && s[0] == 0xF4 && 0x80 <= s[1] <= 0x8F && Tail(s[2]) && Tail(s[3]) then 4
    else 0
  }

  predicate IsUtf8(s: seq<byte>)
    decreases |s|
  {
    s == [] || (FirstLen(s) > 0 && IsUtf8(s[FirstLen(s)..]))
  }

  /** A Rust `String`. */
  type utf8 = s: seq<byte> | IsUtf8(s) witness []

  // ----- What the grammar accepts: the encodings of sequences of scalar values -----

  /** A code point that is not a surrogate. */
  type scalar = n: int | 0 <= n < 0xD800 || 0xE000 <= n < 0x11_0000

  /** A scalar value as one to four octets, as section 3 of RFC 3629 lays out its bits. */
  function EncodeScalar(n: scalar): (b: seq<byte>)
    ensures 1 <= |b| <= 4
  {
    if n < 0x80 then [ToByte(n)]
    else if n < 0x800 then [ToByte(0xC0 + n / 0x40), Cont(n)]
    else if n < 0x1_0000 then [ToByte(0xE0 + n / 0x1000), Cont(n / 0x40), Cont(n)]
    else [ToByte(0xF0 + n / 0x4_0000), Cont(n / 0x1000), Cont(n / 0x40), Cont(n)]
  }

  /** The low six bits, in a continuation octet. */
  function Cont(n: nat): byte {
    ToByte(0x80 + n % 0x40)
  }

  function EncodeScalars(cs: seq<scalar>): seq<byte> {
    if cs == [] then [] else EncodeScalar(cs[0]) + EncodeScalars(cs[1..])
  }

  // ----- The grammar in terms of octet values -----

  function LenByValues(v: seq<int>): nat {
    if |v| >= 1 && v[0] <= 0x7F then 1
    else if |v| >= 2 && 0xC2 <= v[0] <= 0xDF && 0x80 <= v[1] <= 0xBF then 2
    else if |v| >= 3 && 0xE0 <= v[0] <= 0xEF && 0x80 <= v[1] <= 0xBF && 0x80 <= v[2] <= 0xBF
         && (v[0] == 0xE0 ==> v[1] >= 0xA0) && (v[0] == 0xED ==> v[1] <= 0x9F) then 3
    else if |v| >= 4 && 0xF0 <= v[0] <= 0xF4 && 0x80 <= v[1] <= 0xBF && 0x80 <= v[2] <= 0xBF && 0x80 <= v[3] <= 0xBF
         && (v[0] == 0xF0 ==> v[1] >= 0x90) && (v[0] == 0xF4 ==> v[1] <= 0x8F) then 4
    else 0
  }

  function Values(s: seq<byte>): (v: seq<int>)
    ensures |v| == |s| && forall i :: 0 <= i < |s| ==> v[i] == Val(s[i])
  {
    seq(|s|, i requires 0 <= i < |s| => Val(s[i]))
  }

  lemma LeadOrder(b: byte)
    ensures b <= 0x7F <==> Val(b) <= 0x7F
    ensures 0xC2 <= b <= 0xDF <==> 0xC2 <= Val(b) <= 0xDF
    ensures b == 0xE0 <==> Val(b) == 0xE0
    ensures 0xE1 <= b <= 0xEC <==> 0xE1 <= Val(b) <= 0xEC
    ensures b == 0xED <==> Val(b) == 0xED
    ensures 0xEE <= b <= 0xEF <==> 0xEE <= Val(b) <= 0xEF
    ensures b == 0xF0 <==> Val(b) == 0xF0
    ensures 0xF1 <= b <= 0xF3 <==> 0xF1 <= Val(b) <= 0xF3
    ensures b == 0xF4 <==> Val(b) == 0xF4
  {
    Literals();
    hide Val;
    ValOrder(b, 0x7F);
    ValOrder(0xC2, b); ValOrder(b, 0xDF);
    ValOrder(b, 0xE0);
    ValOrder(0xE1, b); ValOrder(b, 0xEC);
    ValOrder(b, 0xED);
    ValOrder(0xEE, b); ValOrder(b, 0xEF);
    ValOrder(b, 0xF0);
    ValOrder(0xF1, b); ValOrder(b, 0xF3);
    ValOrder(b, 0xF4);
  }

  lemma TailOrder(b: byte)
    ensures 0x80 <= b <= 0xBF <==> 0x80 <= Val(b) <= 0xBF
    ensures 0xA0 <= b <==> 0xA0 <= Val(b)
    ensures b <= 0x9F <==> Val(b) <= 0x9F
    ensures 0x90 <= b <==> 0x90 <= Val(b)
    ensures b <= 0x8F <==> Val(b) <= 0x8F
  {
    Literals();
    hide Val;
    ValOrder(0x80, b); ValOrder(b, 0xBF);
    ValOrder(0xA0, b); ValOrder(b, 0x9F);
    ValOrder(0x90, b); ValOrder(b, 0x8F);
  }

  lemma Literals()
    ensures Val(0x7F) == 0x7F && Val(0xC2) == 0xC2 && Val(0xDF) == 0xDF && Val(0xE0) == 0xE0 && Val(0xE1) == 0xE1
    ensures Val(0xEC) == 0xEC && Val(0xED) == 0xED && Val(0xEE) == 0xEE && Val(0xEF) == 0xEF && Val(0xF0) == 0xF0
    ensures Val(0xF1) == 0xF1 && Val(0xF3) == 0xF3 && Val(0xF4) == 0xF4 && Val(0x80) == 0x80 && Val(0xBF) == 0xBF
    ensures Val(0xA0) == 0xA0 && Val(0x9F) == 0x9F && Val(0x90) == 0x90 && Val(0x8F) == 0x8F
  {
  }

  lemma FirstLenByValues(s: seq<byte>)
    ensures FirstLen(s) == LenByValues(Values(s))
  {
    hide Val;
    if |s| >= 1 { LeadOrder(s[0]); }
    if |s| >= 2 { TailOrder(s[1]); }
    if |s| >= 3 { TailOrder(s[2]); }
    if |s| >= 4 { TailOrder(s[3]); }
  }

  // ----- One sequence is one scalar value -----

  /** Six bits at a time: the digits of a number, and the number of the digits. */
  lemma Digits2(n: nat, x: nat, y: nat)
    requires y < 0x40
    ensures n == 0x40 * x + y <==> n / 0x40 == x && n % 0x40 == y
  {
  }

  lemma Digits3(n: nat, x: nat, y: nat, z: nat)
    requires y < 0x40 && z < 0x40
    ensures n == 0x1000 * x + 0x40 * y + z <==> n / 0x1000 == x && n / 0x40 % 0x40 == y && n % 0x40 == z
  {
    Digits2(n, n / 0x40, n % 0x40);
    Digits2(n / 0x40, n / 0x1000, n / 0x40 % 0x40);
  }

  lemma Digits4(n: nat, w: nat, x: nat, y: nat, z: nat)
    requires x < 0x40 && y < 0x40 && z < 0x40
    ensures n == 0x4_0000 * w + 0x1000 * x + 0x40 * y + z
       <==> n / 0x4_0000 == w && n / 0x1000 % 0x40 == x && n / 0x40 % 0x40 == y && n % 0x40 == z
  {
    Digits3(n, n / 0x1000, n / 0x40 % 0x40, n % 0x40);
    Digits2(n / 0x1000, n / 0x4_0000, n / 0x1000 % 0x40);
  }

  lemma EncodedFirst(n: scalar, z: seq<byte>)
    ensures FirstLen(EncodeScalar(n) + z) == |EncodeScalar(n)|
  {
    hide Val, ToByte, FirstLen, LenByValues;
    var b := EncodeScalar(n);
    FirstLenByValues(b + z);
    if n < 0x80 {
      ValOfToByte(n);
      OneLen(Values(b + z));
    } else if n < 0x800 {
      ValOfToByte(0xC0 + n / 0x40);
      ValOfToByte(0x80 + n % 0x40);
      TwoLen(Values(b + z), n);
    } else if n < 0x1_0000 {
      ValOfToByte(0xE0 + n / 0x1000);
      ValOfToByte(0x80 + n / 0x40 % 0x40);
      ValOfToByte(0x80 + n % 0x40);
      ThreeLen(Values(b + z), n);
    } else {
      ValOfToByte(0xF0 + n / 0x4_0000);
      ValOfToByte(0x80 + n / 0x1000 % 0x40);
      ValOfToByte(0x80 + n / 0x40 % 0x40);
      ValOfToByte(0x80 + n % 0x40);
      FourLen(Values(b + z), n);
    }
  }

  lemma OneLen(v: seq<int>)
    requires |v| >= 1 && v[0] < 0x80
    ensures LenByValues(v) == 1
  {
  }

  lemma TwoLen(v: seq<int>, n: scalar)
    requires 0x80 <= n < 0x800
    requires |v| >= 2 && v[0] == 0xC0 + n / 0x40 && v[1] == 0x80 + n % 0x40
    ensures LenByValues(v) == 2
  {
  }

  lemma ThreeLen(v: seq<int>, n: scalar)
    requires 0x800 <= n < 0x1_0000
    requires |v| >= 3 && v[0] == 0xE0 + n / 0x1000 && v[1] == 0x80 + n / 0x40 % 0x40 && v[2] == 0x80 + n % 0x40
    ensures LenByValues(v) == 3
  {
    Digits3(n, n / 0x1000, n / 0x40 % 0x40, n % 0x40);
  }

  lemma FourLen(v: seq<int>, n: scalar)
    requires 0x1_0000 <= n
    requires |v| >= 4 && v[0] == 0xF0 + n / 0x4_0000 && v[1] == 0x80 + n / 0x1000 % 0x40
    requires v[2] == 0x80 + n / 0x40 % 0x40 && v[3] == 0x80 + n % 0x40
    ensures LenByValues(v) == 4
  {
    Digits4(n, n / 0x4_0000, n / 0x1000 % 0x40, n / 0x40 % 0x40, n % 0x40);
  }

  lemma FirstEncoded(s: seq<byte>) returns (n: scalar)
    requires FirstLen(s) > 0
    ensures EncodeScalar(n) == s[..FirstLen(s)]
  {
    hide Val, ToByte, FirstLen, EncodeScalar;
    FirstLenByValues(s);
    var v := Values(s);
    ToByteOfVal(s[0]);
    if FirstLen(s) == 1 {
      n := v[0];
      One(v[0]);
    } else if FirstLen(s) == 2 {
      ToByteOfVal(s[1]);
      n := Two(v[0], v[1]);
    } else if FirstLen(s) == 3 {
      ToByteOfVal(s[1]); ToByteOfVal(s[2]);
      n := Three(v[0], v[1], v[2]);
    } else {
      ToByteOfVal(s[1]); ToByteOfVal(s[2]); ToByteOfVal(s[3]);
      n := Four(v[0], v[1], v[2], v[3]);
    }
  }

  lemma One(a: int)
    requires 0 <= a <= 0x7F
    ensures EncodeScalar(a) == [ToByte(a)]
  {
  }

  lemma Two(a: int, b: int) returns (n: scalar)
    requires 0xC2 <= a <= 0xDF && 0x80 <= b <= 0xBF
    ensures EncodeScalar(n) == [ToByte(a), ToByte(b)]
  {
    hide ToByte;
    n := 0x40 * (a - 0xC0) + (b - 0x80);
    Digits2(n, a - 0xC0, b - 0x80);
  }

  lemma Three(a: int, b: int, c: int) returns (n: scalar)
    requires 0xE0 <= a <= 0xEF && 0x80 <= b <= 0xBF && 0x80 <= c <= 0xBF
    requires (a == 0xE0 ==> b >= 0xA0) && (a == 0xED ==> b <= 0x9F)
    ensures EncodeScalar(n) == [ToByte(a), ToByte(b), ToByte(c)]
  {
    hide ToByte;
    n := 0x1000 * (a - 0xE0) + 0x40 * (b - 0x80) + (c - 0x80);
    Digits3(n, a - 0xE0, b - 0x80, c - 0x80);
  }

  lemma Four(a: int, b: int, c: int, d: int) returns (n: scalar)
    requires 0xF0 <= a <= 0xF4 && 0x80 <= b <= 0xBF && 0x80 <= c <= 0xBF && 0x80 <= d <= 0xBF
    requires (a == 0xF0 ==> b >= 0x90) && (a == 0xF4 ==> b <= 0x8F)
    ensures EncodeScalar(n) == [ToByte(a), ToByte(b), ToByte(c), ToByte(d)]
  {
    hide ToByte;
    n := 0x4_0000 * (a - 0xF0) + 0x1000 * (b - 0x80) + 0x40 * (c - 0x80) + (d - 0x80);
    Digits4(n, a - 0xF0, b - 0x80, c - 0x80, d - 0x80);
  }

  // ----- Whole strings -----

  lemma {:induction false} EncodedIsUtf8(cs: seq<scalar>)
    ensures IsUtf8(EncodeScalars(cs))
  {
    hide FirstLen, EncodeScalar;
    if cs != [] {
      var z := EncodeScalars(cs[1..]);
      EncodedFirst(cs[0], z);
      assert (EncodeScalar(cs[0]) + z)[|EncodeScalar(cs[0])|..] == z;
      EncodedIsUtf8(cs[1..]);
    }
  }

  lemma {:induction false} Utf8IsEncoded(s: seq<byte>) returns (cs: seq<scalar>)
    requires IsUtf8(s)
    ensures EncodeScalars(cs) == s
    decreases |s|
  {
    hide FirstLen, EncodeScalar;
    cs := [];
    if s != [] {
      var n := FirstEncoded(s);
      var rest := Utf8IsEncoded(s[FirstLen(s)..]);
      cs := [n] + rest;
      assert cs[1..] == rest;
    }
  }

  /** A byte string is UTF-8 exactly if it encodes some sequence of scalar values. */
  lemma Utf8IffScalars(s: seq<byte>)
    ensures IsUtf8(s) <==> exists cs: seq<scalar> :: EncodeScalars(cs) == s
  {
    hide IsUtf8, EncodeScalars;
    if IsUtf8(s) {
      var cs := Utf8IsEncoded(s);
    }
    if cs: seq<scalar> :| EncodeScalars(cs) == s {
      EncodedIsUtf8(cs);
    }
  }
}
