/**
 * The hex-string helpers the signing page takes from neon-core's `u` module:
 * `num2hexstring` (fixed-width little-endian), `reverseHex` (byte-pair
 * reversal) and `ab2hexstring` (bytes to lower-case hex). They are defined
 * here by their usual meaning, since their code is not part of this model.
 */
module Hex {
  type byte = b: int | 0 <= b < 256

  predicate IsHexChar(c: char) {
    '0' <= c <= '9' || 'a' <= c <= 'f' || 'A' <= c <= 'F'
  }

  predicate IsLowerHexChar(c: char) {
    '0' <= c <= '9' || 'a' <= c <= 'f'
  }

  /** What neon-core's `ensureHex` accepts: whole bytes of hex digits, either case. */
  predicate IsHexString(s: string) {
    |s| % 2 == 0 && forall i :: 0 <= i < |s| ==> IsHexChar(s[i])
  }

  /** What neon-core produces: whole bytes of lower-case hex digits. */
  predicate IsLowerHex(s: string) {
    |s| % 2 == 0 && forall i :: 0 <= i < |s| ==> IsLowerHexChar(s[i])
  }

  function DigitChar(d: nat): (c: char)
    requires d < 16
    ensures IsLowerHexChar(c) && DigitValue(c) == d
  {
    if d < 10 then ('0' as int + d) as char else ('a' as int + d - 10) as char
  }

  /** Upper-case digit, as percent-encoding writes it. */
  function UpperDigitChar(d: nat): (c: char)
    requires d < 16
    ensures IsHexChar(c) && DigitValue(c) == d
  {
    if d < 10 then ('0' as int + d) as char else ('A' as int + d - 10) as char
  }

  function DigitValue(c: char): (d: nat)
    requires IsHexChar(c)
    ensures d < 16
  {
    if '0' <= c <= '9' then c as int - '0' as int
    else if 'a' <= c <= 'f' then c as int - 'a' as int + 10
    else c as int - 'A' as int + 10
  }

  lemma LowerDigitRoundTrip(c: char)
    requires IsLowerHexChar(c)
    ensures DigitChar(DigitValue(c)) == c
  {
  }

  /** Two lower-case digits, high nibble first. */
  function ByteHex(b: byte): (s: string)
    ensures |s| == 2 && IsLowerHex(s) && PairValue(s) == b
  {
    [DigitChar(b / 16), DigitChar(b % 16)]
  }

  function PairValue(s: string): (b: byte)
    requires |s| == 2 && IsHexChar(s[0]) && IsHexChar(s[1])
  {
    DigitValue(s[0]) * 16 + DigitValue(s[1])
  }

  /** `ab2hexstring`: every byte as two lower-case hex digits, in order. */
  function BytesToHex(bs: seq<byte>): (s: string)
    ensures |s| == 2 * |bs| && IsLowerHex(s)
    ensures forall i :: 0 <= i < |bs| ==> s[2 * i..2 * i + 2] == ByteHex(bs[i])
  {
    if bs == [] then ""
    else
      var rest := BytesToHex(bs[1..]);
      var s := ByteHex(bs[0]) + rest;
      assert forall i :: 1 <= i < |bs| ==> s[2 * i..2 * i + 2] == rest[2 * (i - 1)..2 * (i - 1) + 2];
      s
  }

  /** The inverse reading of a hex string as bytes. */
  function HexToBytes(s: string): (bs: seq<byte>)
    requires IsHexString(s)
    ensures |bs| == |s| / 2
    decreases |s|
  {
    if s == "" then [] else [PairValue(s[..2])] + HexToBytes(s[2..])
  }

  lemma {:induction false} BytesHexRoundTrip(bs: seq<byte>)
    ensures HexToBytes(BytesToHex(bs)) == bs
  {
    if bs != [] {
      var s := BytesToHex(bs);
      assert s[..2] == ByteHex(bs[0]);
      assert s[2..] == BytesToHex(bs[1..]);
      BytesHexRoundTrip(bs[1..]);
    }
  }

  function Pow256(k: nat): (p: nat)
    ensures p >= 1
  {
    if k == 0 then 1 else 256 * Pow256(k - 1)
  }

  /**
   * `num2hexstring(num, size, true)`: `num` over exactly `size` bytes,
   * least significant byte first, each byte as two lower-case digits.
   */
  function Num2HexLE(num: nat, size: nat): (s: string)
    requires num < Pow256(size)
    ensures |s| == 2 * size && IsLowerHex(s)
  {
    if size == 0 then ""
    else ByteHex(num % 256) + Num2HexLE(num / 256, size - 1)
  }

  /** Reads a hex string as a little-endian unsigned number. */
  function LeValue(s: string): (n: nat)
    requires IsHexString(s)
    ensures n < Pow256(|s| / 2)
    decreases |s|
  {
    if s == "" then 0 else PairValue(s[..2]) + 256 * LeValue(s[2..])
  }

  /** Encoding then reading little-endian gives the number back. */
  lemma {:induction false} Num2HexLERoundTrip(num: nat, size: nat)
    requires num < Pow256(size)
    ensures LeValue(Num2HexLE(num, size)) == num
  {
    if size > 0 {
      var s := Num2HexLE(num, size);
      assert s[..2] == ByteHex(num % 256);
      assert s[2..] == Num2HexLE(num / 256, size - 1);
      Num2HexLERoundTrip(num / 256, size - 1);
    }
  }

  /** Two lower-case digits are the encoding of the byte they read as. */
  lemma PairRoundTrip(s: string)
    requires IsLowerHex(s) && |s| == 2
    ensures ByteHex(PairValue(s)) == s
  {
    var b := PairValue(s);
    assert b / 16 == DigitValue(s[0]) && b % 16 == DigitValue(s[1]);
    LowerDigitRoundTrip(s[0]);
    LowerDigitRoundTrip(s[1]);
  }

  lemma LowByte(b: byte, rest: nat)
    ensures (b + 256 * rest) % 256 == b && (b + 256 * rest) / 256 == rest
  {
  }

  /** Every lower-case hex string is the encoding of the number it reads as. */
  lemma {:induction false} LeValueRoundTrip(s: string)
    requires IsLowerHex(s)
    ensures Num2HexLE(LeValue(s), |s| / 2) == s
    decreases |s|
  {
    if s != "" {
      var n := LeValue(s);
      var b := PairValue(s[..2]);
      LowByte(b, LeValue(s[2..]));
      assert n % 256 == b && n / 256 == LeValue(s[2..]);
      LeValueRoundTrip(s[2..]);
      PairRoundTrip(s[..2]);
      assert s == s[..2] + s[2..];
    }
  }

  /** `reverseHex`: the same bytes in the opposite order. */
  function ReverseHex(s: string): (r: string)
    requires IsHexString(s)
    ensures |r| == |s| && IsHexString(r)
    decreases |s|
  {
    if s == "" then "" else ReverseHex(s[2..]) + s[..2]
  }

  lemma {:induction false} ReverseHexAppend(a: string, b: string)
    requires IsHexString(a) && IsHexString(b)
    ensures IsHexString(a + b)
    ensures ReverseHex(a + b) == ReverseHex(b) + ReverseHex(a)
    decreases |a|
  {
    assert forall i :: 0 <= i < |a + b| ==> IsHexChar((a + b)[i]) by {
      forall i | 0 <= i < |a + b| ensures IsHexChar((a + b)[i]) {
        if i < |a| { assert (a + b)[i] == a[i]; } else { assert (a + b)[i] == b[i - |a|]; }
      }
    }
    if a != "" {
      assert (a + b)[2..] == a[2..] + b;
      assert (a + b)[..2] == a[..2];
      ReverseHexAppend(a[2..], b);
    } else {
      assert a + b == b;
    }
  }

  /** Reversing twice restores the string: the hash is recoverable from a reversed copy. */
  lemma {:induction false} ReverseHexInvolution(s: string)
    requires IsHexString(s)
    ensures ReverseHex(ReverseHex(s)) == s
    decreases |s|
  {
    if s != "" {
      var head := s[..2];
      assert ReverseHex(head) == head by {
        assert head[2..] == "";
      }
      ReverseHexAppend(ReverseHex(s[2..]), head);
      ReverseHexInvolution(s[2..]);
      assert s == head + s[2..];
    }
  }

  /** Byte `i` of the reversal is byte `n - 1 - i` of the input. */
  lemma {:induction false} ReverseHexByte(s: string, i: nat)
    requires IsHexString(s) && i < |s| / 2
    ensures ReverseHex(s)[2 * i..2 * i + 2] == s[|s| - 2 * i - 2..|s| - 2 * i]
    decreases |s|
  {
    var r := ReverseHex(s);
    var rest := ReverseHex(s[2..]);
    if i == |s| / 2 - 1 {
      assert r[2 * i..2 * i + 2] == s[..2];
    } else {
      ReverseHexByte(s[2..], i);
      assert r[2 * i..2 * i + 2] == rest[2 * i..2 * i + 2];
    }
  }
}
