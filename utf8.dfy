/**
 * UTF-8, as `TextEncoder.encode` produces it for the password before it is
 * hashed. A Dafny `char` is a Unicode scalar value, so every character has
 * exactly one encoding.
 */
module Utf8 {
  import opened Hex

  predicate IsContinuation(b: byte) { 0x80 <= b < 0xC0 }

  /** The one-to-four byte encoding of a single scalar value. */
  function EncodeChar(c: char): (r: seq<byte>)
    ensures 1 <= |r| <= 4
    ensures |r| == 1 <==> c as int < 0x80
    ensures |r| == 1 ==> r[0] == c as int
    ensures |r| == 2 ==> 0xC2 <= r[0] < 0xE0
    ensures |r| == 3 ==> 0xE0 <= r[0] < 0xF0
    ensures |r| == 4 ==> 0xF0 <= r[0] < 0xF5
    ensures forall i :: 1 <= i < |r| ==> IsContinuation(r[i])
  {
    var n := c as int;
    if n < 0x80 then [n]
    else if n < 0x800 then [0xC0 + n / 64, 0x80 + n % 64]
    else if n < 0x10000 then [0xE0 + n / 4096, 0x80 + n / 64 % 64, 0x80 + n % 64]
    else [0xF0 + n / 262144, 0x80 + n / 4096 % 64, 0x80 + n / 64 % 64, 0x80 + n % 64]
  }

  /** Reads back the scalar value of one well-formed encoded character. */
  function DecodeChar(r: seq<byte>): (n: int)
    requires 1 <= |r| <= 4
  {
    if |r| == 1 then r[0]
    else if |r| == 2 then ((r[0] as int) - 0xC0) * 64 + ((r[1] as int) - 0x80)
    else if |r| == 3 then (((r[0] as int) - 0xE0) * 64 + ((r[1] as int) - 0x80)) * 64 + ((r[2] as int) - 0x80)
    else ((((r[0] as int) - 0xF0) * 64 + ((r[1] as int) - 0x80)) * 64 + ((r[2] as int) - 0x80)) * 64 + ((r[3] as int) - 0x80)
  }

  lemma CharRoundTrip(c: char)
    ensures DecodeChar(EncodeChar(c)) == c as int
  {
    var n := c as int;
    if n >= 0x800 {
      assert n / 4096 * 64 + n / 64 % 64 == n / 64;
      if n >= 0x10000 {
        assert n / 262144 * 64 + n / 4096 % 64 == n / 4096;
      }
    }
  }

  /** `TextEncoder.encode`: the characters' encodings, concatenated in order. */
  function Encode(s: string): (r: seq<byte>)
    ensures |s| <= |r| <= 4 * |s|
    ensures (forall i :: 0 <= i < |s| ==> s[i] as int < 0x80) ==> |r| == |s|
  {
    if s == "" then [] else EncodeChar(s[0]) + Encode(s[1..])
  }

  /** The length of the encoded character a lead byte starts. */
  function LeadLength(b: byte): (k: nat)
    ensures 1 <= k <= 4
  {
    if b < 0x80 then 1 else if b < 0xE0 then 2 else if b < 0xF0 then 3 else 4
  }

  /**
   * Reads a byte sequence back as scalar values, one character per lead
   * byte; a character cut short at the end stops the reading.
   */
  function Decode(r: seq<byte>): (cs: seq<int>)
    decreases |r|
  {
    if r == [] then []
    else
      var k := LeadLength(r[0]);
      if k > |r| then [] else [DecodeChar(r[..k])] + Decode(r[k..])
  }

  /** Decoding the encoding of a string gives its characters' scalar values, in order. */
  lemma {:induction false} EncodeRoundTrip(s: string)
    ensures |Decode(Encode(s))| == |s|
    ensures forall i :: 0 <= i < |s| ==> Decode(Encode(s))[i] == s[i] as int
  {
    if s != "" {
      var e := EncodeChar(s[0]);
      var rest := Encode(s[1..]);
      var r := e + rest;
      assert Encode(s) == r;
      assert r[0] == e[0];
      assert LeadLength(r[0]) == |e|;
      assert r[..|e|] == e && r[|e|..] == rest;
      CharRoundTrip(s[0]);
      EncodeRoundTrip(s[1..]);
      assert Decode(r) == [s[0] as int] + Decode(rest);
      assert forall i :: 1 <= i < |s| ==> s[i] == s[1..][i - 1];
    }
  }

  /** Different passwords never give the same bytes. */
  lemma EncodeInjective(s: string, t: string)
    requires Encode(s) == Encode(t)
    ensures s == t
  {
    EncodeRoundTrip(s);
    EncodeRoundTrip(t);
    assert forall i :: 0 <= i < |s| ==> s[i] as int == t[i] as int;
  }
}
