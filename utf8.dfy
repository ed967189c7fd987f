/** UTF-8 as the WHATWG Encoding Standard defines it: the encoder used by the
    application/x-www-form-urlencoded serializer, and the decoder (with U+FFFD
    replacement of ill-formed sequences) used by its parser. */
module Utf8 {

  type byte = x: int | 0 <= x < 256

  predicate IsContinuation(b: byte)
  {
    0x80 <= b <= 0xBF
  }

  /** The UTF-8 encoding of one scalar value. */
  function EncodeChar(c: char): (bs: seq<byte>)
    ensures 1 <= |bs| <= 4
    ensures (c as int < 0x80) <==> |bs| == 1
    ensures |bs| == 1 ==> bs[0] == c as int
    ensures forall i :: 0 <= i < |bs| ==> (bs[i] < 0x80 <==> |bs| == 1)
  {
    var n := c as int;
    if n < 0x80 then [n]
    else if n < 0x800 then
      [0xC0 + n / 64, 0x80 + n % 64]
    else if n < 0x10000 then
      var r := n % 4096;
      [0xE0 + n / 4096, 0x80 + r / 64, 0x80 + r % 64]
    else
      var r := n % 262144;
      var r' := r % 4096;
      [0xF0 + n / 262144, 0x80 + r / 4096, 0x80 + r' / 64, 0x80 + r' % 64]
  }

  function Encode(s: string): (bs: seq<byte>)
    ensures |bs| >= |s|
  {
    if s == [] then [] else EncodeChar(s[0]) + Encode(s[1..])
  }

  /** One step of the decoder: the scalar value (or U+FFFD) that the first bytes
      of `bs` decode to, and how many bytes it consumes. A lead byte followed by
      too few or out-of-range continuation bytes consumes itself and the
      continuation bytes that were in range, and yields U+FFFD. */
  function DecodeStep(bs: seq<byte>): (r: (char, nat))
    requires |bs| > 0
    ensures 1 <= r.1 <= |bs|
  {
    var b0: int := bs[0];
    var b1: int := if |bs| >= 2 then bs[1] else 0;
    var b2: int := if |bs| >= 3 then bs[2] else 0;
    var b3: int := if |bs| >= 4 then bs[3] else 0;
    if b0 < 0x80 then (b0 as char, 1)
    else if 0xC2 <= b0 <= 0xDF then
      if |bs| >= 2 && IsContinuation(bs[1]) then
        (((b0 - 0xC0) * 64 + (b1 - 0x80)) as char, 2)
      else ('\U{FFFD}', 1)
    else if 0xE0 <= b0 <= 0xEF then
      var lower := if b0 == 0xE0 then 0xA0 else 0x80;
      var upper := if b0 == 0xED then 0x9F else 0xBF;
      if |bs| >= 2 && lower <= b1 <= upper then
        if |bs| >= 3 && IsContinuation(bs[2]) then
          (((b0 - 0xE0) * 4096 + (b1 - 0x80) * 64 + (b2 - 0x80)) as char, 3)
        else ('\U{FFFD}', 2)
      else ('\U{FFFD}', 1)
    else if 0xF0 <= b0 <= 0xF4 then
      var lower := if b0 == 0xF0 then 0x90 else 0x80;
      var upper := if b0 == 0xF4 then 0x8F else 0xBF;
      if |bs| >= 2 && lower <= b1 <= upper then
        if |bs| >= 3 && IsContinuation(bs[2]) then
          if |bs| >= 4 && IsContinuation(bs[3]) then
            (((b0 - 0xF0) * 262144 + (b1 - 0x80) * 4096 + (b2 - 0x80) * 64 + (b3 - 0x80)) as char, 4)
          else ('\U{FFFD}', 3)
        else ('\U{FFFD}', 2)
      else ('\U{FFFD}', 1)
    else ('\U{FFFD}', 1)
  }

  /** UTF-8 decode of a byte sequence, with replacement. */
  function Decode(bs: seq<byte>): string
    decreases |bs|
  {
    if bs == [] then []
    else
      var (c, n) := DecodeStep(bs);
      [c] + Decode(bs[n..])
  }

  /** The encoding of a scalar value decodes back to it in one step,
      whatever follows it. */
  lemma DecodeStepEncodeChar(c: char, rest: seq<byte>)
    ensures DecodeStep(EncodeChar(c) + rest) == (c, |EncodeChar(c)|)
  {
    var n := c as int;
    var bs := EncodeChar(c) + rest;
    if n < 0x80 {
    } else if n < 0x800 {
      assert (n / 64) * 64 + n % 64 == n;
    } else if n < 0x10000 {
      var r := n % 4096;
      assert n == (n / 4096) * 4096 + (r / 64) * 64 + r % 64;
    } else {
      var r := n % 262144;
      var r' := r % 4096;
      assert r == (r / 4096) * 4096 + r';
      assert n == (n / 262144) * 262144 + (r / 4096) * 4096 + (r' / 64) * 64 + r' % 64;
    }
  }

  /** Decoding is a left inverse of encoding. */
  lemma {:induction false} DecodeEncode(s: string)
    ensures Decode(Encode(s)) == s
    decreases |s|
  {
    if s != [] {
      var e := EncodeChar(s[0]);
      DecodeStepEncodeChar(s[0], Encode(s[1..]));
      assert (e + Encode(s[1..]))[|e|..] == Encode(s[1..]);
      DecodeEncode(s[1..]);
      assert [s[0]] + s[1..] == s;
    }
  }

  /** On ASCII bytes the decoder is the identity. */
  lemma {:induction false} DecodeAscii(bs: seq<byte>)
    requires forall i :: 0 <= i < |bs| ==> bs[i] < 0x80
    ensures |Decode(bs)| == |bs|
    ensures forall i :: 0 <= i < |bs| ==> Decode(bs)[i] as int == bs[i]
    decreases |bs|
  {
    if bs != [] {
      DecodeAscii(bs[1..]);
    }
  }
}
