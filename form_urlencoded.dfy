/** The application/x-www-form-urlencoded format of section 5 of the WHATWG URL
    Standard: how URLSearchParams reads a URL's query into name-value pairs and
    writes the pairs back. */
module FormUrlencoded {
  import opened Strings
  import opened Digits
  import Utf8

  /** One name-value pair of a query. */
  type Pair = (string, string)

  /** Bytes the serializer copies unchanged: ASCII alphanumerics and `*-._`. */
  predicate IsUnreservedByte(b: Utf8.byte)
  {
    b == 0x2A || b == 0x2D || b == 0x2E || 0x30 <= b <= 0x39 || 0x41 <= b <= 0x5A
    || b == 0x5F || 0x61 <= b <= 0x7A
  }

  predicate IsUnreservedChar(c: char)
  {
    c as int < 0x80 && IsUnreservedByte(c as int)
  }

  /** The characters an encoded name or value is made of. */
  predicate IsEncodedChar(c: char)
  {
    IsUnreservedChar(c) || c == '+' || c == '%'
  }

  predicate AllEncodedChars(s: string)
  {
    forall i :: 0 <= i < |s| ==> IsEncodedChar(s[i])
  }

  /** The serializer's output for one byte: a space becomes `+`, an unreserved byte
      stays, any other byte becomes `%` and two upper-case hexadecimal digits. */
  function EncodeByte(b: Utf8.byte): (s: string)
    ensures AllEncodedChars(s)
  {
    if b == 0x20 then "+"
    else if IsUnreservedByte(b) then [b as char]
    else ['%', HexDigitUpper(b / 16), HexDigitUpper(b % 16)]
  }

  function EncodeBytes(bs: seq<Utf8.byte>): (s: string)
    ensures AllEncodedChars(s)
  {
    if bs == [] then [] else EncodeByte(bs[0]) + EncodeBytes(bs[1..])
  }

  /** Encoding of one name or value: its UTF-8 bytes, percent-encoded. */
  function Encode(s: string): (e: string)
    ensures AllEncodedChars(e)
  {
    EncodeBytes(Utf8.Encode(s))
  }

  function SerializePair(p: Pair): string
  {
    Encode(p.0) + "=" + Encode(p.1)
  }

  /** The characters a serialized query is made of. */
  predicate IsSerializedChar(c: char)
  {
    IsEncodedChar(c) || c == '=' || c == '&'
  }

  /** The application/x-www-form-urlencoded serializer: the encoded pairs, each as
      `name=value`, joined by `&`. */
  function Serialize(pairs: seq<Pair>): (s: string)
    ensures forall i :: 0 <= i < |s| ==> IsSerializedChar(s[i])
    ensures |pairs| > 0 ==> |s| > 0
  {
    if |pairs| == 0 then ""
    else if |pairs| == 1 then SerializePair(pairs[0])
    else SerializePair(pairs[0]) + "&" + Serialize(pairs[1..])
  }

  /** Percent-decoding of the UTF-8 encoding of `s`: a `%` followed by two
      hexadecimal digits stands for the byte they denote, every other character
      for its own UTF-8 bytes. Working on characters rather than on the encoded
      bytes gives the same bytes, because `%` and the hexadecimal digits are ASCII
      and the encoding of a non-ASCII character has no ASCII byte. */
  function PercentDecode(s: string): seq<Utf8.byte>
    decreases |s|
  {
    if s == [] then []
    else if |s| >= 3 && s[0] == '%' && IsHexDigit(s[1]) && IsHexDigit(s[2]) then
      [HexValue(s[1]) * 16 + HexValue(s[2])] + PercentDecode(s[3..])
    else Utf8.EncodeChar(s[0]) + PercentDecode(s[1..])
  }

  /** A name or value as the parser reads it: `+` becomes a space, then the bytes
      are percent-decoded and decoded as UTF-8. */
  function DecodeComponent(s: string): string
  {
    Utf8.Decode(PercentDecode(ReplaceAll(s, '+', ' ')))
  }

  /** A non-empty piece of the query, split at its first `=`; a piece without `=`
      is a name with an empty value. */
  function ParsePiece(piece: string): Pair
  {
    var (name, value) := SplitFirst(piece, '=');
    (DecodeComponent(name), DecodeComponent(match value case None => "" case Some(v) => v))
  }

  function ParsePieces(pieces: seq<string>): seq<Pair>
  {
    if pieces == [] then []
    else if pieces[0] == [] then ParsePieces(pieces[1..])
    else [ParsePiece(pieces[0])] + ParsePieces(pieces[1..])
  }

  /** The application/x-www-form-urlencoded parser: the query split at every `&`,
      empty pieces skipped, each other piece read as a pair. */
  function Parse(query: string): (r: seq<Pair>)
    ensures '&' !in query ==> r == (if query == "" then [] else [ParsePiece(query)])
  {
    ParsePiecesOne(query);
    ParsePieces(SplitAll(query, '&'))
  }

  lemma ParsePiecesOne(piece: string)
    ensures ParsePieces([piece]) == (if piece == "" then [] else [ParsePiece(piece)])
  {
    assert [piece][1..] == [];
  }

  /** URLSearchParams.has(name): some pair is named `name`. */
  function Has(pairs: seq<Pair>, name: string): (b: bool)
    ensures b <==> exists i :: 0 <= i < |pairs| && pairs[i].0 == name
  {
    if pairs == [] then false
    else pairs[0].0 == name || Has(pairs[1..], name)
  }

  /** Reading back what one byte was encoded to yields that byte, whatever follows. */
  lemma DecodeEncodedByte(b: Utf8.byte, rest: string)
    ensures PercentDecode(ReplaceAll(EncodeByte(b), '+', ' ') + rest) == [b] + PercentDecode(rest)
  {
    var e := EncodeByte(b);
    if b == 0x20 {
      assert ReplaceAll(e, '+', ' ') + rest == [' '] + rest;
    } else if IsUnreservedByte(b) {
      assert ReplaceAll(e, '+', ' ') + rest == [b as char] + rest;
    } else {
      var h1, h2 := HexDigitUpper(b / 16), HexDigitUpper(b % 16);
      var s := ReplaceAll(e, '+', ' ') + rest;
      assert s == ['%', h1, h2] + rest;
      assert s[3..] == rest;
    }
  }

  lemma {:induction false} DecodeEncodedBytes(bs: seq<Utf8.byte>)
    ensures PercentDecode(ReplaceAll(EncodeBytes(bs), '+', ' ')) == bs
    decreases |bs|
  {
    if bs != [] {
      var e, tail := EncodeByte(bs[0]), EncodeBytes(bs[1..]);
      ReplaceAllConcat(e, tail, '+', ' ');
      DecodeEncodedByte(bs[0], ReplaceAll(tail, '+', ' '));
      DecodeEncodedBytes(bs[1..]);
      assert [bs[0]] + bs[1..] == bs;
    }
  }

  /** Decoding a name or value undoes its encoding, for every string. */
  lemma DecodeEncode(s: string)
    ensures DecodeComponent(Encode(s)) == s
  {
    DecodeEncodedBytes(Utf8.Encode(s));
    Utf8.DecodeEncode(s);
  }

  lemma ParseSerializedPair(p: Pair)
    ensures SerializePair(p) != []
    ensures '&' !in SerializePair(p)
    ensures ParsePiece(SerializePair(p)) == p
  {
    var n, v := Encode(p.0), Encode(p.1);
    assert '=' !in n;
    assert SerializePair(p) == n + ['='] + v;
    assert SerializePair(p)[|n|] == '=';
    SplitFirstAt(n, '=', v);
    DecodeEncode(p.0);
    DecodeEncode(p.1);
  }

  /** The parser reads back exactly the pairs the serializer wrote, in order:
      appending to URLSearchParams and reading them again loses nothing. */
  lemma {:induction false} ParseSerialize(pairs: seq<Pair>)
    ensures Parse(Serialize(pairs)) == pairs
    decreases |pairs|
  {
    if |pairs| == 0 {
      assert SplitAll("", '&') == [""];
    } else if |pairs| == 1 {
      ParseOnePair(pairs[0]);
      assert pairs == [pairs[0]];
    } else {
      ParseSerialize(pairs[1..]);
      ParseFirstPair(pairs[0], Serialize(pairs[1..]));
      assert [pairs[0]] + pairs[1..] == pairs;
    }
  }

  lemma ParseOnePair(p: Pair)
    ensures Parse(SerializePair(p)) == [p]
  {
    var first := SerializePair(p);
    ParseSerializedPair(p);
    assert SplitAll(first, '&') == [first];
    assert [first][1..] == [];
    assert ParsePieces([first]) == [ParsePiece(first)] + ParsePieces([]);
  }

  lemma ParseFirstPair(p: Pair, rest: string)
    ensures Parse(SerializePair(p) + "&" + rest) == [p] + Parse(rest)
  {
    var first := SerializePair(p);
    ParseSerializedPair(p);
    SplitAllAt(first, '&', rest);
    var pieces := [first] + SplitAll(rest, '&');
    assert pieces[1..] == SplitAll(rest, '&');
  }

  /** A name or value made of ASCII alphanumerics and `*-._` is written as it is. */
  lemma {:induction false} EncodeUnreserved(s: string)
    requires forall i :: 0 <= i < |s| ==> IsUnreservedChar(s[i])
    ensures Encode(s) == s
    decreases |s|
  {
    if s != [] {
      EncodeUnreserved(s[1..]);
      assert Utf8.Encode(s) == [s[0] as int] + Utf8.Encode(s[1..]);
      assert EncodeByte(s[0] as int) == [s[0]];
      assert [s[0]] + s[1..] == s;
    }
  }

  /** Appending a pair appends `&` and that pair to a non-empty serialization. */
  lemma {:induction false} SerializeAppend(pairs: seq<Pair>, p: Pair)
    requires |pairs| > 0
    ensures Serialize(pairs + [p]) == Serialize(pairs) + "&" + SerializePair(p)
    decreases |pairs|
  {
    var all := pairs + [p];
    assert all[0] == pairs[0];
    if |pairs| == 1 {
      assert all[1..] == [p];
    } else {
      assert all[1..] == pairs[1..] + [p];
      SerializeAppend(pairs[1..], p);
    }
  }

  /** A pair of plain strings is written `name=value`. */
  lemma SerializePlainPair(name: string, value: string)
    requires forall i :: 0 <= i < |name| ==> IsUnreservedChar(name[i])
    requires forall i :: 0 <= i < |value| ==> IsUnreservedChar(value[i])
    ensures SerializePair((name, value)) == name + "=" + value
  {
    EncodeUnreserved(name);
    EncodeUnreserved(value);
  }
}
