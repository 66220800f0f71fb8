/**
 TextEncoder and the fatal TextDecoder, between UTF-16 code units and UTF-8 bytes.

 Encoding replaces lone surrogates, so only well-paired texts come back; printed
 JSON is always well paired, because the printer escapes lone surrogates.
 */
module Utf8 {
  import opened CodeUnits
  import opened CanonicalPrinter
  import opened Base64Url

  /** No surrogate outside a high-low pair. */
  predicate WellPaired(s: Text) {
    if s == [] then true
    else if |s| >= 2 && IsHigh(s[0]) && IsLow(s[1]) then WellPaired(s[2..])
    else !IsHigh(s[0]) && !IsLow(s[0]) && WellPaired(s[1..])
  }

  function CodePoint(high: Unit, low: Unit): (c: nat)
    requires IsHigh(high) && IsLow(low)
    ensures 0x10000 <= c < 0x110000
  {
    0x10000 + (high - 0xD800) * 0x400 + (low - 0xDC00)
  }

  function Lead(c: nat, mark: nat): Byte
    requires mark + c < 256
  {
    mark + c
  }

  function Continuation(c: nat): Byte {
    0x80 + c % 64
  }

  /** The bytes of one code point. */
  function EncodePoint(c: nat): seq<Byte>
    requires c < 0x110000
  {
    if c < 0x80 then [c]
    else if c < 0x800 then [Lead(c / 64, 0xC0), Continuation(c)]
    else if c < 0x10000 then [Lead(c / 64 / 64, 0xE0), Continuation(c / 64), Continuation(c)]
    else [Lead(c / 64 / 64 / 64, 0xF0), Continuation(c / 64 / 64), Continuation(c / 64), Continuation(c)]
  }

  /** TextEncoder.encode; lone surrogates become U+FFFD. */
  function Utf8Encode(s: Text): seq<Byte> {
    if s == [] then []
    else if |s| >= 2 && IsHigh(s[0]) && IsLow(s[1]) then EncodePoint(CodePoint(s[0], s[1])) + Utf8Encode(s[2..])
    else if IsHigh(s[0]) || IsLow(s[0]) then EncodePoint(0xFFFD) + Utf8Encode(s[1..])
    else EncodePoint(s[0]) + Utf8Encode(s[1..])
  }

  predicate IsContinuation(b: Byte) {
    0x80 <= b < 0xC0
  }

  /** Six more bits. */
  function Append6(bits: nat, b: Byte): nat
    requires IsContinuation(b)
  {
    bits * 64 + (b - 0x80)
  }

  /** The code point at the front, and how many bytes spell it; over-long forms and surrogates are errors. */
  function DecodePoint(b: seq<Byte>): (r: Option<(nat, nat)>)
    ensures r.Some? ==> r.value.0 < 0x110000 && 1 <= r.value.1 <= |b|
  {
    if b == [] then None
    else if b[0] < 0x80 then Some((b[0], 1))
    else if b[0] < 0xC2 then None
    else if b[0] < 0xE0 then
      if |b| >= 2 && IsContinuation(b[1])
      then Some((Append6(b[0] - 0xC0, b[1]), 2)) else None
    else if b[0] < 0xF0 then
      if |b| >= 3 && IsContinuation(b[1]) && IsContinuation(b[2]) then
        var c := Append6(Append6(b[0] - 0xE0, b[1]), b[2]);
        if c < 0x800 || 0xD800 <= c < 0xE000 then None else Some((c, 3))
      else None
    else if b[0] < 0xF5 then
      if |b| >= 4 && IsContinuation(b[1]) && IsContinuation(b[2]) && IsContinuation(b[3]) then
        var c := Append6(Append6(Append6(b[0] - 0xF0, b[1]), b[2]), b[3]);
        if c < 0x10000 || c >= 0x110000 then None else Some((c, 4))
      else None
    else None
  }

  function UnitsOf(c: nat): Text
    requires c < 0x110000
  {
    if c < 0x10000 then [c] else [0xD800 + (c - 0x10000) / 0x400, 0xDC00 + (c - 0x10000) % 0x400]
  }

  function Utf8Decode(b: seq<Byte>): Option<Text> {
    if b == [] then Some([])
    else match DecodePoint(b)
      case None => None
      case Some((c, n)) =>
        match Utf8Decode(b[n..])
        case None => None
        case Some(rest) => Some(UnitsOf(c) + rest)
  }

  /** new TextDecoder("utf-8", { fatal: true, ignoreBOM: false }).decode: a leading byte order mark is dropped. */
  function TextDecode(b: seq<Byte>): Option<Text> {
    if |b| >= 3 && b[..3] == [0xEF, 0xBB, 0xBF] then Utf8Decode(b[3..]) else Utf8Decode(b)
  }

  lemma PointBytes(c: nat)
    requires c < 0x110000
    ensures IsContinuation(Continuation(c))
    ensures Append6(c / 64, Continuation(c)) == c
  {
  }

  /** Decoding the bytes of a code point that is not a surrogate gives it back. */
  lemma DecodeEncodedPoint(c: nat, rest: seq<Byte>)
    requires c < 0x110000 && !(0xD800 <= c < 0xE000)
    ensures DecodePoint(EncodePoint(c) + rest) == Some((c, |EncodePoint(c)|))
  {
    var e := EncodePoint(c);
    var b := e + rest;
    assert forall i :: 0 <= i < |e| ==> b[i] == e[i];
    PointBytes(c);
    PointBytes(c / 64);
    PointBytes(c / 64 / 64);
  }

  lemma UnitsOfPair(high: Unit, low: Unit)
    requires IsHigh(high) && IsLow(low)
    ensures UnitsOf(CodePoint(high, low)) == [high, low]
  {
  }

  lemma DecodeStep(c: nat, rest: seq<Byte>)
    requires c < 0x110000 && !(0xD800 <= c < 0xE000)
    ensures Utf8Decode(EncodePoint(c) + rest) ==
            match Utf8Decode(rest) case None => None case Some(t) => Some(UnitsOf(c) + t)
  {
    DecodeEncodedPoint(c, rest);
    var b := EncodePoint(c) + rest;
    assert b[|EncodePoint(c)|..] == rest;
  }

  /** UTF-8 loses nothing of a well-paired text. */
  lemma {:induction false} Utf8RoundTrip(s: Text)
    requires WellPaired(s)
    ensures Utf8Decode(Utf8Encode(s)) == Some(s)
  {
    if s == [] {
    } else if |s| >= 2 && IsHigh(s[0]) && IsLow(s[1]) {
      Utf8RoundTrip(s[2..]);
      DecodeStep(CodePoint(s[0], s[1]), Utf8Encode(s[2..]));
      UnitsOfPair(s[0], s[1]);
      assert [s[0], s[1]] + s[2..] == s;
    } else {
      Utf8RoundTrip(s[1..]);
      DecodeStep(s[0], Utf8Encode(s[1..]));
      assert [s[0]] + s[1..] == s;
    }
  }

  lemma NoByteOrderMark(s: Text)
    requires s != [] && s[0] < 0x80
    ensures TextDecode(Utf8Encode(s)) == Utf8Decode(Utf8Encode(s))
  {
    var b := Utf8Encode(s);
    assert EncodePoint(s[0]) == [s[0]];
    assert b[0] == s[0];
    if |b| >= 3 { assert b[..3][0] == b[0] != 0xEF; }
  }

  /** The decoder keeps every well-paired text that starts with an ASCII character. */
  lemma TextRoundTrip(s: Text)
    requires WellPaired(s) && s != [] && s[0] < 0x80
    ensures TextDecode(Utf8Encode(s)) == Some(s)
  {
    Utf8RoundTrip(s);
    NoByteOrderMark(s);
  }

  lemma {:induction false} ConcatPaired(a: Text, b: Text)
    requires WellPaired(a) && WellPaired(b)
    ensures WellPaired(a + b)
  {
    if a == [] {
      assert a + b == b;
    } else if |a| >= 2 && IsHigh(a[0]) && IsLow(a[1]) {
      ConcatPaired(a[2..], b);
      assert (a + b)[2..] == a[2..] + b;
    } else {
      ConcatPaired(a[1..], b);
      assert (a + b)[1..] == a[1..] + b;
    }
  }
}
