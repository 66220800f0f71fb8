/**
 Tokens and bytes, against the tables of their standards and written out as they
 travel.

 The round trips of `Base64Url`, `Utf8` and `CompactJws` would also hold of another
 encoding that undoes itself. Here is what the encoding is: 24-bit groups, the
 bytes of each code point, and the text of a token.
 */
module WireFormat {
  import opened CodeUnits
  import opened Json
  import opened CanonicalPrinter
  import opened Base64Url
  import opened Utf8
  import opened CompactJws

  // ---- base64url, sections 4 and 5 of RFC 4648 ------------------------------------

  /** The digits of a 24-bit group are its four characters. */
  lemma GroupEncoded(x: Byte, y: Byte, z: Byte, rest: seq<Byte>) returns (a: Sextet, b: Sextet, c: Sextet, d: Sextet)
    ensures ((a * 64 + b) * 64 + c) * 64 + d == (x * 256 + y) * 256 + z
    ensures Encode([x, y, z] + rest) == [UrlChar(a), UrlChar(b), UrlChar(c), UrlChar(d)] + Encode(rest)
  {
    hide UrlChar;
    var bytes := [x, y, z] + rest;
    a, b, c, d := First6(x), Second6(x, y), Third6(y, z), Fourth6(z);
    assert bytes[3..] == rest;
    EncodeIsUrlText(bytes);
    EncodeIsUrlText(rest);
    UrlTextOf(a, b, c, d, Sextets(rest));
  }

  lemma UrlTextOf(a: Sextet, b: Sextet, c: Sextet, d: Sextet, rest: seq<Sextet>)
    ensures UrlText([a, b, c, d] + rest) == [UrlChar(a), UrlChar(b), UrlChar(c), UrlChar(d)] + UrlText(rest)
  {
    hide UrlChar;
    var s := [a, b, c, d] + rest;
    assert ([d] + rest)[1..] == rest && ([c, d] + rest)[1..] == [d] + rest;
    assert ([b, c, d] + rest)[1..] == [c, d] + rest && s[1..] == [b, c, d] + rest;
    assert UrlText([d] + rest) == [UrlChar(d)] + UrlText(rest);
    assert UrlText([c, d] + rest) == [UrlChar(c)] + UrlText([d] + rest);
    assert UrlText([b, c, d] + rest) == [UrlChar(b)] + UrlText([c, d] + rest);
  }

  /** One byte at the end: four zero bits fill the last character, and nothing pads it. */
  lemma ByteEncoded(x: Byte) returns (a: Sextet, b: Sextet)
    ensures a * 64 + b == x * 16 && Encode([x]) == [UrlChar(a), UrlChar(b)]
    ensures Encode([]) == []
  {
    hide UrlChar;
    a, b := First6(x), Second6(x, 0);
    EncodeIsUrlText([x]);
    EncodeIsUrlText([]);
    assert [a, b][1..] == [b];
    assert UrlText([b]) == [UrlChar(b)];
  }

  /** Two bytes at the end: two zero bits. */
  lemma TwoBytesEncoded(x: Byte, y: Byte) returns (a: Sextet, b: Sextet, c: Sextet)
    ensures (a * 64 + b) * 64 + c == (x * 256 + y) * 4 && Encode([x, y]) == [UrlChar(a), UrlChar(b), UrlChar(c)]
  {
    hide UrlChar;
    a, b, c := First6(x), Second6(x, y), Third6(y, 0);
    EncodeIsUrlText([x, y]);
    assert [a, b, c][1..] == [b, c] && [b, c][1..] == [c];
    assert UrlText([c]) == [UrlChar(c)] && UrlText([b, c]) == [UrlChar(b)] + UrlText([c]);
  }

  // ---- UTF-8, section 3 of RFC 3629 ------------------------------------------------

  predicate Trails(b: Byte) { 0x80 <= b <= 0xBF }

  /** These bytes spell the code point, in as many bytes as the table gives it. */
  predicate Spells(b: seq<Byte>, c: nat) {
    if c < 0x80 then b == [c]
    else if c < 0x800 then
      |b| == 2 && 0xC2 <= b[0] <= 0xDF && Trails(b[1]) && (b[0] as int - 0xC0) * 0x40 + (b[1] as int - 0x80) == c
    else if c < 0x10000 then
      |b| == 3 && 0xE0 <= b[0] <= 0xEF && Trails(b[1]) && Trails(b[2])
      && ((b[0] as int - 0xE0) * 0x40 + (b[1] as int - 0x80)) * 0x40 + (b[2] as int - 0x80) == c
    else
      |b| == 4 && 0xF0 <= b[0] <= 0xF4 && Trails(b[1]) && Trails(b[2]) && Trails(b[3])
      && (((b[0] as int - 0xF0) * 0x40 + (b[1] as int - 0x80)) * 0x40 + (b[2] as int - 0x80)) * 0x40 + (b[3] as int - 0x80) == c
  }

  /** The first unit, the first pair or the first lone surrogate of a text, in bytes. */
  lemma FirstEncoded(s: Text) returns (b: seq<Byte>, n: nat)
    requires s != []
    ensures n == (if |s| >= 2 && 0xD800 <= s[0] <= 0xDBFF && 0xDC00 <= s[1] <= 0xDFFF then 2 else 1)
    ensures n <= |s| && Utf8Encode(s) == b + Utf8Encode(s[n..])
    ensures n == 2 ==> Spells(b, 0x10000 + (s[0] as int - 0xD800) * 0x400 + (s[1] as int - 0xDC00))
    ensures n == 1 ==> Spells(b, if 0xD800 <= s[0] <= 0xDFFF then 0xFFFD else s[0])
  {
    if |s| >= 2 && IsHigh(s[0]) && IsLow(s[1]) {
      b, n := EncodePoint(CodePoint(s[0], s[1])), 2;
      PointSpelled(CodePoint(s[0], s[1]));
    } else {
      var c := if IsHigh(s[0]) || IsLow(s[0]) then 0xFFFD else s[0];
      b, n := EncodePoint(c), 1;
      PointSpelled(c);
    }
  }

  lemma PointSpelled(c: nat)
    requires c < 0x110000
    ensures Spells(EncodePoint(c), c)
  {
    if 0x800 <= c < 0x10000 {
      assert c / 64 / 64 < 16;
    } else if c >= 0x10000 {
      assert c / 64 / 64 / 64 < 5;
    }
  }

  // ---- compact JWS, section 7.1 of RFC 7515 --------------------------------------------

  /** Printable, and nothing to escape. */
  predicate Plain(s: Text) {
    forall i :: 0 <= i < |s| ==> 0x20 < s[i] < 0x7F && s[i] != QUOTE && s[i] != BACKSLASH
  }

  lemma {:induction false} CopiedText(s: Text)
    requires Plain(s)
    ensures Escape(s) == s
  {
    if s != [] { CopiedText(s[1..]); }
  }

  lemma HeaderNames()
    ensures ALG == Units("alg") && KID == Units("kid") && TYP == Units("typ") && ES256 == Units("ES256")
    ensures ALG != KID && KID != TYP && ALG != TYP
    ensures Plain(ALG) && Plain(KID) && Plain(TYP) && Plain(ES256)
  {
    assert ALG[0] == 'a' as int && KID[0] == 'k' as int && TYP[0] == 't' as int;
  }

  lemma FieldSpelled(ms: seq<Member>, key: Text, i: nat)
    requires Serializable(Obj(ms)) && Distinct(KeysOf(ms)) && i < |ms| && ms[i].key == key
    requires Plain(key)
    ensures key in KeysOf(ms) && PrintField(ms, key) == [QUOTE] + key + [QUOTE] + [COLON] + Print(ms[i].value)
  {
    DistinctKeys(ms, i);
    CopiedText(key);
  }

  lemma HeaderFieldsSpelled(kid: Text, typ: Text)
    ensures var ms := ProtectedHeader(kid, typ);
            && Serializable(Obj(ms)) && KeysOf(ms) == [ALG, KID, TYP]
            && PrintField(ms, ALG) == [QUOTE] + ALG + [QUOTE] + [COLON] + ([QUOTE] + ES256 + [QUOTE])
            && PrintField(ms, KID) == [QUOTE] + KID + [QUOTE] + [COLON] + Print(Str(kid))
            && PrintField(ms, TYP) == [QUOTE] + TYP + [QUOTE] + [COLON] + Print(Str(typ))
  {
    hide Escape, Units, PrintField;
    var ms := ProtectedHeader(kid, typ);
    HeaderNames();
    assert KeysOf(ms) == [ALG, KID, TYP];
    FieldSpelled(ms, ALG, 0);
    FieldSpelled(ms, KID, 1);
    FieldSpelled(ms, TYP, 2);
    CopiedText(ES256);
  }

  /** The protected header as text. */
  lemma HeaderSpelled(kid: Text, typ: Text)
    ensures HeaderText(kid, typ) ==
            Units("{\"alg\":\"ES256\",\"kid\":") + Print(Str(kid)) + (Units(",\"typ\":") + Print(Str(typ)) + Units("}"))
  {
    hide Units, Print, PrintField, PrintFields;
    var ms := ProtectedHeader(kid, typ);
    HeaderFieldsSpelled(kid, typ);
    ThreeFields(ms, ALG, KID, TYP);
    HeaderPieces();
    Joined([OPEN_BRACE], [QUOTE] + ALG + [QUOTE] + [COLON] + ([QUOTE] + ES256 + [QUOTE]), [COMMA], [QUOTE] + KID + [QUOTE] + [COLON], Print(Str(kid)),
           [QUOTE] + TYP + [QUOTE] + [COLON], Print(Str(typ)), [CLOSE_BRACE]);
  }

  lemma Joined(open: Text, a: Text, comma: Text, b: Text, x: Text, c: Text, y: Text, close: Text)
    ensures open + (a + comma + ((b + x) + comma + (c + y))) + close == open + a + comma + b + x + (comma + c + y + close)
  {
  }

  lemma ThreeFields(ms: seq<Member>, a: Text, b: Text, c: Text)
    requires Serializable(Obj(ms)) && KeysOf(ms) == [a, b, c]
    ensures PrintFields(ms, [a, b, c]) == PrintField(ms, a) + [COMMA] + (PrintField(ms, b) + [COMMA] + PrintField(ms, c))
  {
    hide PrintField;
    assert [a, b, c][1..] == [b, c] && [b, c][1..] == [c];
    assert PrintFields(ms, [c]) == PrintField(ms, c);
    assert PrintFields(ms, [b, c]) == PrintField(ms, b) + [COMMA] + PrintFields(ms, [c]);
  }

  lemma HeaderPieces()
    ensures [OPEN_BRACE] + ([QUOTE] + ALG + [QUOTE] + [COLON] + ([QUOTE] + ES256 + [QUOTE])) + [COMMA] + ([QUOTE] + KID + [QUOTE] + [COLON]) ==
            Units("{\"alg\":\"ES256\",\"kid\":")
    ensures [COMMA] + ([QUOTE] + TYP + [QUOTE] + [COLON]) == Units(",\"typ\":") && [CLOSE_BRACE] == Units("}")
  {
  }

  /** A token is its header, its payload and the signature of both, each in base64url, with dots between. */
  lemma TokenSpelled(payload: Value, key: PrivateKey, typ: Text, suite: Suite)
    requires WellFormed(payload)
    ensures SignCompactJws(payload, key, typ, suite).Some? <==> key.kid != [] && JwsSerializable(payload)
    ensures key.kid != [] && JwsSerializable(payload) ==>
              var header := Units("{\"alg\":\"ES256\",\"kid\":") + Print(Str(key.kid)) + (Units(",\"typ\":") + Print(Str(typ)) + Units("}"));
              var signed := Encode(Utf8Encode(header)) + Units(".") + Encode(Utf8Encode(PrintJws(payload)));
              SignCompactJws(payload, key, typ, suite) ==
              Some(signed + Units(".") + Encode(suite.sign(key.pair, Utf8Encode(signed))))
  {
    hide Print, Encode, Utf8Encode, PrintJws, HeaderText, JwsSerializable;
    HeaderSpelled(key.kid, typ);
    assert Units(".") == [DOT];
  }
}
