/** Compact JWS (section 7.1 of RFC 7515) over a signature scheme. */
module CompactJws {
  import opened CodeUnits
  import opened Json
  import opened CanonicalPrinter
  import opened JsonParser
  import opened Base64Url
  import opened Utf8

  const DOT: Unit := '.' as int

  const ALG: Text := ['a' as int, 'l' as int, 'g' as int]
  const KID: Text := ['k' as int, 'i' as int, 'd' as int]
  const TYP: Text := ['t' as int, 'y' as int, 'p' as int]
  const ES256: Text := ['E' as int, 'S' as int, '2' as int, '5' as int, '6' as int]

  /** A key pair is named by `pair`; only its private half signs. */
  datatype PrivateKey = PrivateKey(kid: Text, pair: nat)

  datatype PublicKey = PublicKey(kid: Text, pair: nat)

  datatype Suite = Suite(sign: (nat, seq<Byte>) -> seq<Byte>, verify: (nat, seq<Byte>, seq<Byte>) -> bool)

  /** ES256: signatures are 64 bytes long, and each verifies under the key pair that made it. */
  ghost predicate Correct(suite: Suite) {
    forall k: nat, m: seq<Byte> :: |suite.sign(k, m)| == 64 && suite.verify(k, m, suite.sign(k, m))
  }

  /** Among these public keys, the signature the pair makes of this message verifies under no other pair's. */
  predicate Separates(suite: Suite, pair: nat, message: seq<Byte>, keys: seq<PublicKey>) {
    forall k :: k in keys && suite.verify(k.pair, message, suite.sign(pair, message)) ==> k.pair == pair
  }

  function Fill(b: Byte, n: nat): (r: seq<Byte>)
    ensures |r| == n
    ensures n > 0 ==> r[0] == b
  {
    if n == 0 then [] else [b] + Fill(b, n - 1)
  }

  function MarkedFor(k: nat, pair: nat): (r: seq<Byte>)
    ensures |r| == 64 && r[0] == if k == pair then 1 else 0
  {
    Fill(if k == pair then 1 else 0, 64)
  }

  /** What is assumed of a suite can be met, for any pair, message and keys. */
  lemma CorrectSuiteExists(pair: nat, message: seq<Byte>, keys: seq<PublicKey>) returns (suite: Suite)
    ensures Correct(suite) && Separates(suite, pair, message, keys)
  {
    suite := Suite((k: nat, m: seq<Byte>) => MarkedFor(k, pair), (k: nat, m: seq<Byte>, x: seq<Byte>) => x == MarkedFor(k, pair));
  }

  /** String.prototype.split("."). */
  function Split(s: Text): (r: seq<Text>)
    ensures r != []
  {
    if s == [] then [[]]
    else
      var rest := Split(s[1..]);
      if s[0] == DOT then [[]] + rest else [[s[0]] + rest[0]] + rest[1..]
  }

  datatype JwsParts = JwsParts(header: seq<Member>, payload: Value, signingInput: Text, signature: seq<Byte>)

  /** JSON.parse(decoder.decode(base64urlDecode(part))). */
  function DecodeJson(part: Text): Option<Value> {
    match Decode(part)
    case None => None
    case Some(bytes) =>
      match TextDecode(bytes)
      case None => None
      case Some(text) => Parse(text)
  }

  function DecodeCompactJws(token: Text): Option<JwsParts> {
    var parts := Split(token);
    if |parts| != 3 || parts[0] == [] || parts[1] == [] || parts[2] == [] then None
    else match (DecodeJson(parts[0]), DecodeJson(parts[1]), Decode(parts[2]))
      case (Some(Obj(header)), Some(payload), Some(signature)) =>
        Some(JwsParts(header, payload, parts[0] + [DOT] + parts[1], signature))
      case _ => None
  }

  function VerifyJwsSignature(parts: JwsParts, key: PublicKey, suite: Suite): bool {
    suite.verify(key.pair, Utf8Encode(parts.signingInput), parts.signature)
  }

  function ProtectedHeader(kid: Text, typ: Text): seq<Member> {
    [Member(ALG, Str(ES256)), Member(KID, Str(kid)), Member(TYP, Str(typ))]
  }

  function EncodeText(text: Text): Text {
    Encode(Utf8Encode(text))
  }

  function SigningInput(header: Text, payload: Text): Text {
    EncodeText(header) + [DOT] + EncodeText(payload)
  }

  /** JSON.stringify of the protected header, in insertion order. */
  function HeaderText(kid: Text, typ: Text): Text {
    var ms := ProtectedHeader(kid, typ);
    [OPEN_BRACE] + PrintFields(ms, KeysOf(ms)) + [CLOSE_BRACE]
  }

  /** signCompactJws; `None` when the key has no kid or the payload cannot be serialized. */
  function SignCompactJws(payload: Value, key: PrivateKey, typ: Text, suite: Suite): (r: Option<Text>)
    requires WellFormed(payload)
    ensures r.Some? ==> key.kid != [] && JwsSerializable(payload)
  {
    if key.kid == [] then None
    else match CanonicalizeJson(payload)
    case None => None
    case Some(text) =>
      var input := SigningInput(HeaderText(key.kid, typ), text);
      Some(input + [DOT] + Encode(suite.sign(key.pair, Utf8Encode(input))))
  }

  // ---- printed text survives UTF-8 ------------------------------------------

  lemma {:induction false} AsciiPaired(s: Text)
    requires forall i :: 0 <= i < |s| ==> s[i] < 0x80
    ensures WellPaired(s)
  {
    if s != [] { AsciiPaired(s[1..]); }
  }

  lemma {:induction false} EscapePaired(s: Text)
    ensures WellPaired(Escape(s))
  {
    if s == [] {
    } else if |s| >= 2 && IsHigh(s[0]) && IsLow(s[1]) {
      EscapePaired(s[2..]);
      assert (s[..2] + Escape(s[2..]))[2..] == Escape(s[2..]);
    } else {
      EscapePaired(s[1..]);
      EscapeUnitPaired(s[0]);
      ConcatPaired(EscapeUnit(s[0]), Escape(s[1..]));
    }
  }

  lemma EscapeUnitPaired(u: Unit)
    ensures WellPaired(EscapeUnit(u))
  {
    if |EscapeUnit(u)| > 1 { AsciiPaired(EscapeUnit(u)); }
  }

  lemma QuotePaired(s: Text)
    ensures WellPaired(Quote(s))
  {
    EscapePaired(s);
    ConcatPaired([QUOTE], Escape(s));
    ConcatPaired([QUOTE] + Escape(s), [QUOTE]);
  }

  lemma {:induction false} PrintPaired(v: Value)
    requires Serializable(v)
    ensures WellPaired(Print(v))
    decreases v, 2
  {
    match v
    case Null => AsciiPaired(NULL_TEXT);
    case Bool(b) => AsciiPaired(TRUE_TEXT); AsciiPaired(FALSE_TEXT);
    case Num(n) => AsciiPaired(n);
    case Str(s) => QuotePaired(s);
    case Arr(items) =>
      PrintItemsPaired(items);
      Bracketed(OPEN_BRACKET, PrintItems(items), CLOSE_BRACKET);
    case Obj(ms) =>
      PrintFieldsPaired(ms, SortedKeys(ms));
      Bracketed(OPEN_BRACE, PrintFields(ms, SortedKeys(ms)), CLOSE_BRACE);
  }

  lemma Bracketed(open: Unit, body: Text, close: Unit)
    requires open < 0x80 && close < 0x80 && WellPaired(body)
    ensures WellPaired([open] + body + [close])
  {
    ConcatPaired([open], body);
    ConcatPaired([open] + body, [close]);
  }

  lemma {:induction false} PrintItemsPaired(items: seq<Value>)
    requires forall i :: 0 <= i < |items| ==> Serializable(items[i])
    ensures WellPaired(PrintItems(items))
    decreases items, 1
  {
    if items != [] {
      PrintPaired(items[0]);
      if |items| > 1 {
        PrintItemsPaired(items[1..]);
        ConcatPaired(Print(items[0]), [COMMA]);
        ConcatPaired(Print(items[0]) + [COMMA], PrintItems(items[1..]));
      }
    }
  }

  lemma {:induction false} PrintFieldsPaired(ms: seq<Member>, keys: seq<Text>)
    requires forall i :: 0 <= i < |ms| ==> Serializable(ms[i].value)
    requires forall k :: k in keys ==> k in KeysOf(ms)
    ensures WellPaired(PrintFields(ms, keys))
    decreases ms, |keys| + 1
  {
    if keys != [] {
      var key := keys[0];
      QuotePaired(key);
      PrintPaired(ms[IndexOf(ms, key)].value);
      ConcatPaired(Quote(key), [COLON]);
      ConcatPaired(Quote(key) + [COLON], Print(ms[IndexOf(ms, key)].value));
      if |keys| > 1 {
        PrintFieldsPaired(ms, keys[1..]);
        ConcatPaired(PrintField(ms, key), [COMMA]);
        ConcatPaired(PrintField(ms, key) + [COMMA], PrintFields(ms, keys[1..]));
      }
    }
  }

  lemma PrintStartsAscii(v: Value)
    requires Serializable(v)
    ensures Print(v) != [] && Print(v)[0] < 0x80
  {
  }

  /** Printing, UTF-8, base64url and back: the value with its keys sorted. */
  lemma EncodedPrintDecodes(v: Value)
    requires WellFormed(v) && Serializable(v)
    ensures DecodeJson(EncodeText(Print(v))) == Some(Normalize(v))
    ensures EncodeText(Print(v)) != [] && DOT !in EncodeText(Print(v))
  {
    var text := Print(v);
    PrintPaired(v);
    PrintStartsAscii(v);
    TextRoundTrip(text);
    DecodeEncode(Utf8Encode(text));
    ParsePrint(v, []);
    assert text + [] == text;
    EncodeShape(Utf8Encode(text));
  }

  lemma {:induction false} UrlTextHasNoDot(s: seq<Sextet>)
    ensures DOT !in UrlText(s)
  {
    if s != [] { UrlTextHasNoDot(s[1..]); }
  }

  lemma EncodeShape(b: seq<Byte>)
    ensures DOT !in Encode(b)
    ensures b != [] ==> Encode(b) != []
  {
    EncodeIsUrlText(b);
    UrlTextHasNoDot(Sextets(b));
  }

  // ---- compact serialization ---------------------------------------------------

  lemma {:induction false} SplitLast(a: Text)
    requires DOT !in a
    ensures Split(a) == [a]
  {
    if a != [] {
      SplitLast(a[1..]);
      assert [a[0]] + a[1..] == a;
    }
  }

  lemma {:induction false} SplitFirst(a: Text, rest: Text)
    requires DOT !in a
    ensures Split(a + [DOT] + rest) == [a] + Split(rest)
  {
    var s := a + [DOT] + rest;
    if a == [] {
      assert s[1..] == rest;
    } else {
      SplitFirst(a[1..], rest);
      assert s[1..] == a[1..] + [DOT] + rest;
      assert [a[0]] + a[1..] == a;
    }
  }

  lemma SplitThree(a: Text, b: Text, c: Text)
    requires DOT !in a && DOT !in b && DOT !in c
    ensures Split(a + [DOT] + b + [DOT] + c) == [a, b, c]
  {
    Assoc(a + [DOT], b, [DOT]);
    Assoc(a + [DOT], b + [DOT], c);
    SplitFirst(a, b + [DOT] + c);
    SplitFirst(b, c);
    SplitLast(c);
  }

  lemma HeaderKeysSorted(kid: Text, typ: Text)
    ensures Distinct(KeysOf(ProtectedHeader(kid, typ)))
    ensures SortedKeys(ProtectedHeader(kid, typ)) == KeysOf(ProtectedHeader(kid, typ))
  {
    var ks := KeysOf(ProtectedHeader(kid, typ));
    assert ks == [ALG, KID, TYP];
    assert Less(ALG, KID) && Less(KID, TYP) && Less(ALG, TYP);
    assert StrictlySorted(ks);
    SortedIsDistinct(ks);
    SortSorted(ks);
    SortedUnique(Sort(ks), ks);
  }

  lemma {:induction false} NormalizeLeaves(ms: seq<Member>, i: nat)
    requires Distinct(KeysOf(ms)) && i <= |ms| && forall j :: 0 <= j < |ms| ==> ms[j].value.Str?
    ensures NormalizeFields(ms, KeysOf(ms)[i..]) == ms[i..]
    decreases |ms| - i
  {
    if i < |ms| {
      NormalizeLeaves(ms, i + 1);
      var ks := KeysOf(ms)[i..];
      assert ks[0] == ms[i].key && ks[1..] == KeysOf(ms)[i + 1..];
      DistinctKeys(ms, i);
      assert Normalize(ms[i].value) == ms[i].value;
      assert NormalizeFields(ms, ks) == [ms[i]] + NormalizeFields(ms, ks[1..]);
    }
  }

  /** The header printed in insertion order is the header printed canonically. */
  lemma HeaderTextIsPrint(kid: Text, typ: Text)
    ensures WellFormed(Obj(ProtectedHeader(kid, typ))) && Serializable(Obj(ProtectedHeader(kid, typ)))
    ensures HeaderText(kid, typ) == Print(Obj(ProtectedHeader(kid, typ)))
    ensures Normalize(Obj(ProtectedHeader(kid, typ))) == Obj(ProtectedHeader(kid, typ))
  {
    HeaderKeysSorted(kid, typ);
    var ms := ProtectedHeader(kid, typ);
    NormalizeLeaves(ms, 0);
    assert KeysOf(ms)[0..] == KeysOf(ms) && ms[0..] == ms;
  }

  lemma CompactDecodes(h: Text, p: Text, signature: seq<Byte>, header: seq<Member>, payload: Value)
    requires h != [] && p != [] && DOT !in h && DOT !in p && signature != []
    requires DecodeJson(h) == Some(Obj(header)) && DecodeJson(p) == Some(payload)
    ensures DecodeCompactJws(h + [DOT] + p + [DOT] + Encode(signature)) ==
            Some(JwsParts(header, payload, h + [DOT] + p, signature))
  {
    EncodeShape(signature);
    DecodeEncode(signature);
    SplitThree(h, p, Encode(signature));
  }

  function TokenInput(payload: Value, key: PrivateKey, typ: Text): Text
    requires WellFormed(payload) && JwsSerializable(payload)
  {
    SigningInput(HeaderText(key.kid, typ), PrintJws(payload))
  }

  /** Decoding a token gives back its header, its payload up to key order and undefined properties, and its signature. */
  lemma SignThenDecode(payload: Value, key: PrivateKey, typ: Text, suite: Suite)
    requires WellFormed(payload) && Correct(suite) && SignCompactJws(payload, key, typ, suite).Some?
    ensures var input := TokenInput(payload, key, typ);
            DecodeCompactJws(SignCompactJws(payload, key, typ, suite).value) ==
            Some(JwsParts(ProtectedHeader(key.kid, typ), Normalize(Strip(payload)), input, suite.sign(key.pair, Utf8Encode(input))))
  {
    var ms := ProtectedHeader(key.kid, typ);
    JwsPrintIsPrintOfStrip(payload);
    HeaderTextIsPrint(key.kid, typ);
    EncodedPrintDecodes(Obj(ms));
    EncodedPrintDecodes(Strip(payload));
    var input := TokenInput(payload, key, typ);
    var signature := suite.sign(key.pair, Utf8Encode(input));
    assert |suite.sign(key.pair, Utf8Encode(input))| == 64;
    CompactDecodes(EncodeText(Print(Obj(ms))), EncodeText(Print(Strip(payload))), signature, ms, Normalize(Strip(payload)));
  }

  /** A decoded token is its signing input, a dot, and a text for its signature. */
  lemma DecodedInput(token: Text)
    requires DecodeCompactJws(token).Some?
    ensures var parts := Split(token);
            |parts| == 3 && DecodeCompactJws(token).value.signingInput == parts[0] + [DOT] + parts[1] &&
            DecodeJson(parts[1]) == Some(DecodeCompactJws(token).value.payload) &&
            DecodeJson(parts[0]) == Some(Obj(DecodeCompactJws(token).value.header)) &&
            DOT !in parts[0] && DOT !in parts[1]
  {
    SplitHasNoDots(token);
  }

  lemma {:induction false} SplitHasNoDots(s: Text)
    ensures forall i :: 0 <= i < |Split(s)| ==> DOT !in Split(s)[i]
  {
    if s != [] { SplitHasNoDots(s[1..]); }
  }

  /** Equal signing inputs were made from equal halves. */
  lemma SigningInputInjective(a: Text, b: Text, c: Text, d: Text)
    requires DOT !in a && DOT !in b && DOT !in c && DOT !in d
    requires a + [DOT] + b == c + [DOT] + d
    ensures a == c && b == d
  {
    SplitFirst(a, b);
    SplitFirst(c, d);
    SplitLast(b);
    SplitLast(d);
    assert [a] + [b] == [c] + [d];
    assert ([a] + [b])[0] == a && ([a] + [b])[1] == b && ([c] + [d])[0] == c && ([c] + [d])[1] == d;
  }

  lemma {:induction false} UrlTextIsAscii(s: Text)
    requires IsUrlText(s)
    ensures forall i :: 0 <= i < |s| ==> s[i] < 0x80
  {
    if s != [] {
      UrlTextIsAscii(s[1..]);
      assert s == [s[0]] + s[1..];
    }
  }

  lemma HalvesRoundTrip(a: Text, b: Text)
    requires IsUrlText(a) && IsUrlText(b)
    ensures Utf8Decode(Utf8Encode(a + [DOT] + b)) == Some(a + [DOT] + b)
  {
    UrlTextIsAscii(a);
    UrlTextIsAscii(b);
    AsciiPaired(a + [DOT] + b);
    Utf8RoundTrip(a + [DOT] + b);
  }

  /** Signing the same bytes means signing the same halves. */
  lemma SignedHalves(a: Text, b: Text, c: Text, d: Text)
    requires IsUrlText(a) && IsUrlText(b) && IsUrlText(c) && IsUrlText(d)
    requires DOT !in a && DOT !in b && DOT !in c && DOT !in d
    requires Utf8Encode(a + [DOT] + b) == Utf8Encode(c + [DOT] + d)
    ensures a == c && b == d
  {
    HalvesRoundTrip(a, b);
    HalvesRoundTrip(c, d);
    SigningInputInjective(a, b, c, d);
  }

  lemma EncodedIsUrlText(b: seq<Byte>)
    ensures IsUrlText(Encode(b))
  {
    EncodeIsUrlText(b);
    UrlTextValues(Sextets(b));
  }

  // ---- verification against an expected payload ------------------------------

  /** verifyCompactJws; `accepts` is the signature check of the key, on a message and a signature. */
  predicate VerifyCompactJws(token: Text, payload: Value, key: PrivateKey, typ: Text, accepts: (seq<Byte>, seq<Byte>) -> bool)
    requires WellFormed(payload)
  {
    var parts := Split(token);
    |parts| == 3 && key.kid != [] &&
    match (DecodeJson(parts[0]), CanonicalizeJson(payload), Decode(parts[2]))
    case (Some(Obj(header)), Some(text), Some(signature)) =>
      && Get(header, ALG) == Str(ES256) && Get(header, KID) == Str(key.kid) && Get(header, TYP) == Str(typ)
      && parts[1] == EncodeText(text)
      && accepts(Utf8Encode(parts[0] + [DOT] + parts[1]), signature)
    case _ => false
  }

  /** The bytes a verified token's signature is checked on. */
  function SignedBytes(token: Text): seq<Byte> {
    var parts := Split(token);
    if |parts| == 3 then Utf8Encode(parts[0] + [DOT] + parts[1]) else []
  }

  lemma HeaderFields(kid: Text, typ: Text)
    ensures var header := ProtectedHeader(kid, typ);
            Get(header, ALG) == Str(ES256) && Get(header, KID) == Str(kid) && Get(header, TYP) == Str(typ)
  {
    var ms := ProtectedHeader(kid, typ);
    HeaderTextIsPrint(kid, typ);
    assert KeysOf(ms)[0] == ALG && KeysOf(ms)[1] == KID && KeysOf(ms)[2] == TYP;
    DistinctKeys(ms, 0);
    DistinctKeys(ms, 1);
    DistinctKeys(ms, 2);
  }

  /** The halves of a signing input name the header and the payload it was made from. */
  lemma InputNames(h: Text, p: Text, payload: Value, key: PrivateKey, typ: Text)
    requires DecodeJson(h).Some? && IsUrlText(p) && DOT !in h && DOT !in p
    requires WellFormed(payload) && JwsSerializable(payload)
    requires Utf8Encode(h + [DOT] + p) == Utf8Encode(TokenInput(payload, key, typ))
    ensures DecodeJson(h) == Some(Obj(ProtectedHeader(key.kid, typ)))
    ensures p == EncodeText(PrintJws(payload)) && DecodeJson(p) == Some(Normalize(Strip(payload)))
  {
    var header := Obj(ProtectedHeader(key.kid, typ));
    JwsPrintIsPrintOfStrip(payload);
    HeaderTextIsPrint(key.kid, typ);
    EncodedPrintDecodes(header);
    EncodedPrintDecodes(Strip(payload));
    EncodedIsUrlText(Utf8Encode(Print(header)));
    EncodedIsUrlText(Utf8Encode(Print(Strip(payload))));
    EncodeDecode(h);
    SignedHalves(h, p, EncodeText(Print(header)), EncodeText(Print(Strip(payload))));
  }

  /** A token that verifies on the bytes signed for some payload has that payload, key name and type. */
  lemma VerifiedNames(token: Text, payload: Value, key: PrivateKey, typ: Text, accepts: (seq<Byte>, seq<Byte>) -> bool,
                      signed: Value, signer: PrivateKey, signedTyp: Text)
    requires WellFormed(payload) && VerifyCompactJws(token, payload, key, typ, accepts)
    requires WellFormed(signed) && JwsSerializable(signed)
    requires SignedBytes(token) == Utf8Encode(TokenInput(signed, signer, signedTyp))
    ensures signer.kid == key.kid && signedTyp == typ && JwsSerializable(payload)
    ensures Same(Strip(payload), Strip(signed))
  {
    var parts := Split(token);
    SplitHasNoDots(token);
    JwsPrintIsPrintOfStrip(payload);
    EncodedPrintDecodes(Strip(payload));
    EncodedIsUrlText(Utf8Encode(Print(Strip(payload))));
    InputNames(parts[0], parts[1], signed, signer, signedTyp);
    HeaderFields(signer.kid, signedTyp);
    JwsPrintIsPrintOfStrip(signed);
    AlikeNormalized(Strip(payload), Strip(signed));
  }

  lemma AlikeNormalized(v: Value, w: Value)
    requires WellFormed(v) && WellFormed(w) && Serializable(v) && Serializable(w) && Normalize(v) == Normalize(w)
    ensures Same(v, w)
  {
    NormalizeSame(v);
    NormalizeSame(w);
    SameSymmetric(w, Normalize(w));
    SameTransitive(v, Normalize(v), w);
  }

  lemma SplitToken(h: Text, p: Text, signature: seq<Byte>)
    requires DOT !in h && DOT !in p && signature != []
    ensures Split(h + [DOT] + p + [DOT] + Encode(signature)) == [h, p, Encode(signature)]
    ensures SignedBytes(h + [DOT] + p + [DOT] + Encode(signature)) == Utf8Encode(h + [DOT] + p)
    ensures Decode(Encode(signature)) == Some(signature)
  {
    EncodeShape(signature);
    DecodeEncode(signature);
    SplitThree(h, p, Encode(signature));
  }

  /** The halves of a signed token, and its signature. */
  lemma SignedParts(payload: Value, key: PrivateKey, typ: Text, suite: Suite) returns (h: Text, p: Text, signature: seq<Byte>)
    requires WellFormed(payload) && Correct(suite) && SignCompactJws(payload, key, typ, suite).Some?
    ensures SignCompactJws(payload, key, typ, suite) == Some(h + [DOT] + p + [DOT] + Encode(signature))
    ensures DOT !in h && DOT !in p && h + [DOT] + p == TokenInput(payload, key, typ)
    ensures DecodeJson(h) == Some(Obj(ProtectedHeader(key.kid, typ))) && p == EncodeText(PrintJws(payload))
    ensures signature == suite.sign(key.pair, Utf8Encode(h + [DOT] + p)) && |signature| == 64
  {
    h, p := EncodeText(HeaderText(key.kid, typ)), EncodeText(PrintJws(payload));
    signature := suite.sign(key.pair, Utf8Encode(h + [DOT] + p));
    JwsPrintIsPrintOfStrip(payload);
    HeaderTextIsPrint(key.kid, typ);
    EncodedPrintDecodes(Obj(ProtectedHeader(key.kid, typ)));
    EncodedPrintDecodes(Strip(payload));
  }

  /** A signed token verifies exactly against its own payload, up to key order and undefined properties, and its own type. */
  lemma SignThenVerify(payload: Value, key: PrivateKey, typ: Text, suite: Suite, expected: Value, expectedTyp: Text)
    requires WellFormed(payload) && WellFormed(expected) && JwsSerializable(expected) && Correct(suite)
    requires SignCompactJws(payload, key, typ, suite).Some?
    ensures WellFormed(Strip(payload)) && WellFormed(Strip(expected))
    ensures VerifyCompactJws(SignCompactJws(payload, key, typ, suite).value, expected, key, expectedTyp,
                             (m, s) => suite.verify(key.pair, m, s))
            <==> expectedTyp == typ && Same(Strip(payload), Strip(expected))
  {
    hide Same, WellFormed, JwsSerializable, Encode, Decode, Utf8Encode, TokenInput, DecodeJson, Strip;
    var accepts := (m, s) => suite.verify(key.pair, m, s);
    var h, p, signature := SignedParts(payload, key, typ, suite);
    var token := h + [DOT] + p + [DOT] + Encode(signature);
    SplitToken(h, p, signature);
    HeaderFields(key.kid, typ);
    JwsTextIsInjective(payload, expected);
    if VerifyCompactJws(token, expected, key, expectedTyp, accepts) {
      VerifiedNames(token, expected, key, expectedTyp, accepts, payload, key, typ);
      SameSymmetric(Strip(expected), Strip(payload));
    }
  }

  // ---- signing as its users see it -------------------------------------------

  /** Signing a payload under a key and a type, and verifying a token against them. */
  datatype Signer = Signer(sign: (JsonValue, PrivateKey, Text) -> Option<Text>, verify: (Text, JsonValue, PrivateKey, Text) -> bool)

  function JwsSigner(suite: Suite): Signer {
    Signer((payload: JsonValue, key, typ) => SignCompactJws(payload, key, typ, suite),
           (token, payload: JsonValue, key: PrivateKey, typ) =>
             VerifyCompactJws(token, payload, key, typ, (m, s) => suite.verify(key.pair, m, s)))
  }
}
