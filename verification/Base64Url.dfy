/**
 base64url without padding (section 5 of RFC 4648), built as the source builds it
 on the host's btoa and atob.

 Decoding is lenient about left-over bits, so a byte string has several spellings;
 re-encoding gives back exactly those whose left-over bits are zero.
 */
module Base64Url {
  import opened CodeUnits

  type Byte = b: nat | b < 256
  type Sextet = v: nat | v < 64

  const PAD: Unit := '=' as int

  /** The standard alphabet, table 1 of RFC 4648. */
  function StandardChar(v: Sextet): Unit {
    if v < 26 then 'A' as int + v
    else if v < 52 then 'a' as int + (v - 26)
    else if v < 62 then '0' as int + (v - 52)
    else if v == 62 then '+' as int
    else '/' as int
  }

  function StandardValue(u: Unit): Option<Sextet> {
    if 'A' as int <= u <= 'Z' as int then Some(u - 'A' as int)
    else if 'a' as int <= u <= 'z' as int then Some(u - 'a' as int + 26)
    else if '0' as int <= u <= '9' as int then Some(u - '0' as int + 52)
    else if u == '+' as int then Some(62)
    else if u == '/' as int then Some(63)
    else None
  }

  /** The URL-safe alphabet, table 2 of RFC 4648. */
  function UrlChar(v: Sextet): Unit {
    if v == 62 then '-' as int else if v == 63 then '_' as int else StandardChar(v)
  }

  function UrlValue(u: Unit): (r: Option<Sextet>)
    ensures r.Some? ==> UrlChar(r.value) == u
  {
    if u == '-' as int then Some(62)
    else if u == '_' as int then Some(63)
    else if u == '+' as int || u == '/' as int then None
    else StandardValue(u)
  }

  // Three bytes x, y, z as four six-bit values, and back.
  function First6(x: nat): Sextet requires x < 256 { x / 4 }
  function Second6(x: nat, y: nat): Sextet requires x < 256 && y < 256 { x % 4 * 16 + y / 16 }
  function Third6(y: nat, z: nat): Sextet requires y < 256 && z < 256 { y % 16 * 4 + z / 64 }
  function Fourth6(z: nat): Sextet requires z < 256 { z % 64 }
  function First8(a: nat, b: nat): Byte requires a < 64 && b < 64 { a * 4 + b / 16 }
  function Second8(b: nat, c: nat): Byte requires b < 64 && c < 64 { b % 16 * 16 + c / 4 }
  function Third8(c: nat, d: nat): Byte requires c < 64 && d < 64 { c % 4 * 64 + d }

  /** The 24-bit groups cut into six-bit values; the last one zero-filled. */
  function Sextets(b: seq<Byte>): seq<Sextet> {
    if |b| == 0 then []
    else if |b| == 1 then [First6(b[0]), Second6(b[0], 0)]
    else if |b| == 2 then [First6(b[0]), Second6(b[0], b[1]), Third6(b[1], 0)]
    else [First6(b[0]), Second6(b[0], b[1]), Third6(b[1], b[2]), Fourth6(b[2])] + Sextets(b[3..])
  }

  /** Six-bit values joined into bytes; left-over bits are dropped, a lone value is an error. */
  function FromSextets(s: seq<Sextet>): Option<seq<Byte>> {
    if |s| == 0 then Some([])
    else if |s| == 1 then None
    else if |s| == 2 then Some([First8(s[0], s[1])])
    else if |s| == 3 then Some([First8(s[0], s[1]), Second8(s[1], s[2])])
    else match FromSextets(s[4..])
      case None => None
      case Some(rest) => Some([First8(s[0], s[1]), Second8(s[1], s[2]), Third8(s[2], s[3])] + rest)
  }

  function Padding(n: nat): (r: Text)
    ensures |r| == n && forall i :: 0 <= i < n ==> r[i] == PAD
  {
    if n == 0 then [] else [PAD] + Padding(n - 1)
  }

  function StandardText(s: seq<Sextet>): Text {
    if s == [] then [] else [StandardChar(s[0])] + StandardText(s[1..])
  }

  function UrlText(s: seq<Sextet>): Text {
    if s == [] then [] else [UrlChar(s[0])] + UrlText(s[1..])
  }

  /** The host's btoa on a binary string. */
  function Btoa(b: seq<Byte>): Text {
    StandardText(Sextets(b)) + Padding((3 - |b| % 3) % 3)
  }

  function StripPadding(s: Text): Text {
    if s != [] && s[|s| - 1] == PAD then StripPadding(s[..|s| - 1]) else s
  }

  /** One optional trailing pad character. */
  function DropPad(s: Text): (r: Text)
    ensures r <= s
  {
    if s != [] && s[|s| - 1] == PAD then s[..|s| - 1] else s
  }

  function StandardValues(s: Text): Option<seq<Sextet>> {
    if s == [] then Some([])
    else match (StandardValue(s[0]), StandardValues(s[1..]))
      case (Some(v), Some(vs)) => Some([v] + vs)
      case _ => None
  }

  /** The host's atob (forgiving-base64 decode) on text without white space. */
  function Atob(s: Text): Option<seq<Byte>> {
    var t := if |s| % 4 == 0 then DropPad(DropPad(s)) else s;
    match StandardValues(t)
    case None => None
    case Some(vs) => FromSextets(vs)
  }

  /** The six-bit values a URL-safe text spells; `None` outside the alphabet. */
  function UrlValues(s: Text): (r: Option<seq<Sextet>>)
    ensures r.Some? ==> |r.value| == |s|
  {
    if s == [] then Some([])
    else match (UrlValue(s[0]), UrlValues(s[1..]))
      case (Some(v), Some(vs)) => Some([v] + vs)
      case _ => None
  }

  /** The test /^[A-Za-z0-9_-]*$/. */
  predicate IsUrlText(s: Text) {
    UrlValues(s).Some?
  }

  /** replace(/\+/g, "-") and replace(/\//g, "_"). */
  function ToUrl(s: Text): Text {
    if s == [] then []
    else [if s[0] == '+' as int then '-' as int else if s[0] == '/' as int then '_' as int else s[0]] + ToUrl(s[1..])
  }

  /** replace(/-/g, "+") and replace(/_/g, "/"). */
  function ToStandard(s: Text): (r: Text)
    ensures |r| == |s|
  {
    if s == [] then []
    else [if s[0] == '-' as int then '+' as int else if s[0] == '_' as int then '/' as int else s[0]] + ToStandard(s[1..])
  }

  function Encode(b: seq<Byte>): Text {
    StripPadding(ToUrl(Btoa(b)))
  }

  /** padEnd(Math.ceil(length / 4) * 4, "="). */
  function PadEnd(s: Text): Text {
    s + Padding((4 - |s| % 4) % 4)
  }

  /** base64urlDecode; `None` stands for a thrown error. */
  function Decode(s: Text): Option<seq<Byte>> {
    if !IsUrlText(s) then None
    else Atob(PadEnd(ToStandard(s)))
  }

  // ---- the host pipeline, in terms of six-bit values ----------------------

  lemma {:induction false} StripsAllPadding(s: Text, n: nat)
    requires s == [] || s[|s| - 1] != PAD
    ensures StripPadding(s + Padding(n)) == s
  {
    if n == 0 {
      assert s + Padding(0) == s;
    } else {
      var t := s + Padding(n);
      assert t[..|t| - 1] == s + Padding(n - 1);
      StripsAllPadding(s, n - 1);
    }
  }

  lemma {:induction false} ToUrlPadding(n: nat)
    ensures ToUrl(Padding(n)) == Padding(n)
  {
    if n > 0 { ToUrlPadding(n - 1); }
  }

  lemma {:induction false} ToUrlStandard(s: seq<Sextet>, tail: Text)
    ensures ToUrl(StandardText(s) + tail) == UrlText(s) + ToUrl(tail)
  {
    if s == [] {
      assert StandardText(s) + tail == tail;
    } else {
      ToUrlStandard(s[1..], tail);
      Assoc([StandardChar(s[0])], StandardText(s[1..]), tail);
      assert ([StandardChar(s[0])] + (StandardText(s[1..]) + tail))[1..] == StandardText(s[1..]) + tail;
      Assoc([UrlChar(s[0])], UrlText(s[1..]), ToUrl(tail));
    }
  }

  lemma {:induction false} UrlTextHasNoPad(s: seq<Sextet>)
    ensures PAD !in UrlText(s)
  {
    if s != [] { UrlTextHasNoPad(s[1..]); }
  }

  lemma EncodeIsUrlText(b: seq<Byte>)
    ensures Encode(b) == UrlText(Sextets(b))
  {
    var n := (3 - |b| % 3) % 3;
    ToUrlStandard(Sextets(b), Padding(n));
    ToUrlPadding(n);
    UrlTextHasNoPad(Sextets(b));
    StripsAllPadding(UrlText(Sextets(b)), n);
  }

  lemma PaddedLength(n: nat)
    ensures (n + (4 - n % 4) % 4) % 4 == 0
  {
    var q, r := n / 4, n % 4;
    assert n == 4 * q + r;
    if r != 0 { assert n + (4 - r) == 4 * (q + 1); }
  }

  lemma DropsPads(s: Text, n: nat)
    requires PAD !in s && n <= 2
    ensures DropPad(DropPad(s + Padding(n))) == s
  {
    if n == 0 {
      assert s + Padding(0) == s;
    } else {
      assert (s + Padding(n))[..|s| + n - 1] == s + Padding(n - 1);
      if n == 2 { assert (s + Padding(1))[..|s|] == s; } else { assert s + Padding(0) == s; }
    }
  }

  lemma FewPads(n: nat)
    requires n % 4 != 1
    ensures (4 - n % 4) % 4 <= 2
  {
  }

  lemma DropsAllPadding(s: Text)
    requires |s| % 4 != 1 && PAD !in s
    ensures DropPad(DropPad(PadEnd(s))) == s && |PadEnd(s)| % 4 == 0
  {
    PaddedLength(|s|);
    FewPads(|s|);
    DropsPads(s, (4 - |s| % 4) % 4);
  }

  lemma {:induction false} ForeignCharacterFails(s: Text)
    requires PAD in s
    ensures StandardValues(s) == None
  {
    if s[0] != PAD { ForeignCharacterFails(s[1..]); }
  }

  lemma LoneCharacterFails(s: Text)
    requires |s| % 4 == 1
    ensures Atob(PadEnd(s)) == None
  {
    var p := PadEnd(s);
    var t := DropPad(DropPad(p));
    assert |p| == |s| + 3 && t[|s|] == PAD;
    ForeignCharacterFails(t);
  }

  lemma {:induction false} StandardValuesOfUrl(s: Text)
    requires IsUrlText(s)
    ensures StandardValues(ToStandard(s)) == UrlValues(s) && PAD !in ToStandard(s)
  {
    if s != [] { StandardValuesOfUrl(s[1..]); }
  }

  lemma AtobPadded(t: Text)
    requires |t| % 4 != 1 && PAD !in t
    ensures Atob(PadEnd(t)) == match StandardValues(t) case None => None case Some(vs) => FromSextets(vs)
  {
    DropsAllPadding(t);
  }

  /** What base64urlDecode does, without the detour through atob. */
  lemma DecodeIsFromSextets(s: Text)
    ensures Decode(s) == if IsUrlText(s) then FromSextets(UrlValues(s).value) else None
  {
    if IsUrlText(s) {
      StandardValuesOfUrl(s);
      if |s| % 4 == 1 {
        LoneCharacterFails(ToStandard(s));
        FromSextetsDefined(UrlValues(s).value);
      } else {
        AtobPadded(ToStandard(s));
      }
    }
  }

  // ---- round trips ---------------------------------------------------------

  lemma {:induction false} SextetsJoin(b: seq<Byte>)
    ensures FromSextets(Sextets(b)) == Some(b)
  {
    hide First6, Second6, Third6, Fourth6, First8, Second8, Third8;
    if |b| == 1 {
      JoinOne(b[0]);
      assert b == [b[0]];
    } else if |b| == 2 {
      JoinTwo(b[0], b[1]);
      assert b == [b[0], b[1]];
    } else if |b| >= 3 {
      SextetsJoin(b[3..]);
      JoinGroup(b[0], b[1], b[2], Sextets(b[3..]), b[3..]);
      assert b == [b[0], b[1], b[2]] + b[3..];
    }
  }

  lemma JoinOne(x: Byte)
    ensures FromSextets(Sextets([x])) == Some([x])
  {
    var s := [First6(x), Second6(x, 0)];
    assert Sextets([x]) == s;
    assert First8(s[0], s[1]) == x;
    assert FromSextets(s) == Some([First8(s[0], s[1])]);
  }

  lemma JoinTwo(x: Byte, y: Byte)
    ensures FromSextets(Sextets([x, y])) == Some([x, y])
  {
    GroupJoins(x, y, 0);
    assert Sextets([x, y]) == [First6(x), Second6(x, y), Third6(y, 0)];
  }

  lemma JoinGroup(x: Byte, y: Byte, z: Byte, s: seq<Sextet>, rest: seq<Byte>)
    requires FromSextets(s) == Some(rest)
    ensures FromSextets([First6(x), Second6(x, y), Third6(y, z), Fourth6(z)] + s) == Some([x, y, z] + rest)
  {
    var t := [First6(x), Second6(x, y), Third6(y, z), Fourth6(z)] + s;
    GroupJoins(x, y, z);
    assert t[4..] == s;
  }

  lemma GroupJoins(x: Byte, y: Byte, z: Byte)
    ensures First8(First6(x), Second6(x, y)) == x
    ensures Second8(Second6(x, y), Third6(y, z)) == y
    ensures Third8(Third6(y, z), Fourth6(z)) == z
  {
  }

  lemma GroupSplits(a: Sextet, b: Sextet, c: Sextet, d: Sextet)
    ensures First6(First8(a, b)) == a
    ensures Second6(First8(a, b), Second8(b, c)) == b
    ensures Third6(Second8(b, c), Third8(c, d)) == c
    ensures Fourth6(Third8(c, d)) == d
    ensures Second6(First8(a, b), 0) == b / 16 * 16
    ensures Third6(Second8(b, c), 0) == c / 4 * 4
  {
  }

  /** Decoding undoes encoding, for every byte string. */
  lemma DecodeEncode(b: seq<Byte>)
    ensures Decode(Encode(b)) == Some(b)
  {
    EncodeIsUrlText(b);
    UrlTextValues(Sextets(b));
    DecodeIsFromSextets(Encode(b));
    SextetsJoin(b);
  }

  lemma {:induction false} UrlTextValues(s: seq<Sextet>)
    ensures UrlValues(UrlText(s)) == Some(s)
  {
    if s != [] {
      UrlTextValues(s[1..]);
      assert [s[0]] + s[1..] == s;
    }
  }

  lemma {:induction false} UrlValuesText(s: Text)
    requires IsUrlText(s)
    ensures UrlText(UrlValues(s).value) == s
  {
    if s != [] {
      UrlValuesText(s[1..]);
      assert UrlValues(s).value[1..] == UrlValues(s[1..]).value;
      assert [s[0]] + s[1..] == s;
    }
  }

  /** The bits of the last character that no byte uses are zero. */
  predicate ZeroTail(s: seq<Sextet>) {
    (|s| % 4 == 2 ==> s[|s| - 1] % 16 == 0) && (|s| % 4 == 3 ==> s[|s| - 1] % 4 == 0)
  }

  lemma {:induction false} FromSextetsDefined(s: seq<Sextet>)
    ensures FromSextets(s).Some? <==> |s| % 4 != 1
  {
    if |s| >= 4 {
      FromSextetsDefined(s[4..]);
      assert |s[4..]| % 4 == |s| % 4;
    }
  }

  lemma {:induction false} SextetsSplit(s: seq<Sextet>)
    requires FromSextets(s).Some?
    ensures Sextets(FromSextets(s).value) == s <==> ZeroTail(s)
  {
    FromSextetsDefined(s);
    if |s| == 2 {
      SplitShort(s[0], s[1], 0);
      assert s == [s[0], s[1]];
    } else if |s| == 3 {
      SplitShort(s[0], s[1], s[2]);
      assert s == [s[0], s[1], s[2]];
    } else if |s| >= 4 {
      SplitGroup(s);
      SextetsSplit(s[4..]);
      assert s == s[..4] + s[4..];
      TailOfRest(s);
    }
  }

  lemma TailOfRest(s: seq<Sextet>)
    requires |s| >= 4
    ensures ZeroTail(s) <==> ZeroTail(s[4..])
  {
    assert |s[4..]| % 4 == |s| % 4;
    if |s| > 4 { assert s[4..][|s| - 5] == s[|s| - 1]; }
  }

  lemma SplitShort(a: Sextet, b: Sextet, c: Sextet)
    ensures Sextets(FromSextets([a, b]).value) == [a, b] <==> b % 16 == 0
    ensures Sextets(FromSextets([a, b, c]).value) == [a, b, c] <==> c % 4 == 0
  {
    GroupSplits(a, b, c, 0);
    assert Sextets(FromSextets([a, b]).value) == [a, b / 16 * 16];
    assert Sextets(FromSextets([a, b, c]).value) == [a, b, c / 4 * 4];
    assert [a, b, c][2] == c && [a, b][1] == b;
  }

  lemma SplitGroup(s: seq<Sextet>)
    requires |s| >= 4 && FromSextets(s).Some?
    ensures FromSextets(s[4..]).Some?
    ensures Sextets(FromSextets(s).value) == s[..4] + Sextets(FromSextets(s[4..]).value)
  {
    var rest := FromSextets(s[4..]).value;
    var b := FromSextets(s).value;
    assert b[3..] == rest;
    GroupSplits(s[0], s[1], s[2], s[3]);
  }

  /** Exactly which texts decode, and exactly when re-encoding gives the text back. */
  lemma EncodeDecode(s: Text)
    ensures Decode(s).Some? <==> IsUrlText(s) && |s| % 4 != 1
    ensures Decode(s).Some? ==> (Encode(Decode(s).value) == s <==> ZeroTail(UrlValues(s).value))
  {
    DecodeIsFromSextets(s);
    if IsUrlText(s) { FromSextetsDefined(UrlValues(s).value); }
    if Decode(s).Some? {
      var vs := UrlValues(s).value;
      var b := Decode(s).value;
      EncodeIsUrlText(b);
      SextetsSplit(vs);
      UrlValuesText(s);
      UrlTextValues(Sextets(b));
    }
  }

  // ---- the loops -------------------------------------------------------------

  /** base64urlEncode: a binary string built from chunks of 8192 bytes. */
  method Base64urlEncode(bytes: seq<Byte>) returns (text: Text)
    ensures text == Encode(bytes)
    ensures Decode(text) == Some(bytes)
  {
    var binary: seq<Byte> := [];
    var offset := 0;
    while offset < |bytes|
      invariant binary == bytes[..if offset < |bytes| then offset else |bytes|]
    {
      var end := if offset + 8192 < |bytes| then offset + 8192 else |bytes|;
      binary := binary + bytes[offset..end];
      offset := offset + 8192;
    }
    text := StripPadding(ToUrl(Btoa(binary)));
    assert binary == bytes;
    DecodeEncode(bytes);
  }

  /** for (index...) bytes[index] = binary.charCodeAt(index) */
  method CopyBytes(binary: seq<Byte>) returns (bytes: array<Byte>)
    ensures fresh(bytes) && bytes[..] == binary
  {
    bytes := new Byte[|binary|];
    for index := 0 to |binary|
      invariant bytes[..index] == binary[..index]
    {
      bytes[index] := binary[index];
    }
    assert bytes[..] == binary;
  }

  /** base64urlDecode: the decoded characters copied into a fresh byte buffer. */
  method Base64urlDecode(value: Text) returns (ok: bool, bytes: array<Byte>)
    ensures fresh(bytes)
    ensures ok <==> IsUrlText(value) && |value| % 4 != 1
    ensures ok ==> Decode(value) == Some(bytes[..])
  {
    EncodeDecode(value);
    bytes := new Byte[0];
    if !IsUrlText(value) { return false, bytes; }
    var decoded := Atob(PadEnd(ToStandard(value)));
    if decoded.None? { return false, bytes; }
    bytes := CopyBytes(decoded.value);
    ok := true;
  }
}
