/** JSON.parse, and the round trip through the canonical printer, on which every hash and signature rests. */
module JsonParser {
  import opened CodeUnits
  import opened Json
  import opened CanonicalPrinter

  predicate IsJsonSpace(u: Unit) {
    u == 0x20 || u == 0x09 || u == 0x0A || u == 0x0D
  }

  function SkipSpace(s: Text): (r: Text)
    ensures |r| <= |s|
    ensures r == [] || !IsJsonSpace(r[0])
    ensures s != [] && !IsJsonSpace(s[0]) ==> r == s
  {
    if s != [] && IsJsonSpace(s[0]) then SkipSpace(s[1..]) else s
  }

  function HexValue(u: Unit): Option<nat> {
    if IsDigit(u) then Some(u - '0' as int)
    else if 'a' as int <= u <= 'f' as int then Some(u - 'a' as int + 10)
    else if 'A' as int <= u <= 'F' as int then Some(u - 'A' as int + 10)
    else None
  }

  function ParseHex4(s: Text): (r: Option<Unit>)
    requires |s| >= 4
  {
    var a, b, c, d := HexValue(s[0]), HexValue(s[1]), HexValue(s[2]), HexValue(s[3]);
    if a.Some? && b.Some? && c.Some? && d.Some? &&
       a.value * 0x1000 + b.value * 0x100 + c.value * 0x10 + d.value < 0x10000
    then Some(a.value * 0x1000 + b.value * 0x100 + c.value * 0x10 + d.value)
    else None
  }

  /** The unit a one-letter escape denotes. */
  function SimpleEscape(u: Unit): Option<Unit> {
    if u == QUOTE then Some(QUOTE)
    else if u == BACKSLASH then Some(BACKSLASH)
    else if u == '/' as int then Some('/' as int)
    else if u == 'b' as int then Some(8)
    else if u == 't' as int then Some(9)
    else if u == 'n' as int then Some(10)
    else if u == 'f' as int then Some(12)
    else if u == 'r' as int then Some(13)
    else None
  }

  /** One unit of a string body: its value, and how many units spell it. */
  function ParseUnit(s: Text): (r: Option<(Unit, nat)>)
    ensures r.Some? ==> 1 <= r.value.1 <= |s|
  {
    if s == [] || s[0] < 0x20 || s[0] == QUOTE then None
    else if s[0] != BACKSLASH then Some((s[0], 1))
    else if |s| < 2 then None
    else if s[1] == 'u' as int then
      if |s| < 6 then None
      else match ParseHex4(s[2..6]) case Some(u) => Some((u, 6)) case None => None
    else match SimpleEscape(s[1]) case Some(u) => Some((u, 2)) case None => None
  }

  /** The rest of a string, after its opening quote. */
  function ParseString(s: Text): (r: Option<(Text, Text)>)
    ensures r.Some? ==> |r.value.1| < |s|
  {
    if s != [] && s[0] == QUOTE then Some(([], s[1..]))
    else match ParseUnit(s)
      case None => None
      case Some((u, n)) =>
        match ParseString(s[n..])
        case None => None
        case Some((t, rest)) => Some(([u] + t, rest))
  }

  /** Length of the leading run of number characters. */
  function NumberRun(s: Text): (n: nat)
    ensures n <= |s|
    ensures forall i :: 0 <= i < n ==> IsNumberUnit(s[i])
    ensures n < |s| ==> !IsNumberUnit(s[n])
  {
    if s == [] || !IsNumberUnit(s[0]) then 0 else 1 + NumberRun(s[1..])
  }

  function ParseNumber(s: Text): (r: Option<(Value, Text)>)
    ensures r.Some? ==> |r.value.1| < |s|
  {
    var n := NumberRun(s);
    if IsNumberText(s[..n]) then Some((Num(s[..n]), s[n..])) else None
  }

  function ParseLiteral(s: Text, literal: Text, v: Value): (r: Option<(Value, Text)>)
    ensures r.Some? && literal != [] ==> |r.value.1| < |s|
  {
    if literal <= s then Some((v, s[|literal|..])) else None
  }

  /** Setting a property: the last of several equal keys wins. */
  function Put(ms: seq<Member>, key: Text, v: Value): seq<Member> {
    if key in KeysOf(ms) then ms[IndexOf(ms, key) := Member(key, v)] else ms + [Member(key, v)]
  }

  function ParseValue(s0: Text): (r: Option<(Value, Text)>)
    ensures r.Some? ==> |r.value.1| < |s0|
    decreases |s0|, 1
  {
    var s := SkipSpace(s0);
    if s == [] then None
    else if s[0] == 'n' as int then ParseLiteral(s, NULL_TEXT, Null)
    else if s[0] == 't' as int then ParseLiteral(s, TRUE_TEXT, Bool(true))
    else if s[0] == 'f' as int then ParseLiteral(s, FALSE_TEXT, Bool(false))
    else if s[0] == QUOTE then
      match ParseString(s[1..])
      case Some((t, rest)) => Some((Str(t), rest))
      case None => None
    else if s[0] == OPEN_BRACKET then ParseArray(s[1..])
    else if s[0] == OPEN_BRACE then ParseObject(s[1..])
    else ParseNumber(s)
  }

  /** One or more array items, up to and including the closing bracket. */
  function ParseItems(s: Text): (r: Option<(seq<Value>, Text)>)
    ensures r.Some? ==> |r.value.1| < |s|
    decreases |s|, 2
  {
    match ParseValue(s)
    case None => None
    case Some((v, rest)) =>
      var t := SkipSpace(rest);
      if t == [] then None
      else if t[0] == CLOSE_BRACKET then Some(([v], t[1..]))
      else if t[0] != COMMA then None
      else match ParseItems(t[1..])
        case Some((vs, end)) => Some(([v] + vs, end))
        case None => None
  }

  /** A quoted key and its colon. */
  function ParseKey(s0: Text): (r: Option<(Text, Text)>)
    ensures r.Some? ==> |r.value.1| < |s0|
  {
    var s := SkipSpace(s0);
    if s == [] || s[0] != QUOTE then None
    else match ParseString(s[1..])
      case None => None
      case Some((key, rest)) =>
        var t := SkipSpace(rest);
        if t == [] || t[0] != COLON then None else Some((key, t[1..]))
  }

  /** A member: its key, its value and what follows. */
  function ParseMember(s: Text): (r: Option<(Member, Text)>)
    ensures r.Some? ==> |r.value.1| < |s|
    decreases |s|, 2
  {
    match ParseKey(s)
    case None => None
    case Some((key, afterKey)) =>
      match ParseValue(afterKey)
      case None => None
      case Some((v, rest)) => Some((Member(key, v), rest))
  }

  /** One or more members, added to `acc`, up to and including the closing brace. */
  function ParseMembers(s: Text, acc: seq<Member>): (r: Option<(seq<Member>, Text)>)
    ensures r.Some? ==> |r.value.1| < |s|
    decreases |s|, 3
  {
    match ParseMember(s)
    case None => None
    case Some((m, rest)) =>
      var t := SkipSpace(rest);
      var acc' := Put(acc, m.key, m.value);
      if t == [] then None
      else if t[0] == CLOSE_BRACE then Some((acc', t[1..]))
      else if t[0] != COMMA then None
      else ParseMembers(t[1..], acc')
  }

  /** What follows an opening brace. */
  function ParseObject(s: Text): (r: Option<(Value, Text)>)
    ensures r.Some? ==> |r.value.1| < |s|
    decreases |s|, 4
  {
    var t := SkipSpace(s);
    if t != [] && t[0] == CLOSE_BRACE then Some((Obj([]), t[1..]))
    else match ParseMembers(s, [])
      case Some((ms, rest)) => Some((Obj(ms), rest))
      case None => None
  }

  /** What follows an opening bracket. */
  function ParseArray(s: Text): (r: Option<(Value, Text)>)
    ensures r.Some? ==> |r.value.1| < |s|
    decreases |s|, 4
  {
    var t := SkipSpace(s);
    if t != [] && t[0] == CLOSE_BRACKET then Some((Arr([]), t[1..]))
    else match ParseItems(s)
      case Some((items, rest)) => Some((Arr(items), rest))
      case None => None
  }

  /** JSON.parse; `None` stands for a SyntaxError. */
  function Parse(s: Text): Option<Value> {
    match ParseValue(s)
    case Some((v, rest)) => if SkipSpace(rest) == [] then Some(v) else None
    case None => None
  }

  // ---- what parsing undoes ----------------------------------------------

  lemma HexEscapeParses(u: Unit, x: Text)
    ensures ParseUnit(HexEscape(u) + x) == Some((u, 6))
  {
    var h := HexEscape(u);
    var s := h + x;
    assert s[0] == h[0] && s[1] == h[1] && s[2..6] == h[2..6];
    HexDigitsSpell(u);
  }

  lemma HexDigitsSpell(u: Unit)
    ensures ParseHex4(HexEscape(u)[2..6]) == Some(u)
  {
    var q := u / 16;
    var p := q / 16;
    var o := p / 16;
    HexDigitValue(o);
    HexDigitValue(p % 16);
    HexDigitValue(q % 16);
    HexDigitValue(u % 16);
    assert HexEscape(u)[2..6] == [HexDigit(o), HexDigit(p % 16), HexDigit(q % 16), HexDigit(u % 16)];
  }

  lemma HexDigitValue(n: nat)
    requires n < 16
    ensures HexValue(HexDigit(n)) == Some(n)
  {
  }

  lemma EscapeUnitParses(u: Unit, x: Text)
    ensures ParseUnit(EscapeUnit(u) + x) == Some((u, |EscapeUnit(u)|))
    ensures EscapeUnit(u)[0] != QUOTE
  {
    var e := EscapeUnit(u);
    assert (e + x)[0] == e[0];
    if |e| == 2 {
      assert (e + x)[1] == e[1];
    } else if |e| == 6 {
      HexEscapeParses(u, x);
    }
  }

  lemma ParseStringStep(e: Text, u: Unit, x: Text)
    requires e != [] && e[0] != QUOTE
    requires ParseUnit(e + x) == Some((u, |e|))
    ensures ParseString(e + x) ==
            match ParseString(x) case Some((t, rest)) => Some(([u] + t, rest)) case None => None
  {
    assert (e + x)[0] == e[0];
    assert (e + x)[|e|..] == x;
  }

  lemma {:induction false} EscapeParsesTo(s: Text, close: Text)
    requires close != [] && close[0] == QUOTE
    ensures ParseString(Escape(s) + close) == Some((s, close[1..]))
  {
    if s == [] {
      assert Escape(s) + close == close;
    } else if |s| >= 2 && IsHigh(s[0]) && IsLow(s[1]) {
      EscapeParsesTo(s[2..], close);
      PairParses(s, Escape(s[2..]) + close, close[1..]);
      Assoc(s[..2], Escape(s[2..]), close);
    } else {
      EscapeParsesTo(s[1..], close);
      UnitParses(s, Escape(s[1..]) + close, close[1..]);
      Assoc(EscapeUnit(s[0]), Escape(s[1..]), close);
    }
  }

  lemma PairParses(s: Text, x: Text, rest: Text)
    requires |s| >= 2 && IsHigh(s[0]) && IsLow(s[1])
    requires ParseString(x) == Some((s[2..], rest))
    ensures ParseString(s[..2] + x) == Some((s, rest))
  {
    ParseStringStep([s[1]], s[1], x);
    ParseStringStep([s[0]], s[0], [s[1]] + x);
    assert s[..2] + x == [s[0]] + ([s[1]] + x);
    assert [s[0]] + ([s[1]] + s[2..]) == s;
  }

  lemma UnitParses(s: Text, x: Text, rest: Text)
    requires s != []
    requires ParseString(x) == Some((s[1..], rest))
    ensures ParseString(EscapeUnit(s[0]) + x) == Some((s, rest))
  {
    EscapeUnitParses(s[0], x);
    ParseStringStep(EscapeUnit(s[0]), s[0], x);
    assert [s[0]] + s[1..] == s;
  }

  /** Un-escaping a quoted string gives the string back, whatever follows it. */
  lemma EscapeParses(s: Text, rest: Text)
    ensures ParseString(Escape(s) + [QUOTE] + rest) == Some((s, rest))
  {
    EscapeParsesTo(s, [QUOTE] + rest);
    Assoc(Escape(s), [QUOTE], rest);
  }

  /** The text after a printed value cannot be mistaken for part of a number. */
  predicate Delimited(rest: Text) {
    rest == [] || !IsNumberUnit(rest[0])
  }

  lemma {:induction false} NumberRunStops(n: Text, rest: Text)
    requires forall i :: 0 <= i < |n| ==> IsNumberUnit(n[i])
    requires Delimited(rest)
    ensures NumberRun(n + rest) == |n|
  {
    if n != [] {
      NumberRunStops(n[1..], rest);
      assert (n + rest)[1..] == n[1..] + rest;
    } else {
      assert n + rest == rest;
    }
  }

  /** Printed values start with none of the characters that steer the parser elsewhere. */
  lemma PrintStarts(v: Value)
    requires Serializable(v)
    ensures Print(v) != [] && !IsJsonSpace(Print(v)[0]) && Print(v)[0] != CLOSE_BRACKET && Print(v)[0] != CLOSE_BRACE
  {
  }

  /** Parsing a printed value gives the value back with its keys sorted. */
  lemma {:induction false} ParsePrint(v: Value, rest: Text)
    requires WellFormed(v) && Serializable(v) && Delimited(rest)
    ensures ParseValue(Print(v) + rest) == Some((Normalize(v), rest))
    decreases v, 2
  {
    match v
    case Arr(items) =>
      if items == [] {
        ParseEmpty(v, OPEN_BRACKET, CLOSE_BRACKET, rest);
      } else {
        ParsePrintItems(items, rest);
        PrintStarts(items[0]);
        ParseArrayBody(PrintItems(items), NormalizeItems(items), rest);
      }
    case Obj(ms) =>
      if ms == [] {
        ParseEmpty(v, OPEN_BRACE, CLOSE_BRACE, rest);
      } else {
        var ks := SortedKeys(ms);
        SortSorted(KeysOf(ms));
        assert |ks| == |ms|;
        ParsePrintFields(ms, ks, [], rest);
        ParseObjectBody(PrintFields(ms, ks), NormalizeFields(ms, ks), rest);
      }
    case _ => ParseScalar(v, rest);
  }

  lemma ParseArrayBody(body: Text, items: seq<Value>, rest: Text)
    requires body != [] && !IsJsonSpace(body[0]) && body[0] != CLOSE_BRACKET
    requires ParseItems(body + [CLOSE_BRACKET] + rest) == Some((items, rest))
    ensures ParseValue([OPEN_BRACKET] + body + [CLOSE_BRACKET] + rest) == Some((Arr(items), rest))
  {
    var t := body + [CLOSE_BRACKET];
    ParseBracketed(OPEN_BRACKET, t, rest);
    Assoc([OPEN_BRACKET], body, [CLOSE_BRACKET]);
    assert (t + rest)[0] == body[0];
  }

  lemma ParseObjectBody(body: Text, ns: seq<Member>, rest: Text)
    requires body != [] && body[0] == QUOTE
    requires ParseMembers(body + [CLOSE_BRACE] + rest, []) == Some(([] + ns, rest))
    ensures ParseValue([OPEN_BRACE] + body + [CLOSE_BRACE] + rest) == Some((Obj(ns), rest))
  {
    var t := body + [CLOSE_BRACE];
    ParseBracketed(OPEN_BRACE, t, rest);
    Assoc([OPEN_BRACE], body, [CLOSE_BRACE]);
    assert (t + rest)[0] == QUOTE;
    assert [] + ns == ns;
  }

  lemma ParseScalar(v: Value, rest: Text)
    requires Serializable(v) && !v.Arr? && !v.Obj? && Delimited(rest)
    ensures ParseValue(Print(v) + rest) == Some((v, rest))
  {
    var p := Print(v);
    var s := p + rest;
    assert s[0] == p[0];
    assert s[|p|..] == rest && s[..|p|] == p;
    match v
    case Num(n) => NumberRunStops(n, rest);
    case Str(t) =>
      assert s[1..] == Escape(t) + [QUOTE] + rest;
      EscapeParses(t, rest);
    case _ =>
  }

  /** Opening and closing an array or object around an already parsed body. */
  lemma ParseBracketed(open: Unit, body: Text, rest: Text)
    requires open == OPEN_BRACKET || open == OPEN_BRACE
    ensures ParseValue([open] + body + rest) ==
            if open == OPEN_BRACKET then ParseArray(body + rest) else ParseObject(body + rest)
  {
    var s := [open] + body + rest;
    assert s[1..] == body + rest;
    assert SkipSpace(s) == s;
  }

  lemma ParseEmpty(v: Value, open: Unit, close: Unit, rest: Text)
    requires (v == Arr([]) && open == OPEN_BRACKET && close == CLOSE_BRACKET) ||
             (v == Obj([]) && open == OPEN_BRACE && close == CLOSE_BRACE)
    ensures Print(v) == [open, close]
    ensures ParseValue(Print(v) + rest) == Some((v, rest))
  {
    ParseBracketed(open, [close], rest);
    assert [open] + [close] + rest == [open, close] + rest;
    assert SkipSpace([close] + rest) == [close] + rest;
    assert ([close] + rest)[1..] == rest;
  }

  lemma ParseItemsLast(item: Text, v: Value, rest: Text)
    requires ParseValue(item + ([CLOSE_BRACKET] + rest)) == Some((v, [CLOSE_BRACKET] + rest))
    ensures ParseItems(item + [CLOSE_BRACKET] + rest) == Some(([v], rest))
  {
    Assoc(item, [CLOSE_BRACKET], rest);
    var x := [CLOSE_BRACKET] + rest;
    assert x[0] == CLOSE_BRACKET && x[1..] == rest;
  }

  lemma ParseItemsMore(item: Text, v: Value, tail: Text, rest: Text, vs: seq<Value>)
    requires ParseValue(item + ([COMMA] + (tail + [CLOSE_BRACKET] + rest))) == Some((v, [COMMA] + (tail + [CLOSE_BRACKET] + rest)))
    requires ParseItems(tail + [CLOSE_BRACKET] + rest) == Some((vs, rest))
    ensures ParseItems(item + [COMMA] + tail + [CLOSE_BRACKET] + rest) == Some(([v] + vs, rest))
  {
    var more := tail + [CLOSE_BRACKET] + rest;
    var x := [COMMA] + more;
    assert x[0] == COMMA && x[1..] == more;
    Assoc(item + [COMMA], tail, [CLOSE_BRACKET]);
    Assoc(item + [COMMA], tail + [CLOSE_BRACKET], rest);
    Assoc(item, [COMMA], more);
  }

  lemma {:induction false} ParsePrintItems(items: seq<Value>, rest: Text)
    requires items != []
    requires forall i :: 0 <= i < |items| ==> WellFormed(items[i]) && Serializable(items[i])
    ensures ParseItems(PrintItems(items) + [CLOSE_BRACKET] + rest) == Some((NormalizeItems(items), rest))
    decreases items, 1
  {
    if |items| == 1 {
      ParsePrint(items[0], [CLOSE_BRACKET] + rest);
      ParseItemsLast(Print(items[0]), Normalize(items[0]), rest);
      assert NormalizeItems(items) == [Normalize(items[0])];
    } else {
      var tail := PrintItems(items[1..]);
      ParsePrint(items[0], [COMMA] + (tail + [CLOSE_BRACKET] + rest));
      ParsePrintItems(items[1..], rest);
      ParseItemsMore(Print(items[0]), Normalize(items[0]), tail, rest, NormalizeItems(items[1..]));
    }
  }

  lemma ParsePrintKey(key: Text, x: Text)
    ensures ParseKey(Quote(key) + [COLON] + x) == Some((key, x))
  {
    var s := Quote(key) + [COLON] + x;
    assert SkipSpace(s) == s;
    assert s[1..] == Escape(key) + [QUOTE] + ([COLON] + x);
    EscapeParses(key, [COLON] + x);
  }

  lemma {:induction false} ParsePrintMember(ms: seq<Member>, key: Text, rest: Text)
    requires WellFormed(Obj(ms)) && Serializable(Obj(ms)) && key in KeysOf(ms) && Delimited(rest)
    ensures ParseMember(PrintField(ms, key) + rest) == Some((Member(key, Normalize(ms[IndexOf(ms, key)].value)), rest))
    decreases ms, 0
  {
    var v := ms[IndexOf(ms, key)].value;
    assert PrintField(ms, key) + rest == Quote(key) + [COLON] + (Print(v) + rest);
    ParsePrintKey(key, Print(v) + rest);
    ParsePrint(v, rest);
  }

  lemma ParseMembersLast(field: Text, m: Member, rest: Text, acc: seq<Member>)
    requires ParseMember(field + ([CLOSE_BRACE] + rest)) == Some((m, [CLOSE_BRACE] + rest)) && m.key !in KeysOf(acc)
    ensures ParseMembers(field + [CLOSE_BRACE] + rest, acc) == Some((acc + [m], rest))
  {
    Assoc(field, [CLOSE_BRACE], rest);
    var x := [CLOSE_BRACE] + rest;
    assert x[0] == CLOSE_BRACE && x[1..] == rest;
  }

  lemma ParseMembersMore(field: Text, m: Member, tail: Text, rest: Text, acc: seq<Member>, ns: seq<Member>)
    requires ParseMember(field + ([COMMA] + (tail + [CLOSE_BRACE] + rest))) == Some((m, [COMMA] + (tail + [CLOSE_BRACE] + rest)))
    requires m.key !in KeysOf(acc)
    requires ParseMembers(tail + [CLOSE_BRACE] + rest, acc + [m]) == Some((acc + [m] + ns, rest))
    ensures ParseMembers(field + [COMMA] + tail + [CLOSE_BRACE] + rest, acc) == Some((acc + ([m] + ns), rest))
  {
    var more := tail + [CLOSE_BRACE] + rest;
    var x := [COMMA] + more;
    assert x[0] == COMMA && x[1..] == more;
    Assoc(field + [COMMA], tail, [CLOSE_BRACE]);
    Assoc(field + [COMMA], tail + [CLOSE_BRACE], rest);
    Assoc(field, [COMMA], more);
    Assoc(acc, [m], ns);
  }

  lemma {:induction false} ParsePrintFields(ms: seq<Member>, keys: seq<Text>, acc: seq<Member>, rest: Text)
    requires keys != [] && Distinct(keys) && WellFormed(Obj(ms)) && Serializable(Obj(ms))
    requires forall k :: k in keys ==> k in KeysOf(ms) && k !in KeysOf(acc)
    ensures ParseMembers(PrintFields(ms, keys) + [CLOSE_BRACE] + rest, acc) == Some((acc + NormalizeFields(ms, keys), rest))
    decreases ms, |keys| + 1
  {
    var key := keys[0];
    var m := Member(key, Normalize(ms[IndexOf(ms, key)].value));
    assert key in keys;
    if |keys| == 1 {
      ParsePrintMember(ms, key, [CLOSE_BRACE] + rest);
      ParseMembersLast(PrintField(ms, key), m, rest, acc);
      assert NormalizeFields(ms, keys) == [m];
    } else {
      var tail := PrintFields(ms, keys[1..]);
      ParsePrintMember(ms, key, [COMMA] + (tail + [CLOSE_BRACE] + rest));
      assert KeysOf(acc + [m]) == KeysOf(acc) + [key];
      ParsePrintFields(ms, keys[1..], acc + [m], rest);
      ParseMembersMore(PrintField(ms, key), m, tail, rest, acc, NormalizeFields(ms, keys[1..]));
    }
  }

  /** JSON.parse after canonicalize sorts keys and changes nothing else. */
  lemma ParseCanonical(v: Value)
    requires WellFormed(v) && Canonicalize(v).Some?
    ensures Parse(Canonicalize(v).value) == Some(Normalize(v))
    ensures Same(v, Normalize(v))
  {
    ParsePrint(v, []);
    assert Print(v) + [] == Print(v);
    NormalizeSame(v);
  }

  /** Two serializable values print alike exactly when they are equal up to key order. */
  lemma PrintAlikeIffSame(v: Value, w: Value)
    requires WellFormed(v) && WellFormed(w) && Serializable(v) && Serializable(w)
    ensures Print(v) == Print(w) <==> Same(v, w)
  {
    if Same(v, w) {
      SameValuesPrintAlike(v, w);
    }
    if Print(v) == Print(w) {
      ParsePrint(v, []);
      ParsePrint(w, []);
      assert Normalize(v) == Normalize(w);
      NormalizeSame(v);
      NormalizeSame(w);
      SameSymmetric(w, Normalize(w));
      SameTransitive(v, Normalize(v), w);
    }
  }

  /** Two accepted values have one canonical text exactly when they are equal up to key order. */
  lemma CanonicalTextIsInjective(v: Value, w: Value)
    requires WellFormed(v) && WellFormed(w) && Canonicalize(v).Some? && Canonicalize(w).Some?
    ensures Canonicalize(v) == Canonicalize(w) <==> Same(v, w)
  {
    PrintAlikeIffSame(v, w);
  }

  /** No printed value is a proper prefix of another followed by a delimiter. */
  lemma PrintIsSelfDelimiting(v: Value, r: Text, w: Value, q: Text)
    requires WellFormed(v) && WellFormed(w) && Serializable(v) && Serializable(w)
    requires Delimited(r) && Delimited(q) && Print(v) + r == Print(w) + q
    ensures Same(v, w) && r == q
  {
    ParsePrint(v, r);
    ParsePrint(w, q);
    NormalizeSame(v);
    NormalizeSame(w);
    SameSymmetric(w, Normalize(w));
    SameTransitive(v, Normalize(v), w);
  }

  /** canonicalizeJson: equal texts exactly for values equal up to key order and undefined properties. */
  lemma JwsTextIsInjective(v: Value, w: Value)
    requires WellFormed(v) && WellFormed(w) && JwsSerializable(v) && JwsSerializable(w)
    ensures WellFormed(Strip(v)) && WellFormed(Strip(w))
    ensures CanonicalizeJson(v) == CanonicalizeJson(w) <==> Same(Strip(v), Strip(w))
  {
    JwsPrintIsPrintOfStrip(v);
    JwsPrintIsPrintOfStrip(w);
    PrintAlikeIffSame(Strip(v), Strip(w));
  }

  lemma SameNormalForm(v: Value, w: Value)
    requires WellFormed(v) && WellFormed(w) && Serializable(v) && Serializable(w) && Same(v, w)
    ensures Normalize(v) == Normalize(w)
  {
    SameValuesPrintAlike(v, w);
    ParsePrint(v, []);
    ParsePrint(w, []);
  }
}
