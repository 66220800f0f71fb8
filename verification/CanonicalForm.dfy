/** What the canonical text is, said without its printer: the shortest JSON of its value, with its keys in order. */
module CanonicalForm {
  import opened CodeUnits
  import opened Json
  import opened CanonicalPrinter
  import opened JsonParser
  import opened Utf8
  import opened CompactJws

  // ---- keys in order -----------------------------------------------------------

  /** At every level, each key comes before the keys that follow it. */
  ghost predicate InKeyOrder(v: Value) {
    match v
    case Arr(items) => forall i :: 0 <= i < |items| ==> InKeyOrder(items[i])
    case Obj(ms) =>
      && (forall i, j :: 0 <= i < j < |ms| ==> Before(ms[i].key, ms[j].key))
      && (forall i :: 0 <= i < |ms| ==> InKeyOrder(ms[i].value))
    case _ => true
  }

  lemma {:induction false} NormalInKeyOrder(v: Value)
    requires WellFormed(v)
    ensures InKeyOrder(Normalize(v))
    decreases v
  {
    match v
    case Arr(items) =>
      forall i | 0 <= i < |items| ensures InKeyOrder(Normalize(items[i])) { NormalInKeyOrder(items[i]); }
    case Obj(ms) =>
      var ks := SortedKeys(ms);
      var ns := NormalizeFields(ms, ks);
      SortSorted(KeysOf(ms));
      forall i, j | 0 <= i < j < |ns| ensures Before(ns[i].key, ns[j].key) { LessIsBefore(ks[i], ks[j]); }
      forall i | 0 <= i < |ns| ensures InKeyOrder(ns[i].value) { NormalInKeyOrder(ms[IndexOf(ms, ks[i])].value); }
    case _ =>
  }

  // ---- strings ------------------------------------------------------------------

  predicate IsUpperHex(u: Unit) { 'A' as int <= u <= 'F' as int }

  /** The hexadecimal escapes of a string body are written in lower case. */
  predicate LowerEscapes(t: Text) {
    t == [] || t[0] == QUOTE ||
    match ParseUnit(t)
    case None => true
    case Some((_, n)) => (n == 6 ==> forall i :: 2 <= i < 6 ==> !IsUpperHex(t[i])) && LowerEscapes(t[n..])
  }

  lemma LowerDigitSpells(u: Unit)
    requires HexValue(u).Some? && !IsUpperHex(u)
    ensures HexDigit(HexValue(u).value) == u
  {
  }

  lemma HexSpells(h: Text, u: Unit)
    requires |h| == 4 && ParseHex4(h) == Some(u) && forall i :: 0 <= i < 4 ==> !IsUpperHex(h[i])
    ensures h == HexEscape(u)[2..6]
  {
    var a, b, c, d := HexValue(h[0]).value, HexValue(h[1]).value, HexValue(h[2]).value, HexValue(h[3]).value;
    LowerDigitSpells(h[0]);
    LowerDigitSpells(h[1]);
    LowerDigitSpells(h[2]);
    LowerDigitSpells(h[3]);
    HexNibbles(a, b, c, d);
    assert HexEscape(u)[2..6] == [HexDigit(a), HexDigit(b), HexDigit(c), HexDigit(d)];
  }

  lemma HexNibbles(a: nat, b: nat, c: nat, d: nat)
    requires a < 16 && b < 16 && c < 16 && d < 16
    ensures var u := a * 0x1000 + b * 0x100 + c * 0x10 + d;
            u % 16 == d && u / 16 % 16 == c && u / 16 / 16 % 16 == b && u / 16 / 16 / 16 == a
  {
    var u := a * 0x1000 + b * 0x100 + c * 0x10 + d;
    assert u / 16 == a * 0x100 + b * 0x10 + c;
    assert u / 16 / 16 == a * 0x10 + b;
  }

  /** An escape is at least as long as the printed unit; if not longer and in lower case, it is that. */
  lemma EscapeIsShortest(t: Text, u: Unit, n: nat)
    requires ParseUnit(t) == Some((u, n)) && n > 1
    ensures |EscapeUnit(u)| <= n <= |t|
    ensures n == |EscapeUnit(u)| && (n == 6 ==> forall i :: 2 <= i < 6 ==> !IsUpperHex(t[i])) ==> t[..n] == EscapeUnit(u)
  {
    if n == 6 && |EscapeUnit(u)| == 6 && forall i :: 2 <= i < 6 ==> !IsUpperHex(t[i]) {
      HexSpells(t[2..6], u);
      assert t[..6] == [t[0], t[1]] + t[2..6];
    } else if n == 2 && |EscapeUnit(u)| == 2 {
      assert t[..2] == [t[0], t[1]];
    }
  }

  lemma {:induction false} PairedSuffix(t: Text, n: nat)
    requires WellPaired(t) && n <= |t| && forall i :: 0 <= i < n ==> t[i] < 0x80
    ensures WellPaired(t[n..])
  {
    if n > 0 {
      PairedSuffix(t[1..], n - 1);
      assert t[1..][n - 1..] == t[n..];
    }
  }

  lemma EscapeIsAscii(t: Text, u: Unit, n: nat)
    requires ParseUnit(t) == Some((u, n)) && n > 1
    ensures forall i :: 0 <= i < n ==> t[i] < 0x80
  {
    if n == 6 {
      assert t[2..6][0] == t[2] && t[2..6][1] == t[3] && t[2..6][2] == t[4] && t[2..6][3] == t[5];
    }
  }

  /** A unit that is copied or escaped is spelled by its printed form, or at greater length. */
  lemma UnitIsShortest(t: Text, u: Unit, n: nat)
    requires WellPaired(t) && ParseUnit(t) == Some((u, n)) && !(n == 1 && IsHigh(u))
    ensures WellPaired(t[n..]) && |EscapeUnit(u)| <= n && (IsHigh(u) ==> n == 6)
    ensures |EscapeUnit(u)| == n && LowerEscapes(t) ==> t[..n] == EscapeUnit(u)
    ensures LowerEscapes(t) ==> LowerEscapes(t[n..])
  {
    if n > 1 {
      EscapeIsAscii(t, u, n);
      PairedSuffix(t, n);
      EscapeIsShortest(t, u, n);
    } else {
      assert t[..1] == [u];
    }
  }

  /** The escape of a string whose first unit is not copied as part of a pair. */
  lemma EscapeFirst(u: Unit, more: Text)
    ensures |Escape([u] + more)| <= |EscapeUnit(u)| + |Escape(more)|
    ensures more != [] && IsHigh(u) && IsLow(more[0]) ==> |Escape([u] + more)| < |EscapeUnit(u)| + |Escape(more)|
    ensures !(more != [] && IsHigh(u) && IsLow(more[0])) ==> Escape([u] + more) == EscapeUnit(u) + Escape(more)
  {
    var s := [u] + more;
    assert s[1..] == more;
    if more != [] && IsHigh(u) && IsLow(more[0]) { assert s[2..] == more[1..]; }
  }

  /** No well-paired body spells the string in fewer units, and none but the printed one in as many, in lower case. */
  lemma {:induction false} ShortestBody(t: Text, s: Text, rest: Text)
    requires WellPaired(t) && ParseString(t) == Some((s, rest))
    ensures WellPaired(rest) && |Escape(s)| + 1 <= |t| - |rest|
    ensures |Escape(s)| + 1 == |t| - |rest| && LowerEscapes(t) ==> t == Escape(s) + [QUOTE] + rest
    decreases |t|
  {
    hide EscapeUnit, ParseUnit, LowerEscapes, WellPaired, Escape;
    if t[0] == QUOTE {
      ShortestEnd(t);
    } else {
      var (u, n) := ParseUnit(t).value;
      var more := ParseString(t[n..]).value.0;
      UnitStarts(t, u, n);
      if n == 1 && IsHigh(u) {
        ShortestPair(t, more, rest);
      } else {
        hide ParseString;
        UnitIsShortest(t, u, n);
        ShortestBody(t[n..], more, rest);
        ShortestStep(t, u, n, more, rest);
      }
    }
  }

  lemma ShortestEnd(t: Text)
    requires WellPaired(t) && t != [] && t[0] == QUOTE
    ensures WellPaired(t[1..]) && Escape([]) == [] && t == Escape([]) + [QUOTE] + t[1..]
  {
  }

  lemma ShortestStep(t: Text, u: Unit, n: nat, more: Text, rest: Text)
    requires n <= |t| && |EscapeUnit(u)| <= n && |Escape(more)| + 1 <= |t| - n - |rest|
    requires |EscapeUnit(u)| == n && LowerEscapes(t) ==> t[..n] == EscapeUnit(u)
    requires LowerEscapes(t) && |Escape(more)| + 1 == |t| - n - |rest| ==> t[n..] == Escape(more) + [QUOTE] + rest
    ensures |Escape([u] + more)| + 1 <= |t| - |rest|
    ensures |Escape([u] + more)| + 1 == |t| - |rest| && LowerEscapes(t) ==> t == Escape([u] + more) + [QUOTE] + rest
  {
    hide Escape, EscapeUnit, LowerEscapes;
    EscapeFirst(u, more);
    assert t == t[..n] + t[n..];
    if |Escape([u] + more)| + 1 == |t| - |rest| && LowerEscapes(t) {
      assert t == EscapeUnit(u) + (Escape(more) + [QUOTE] + rest);
    }
  }

  lemma UnitStarts(t: Text, u: Unit, n: nat)
    requires ParseUnit(t) == Some((u, n))
    ensures n == 1 ==> t[0] == u
  {
  }

  /** A raw high surrogate starts a pair. */
  lemma PairStarts(t: Text)
    requires WellPaired(t) && t != [] && IsHigh(t[0])
    ensures |t| >= 2 && IsLow(t[1]) && WellPaired(t[2..]) && t[1..][1..] == t[2..]
    ensures LowerEscapes(t) ==> LowerEscapes(t[2..])
    ensures ParseString(t[1..]) ==
            match ParseString(t[2..]) case Some((tail, rest)) => Some(([t[1]] + tail, rest)) case None => None
  {
    ParseStringStep([t[1]], t[1], t[2..]);
    assert t[1..] == [t[1]] + t[2..];
    assert LowerEscapes(t) ==> LowerEscapes(t[1..]);
  }

  lemma EscapePair(high: Unit, low: Unit, tail: Text)
    requires IsHigh(high) && IsLow(low)
    ensures Escape([high] + ([low] + tail)) == [high, low] + Escape(tail)
  {
    var s := [high] + ([low] + tail);
    assert s[..2] == [high, low] && s[2..] == tail;
  }

  /** A pair is copied. */
  lemma {:induction false} ShortestPair(t: Text, more: Text, rest: Text)
    requires WellPaired(t) && t != [] && IsHigh(t[0]) && ParseString(t[1..]) == Some((more, rest))
    ensures WellPaired(rest) && |Escape([t[0]] + more)| + 1 <= |t| - |rest|
    ensures |Escape([t[0]] + more)| + 1 == |t| - |rest| && LowerEscapes(t) ==> t == Escape([t[0]] + more) + [QUOTE] + rest
    decreases |t|, 0
  {
    hide Escape, LowerEscapes, WellPaired, ParseString;
    PairStarts(t);
    var tail := ParseString(t[2..]).value.0;
    ShortestBody(t[2..], tail, rest);
    EscapePair(t[0], t[1], tail);
    assert t == [t[0], t[1]] + t[2..];
    if |Escape(tail)| + 1 == |t[2..]| - |rest| && LowerEscapes(t) {
      assert t == [t[0], t[1]] + (Escape(tail) + [QUOTE] + rest);
    }
  }

  lemma LowerStep(e: Text, u: Unit, x: Text)
    requires e != [] && ParseUnit(e + x) == Some((u, |e|)) && LowerEscapes(x)
    requires |e| == 6 ==> forall i :: 2 <= i < 6 ==> !IsUpperHex(e[i])
    ensures LowerEscapes(e + x)
  {
    assert (e + x)[|e|..] == x;
  }

  lemma EscapeUnitInLowerCase(u: Unit)
    ensures |EscapeUnit(u)| == 6 ==> forall i :: 2 <= i < 6 ==> !IsUpperHex(EscapeUnit(u)[i])
  {
  }

  lemma ClosedInLowerCase(close: Text)
    requires close != [] && close[0] == QUOTE
    ensures LowerEscapes(close)
  {
  }

  lemma PairInLowerCase(s: Text, x: Text)
    requires |s| >= 2 && IsHigh(s[0]) && IsLow(s[1]) && LowerEscapes(x)
    ensures LowerEscapes(s[..2] + x)
  {
    hide LowerEscapes;
    LowerStep([s[1]], s[1], x);
    LowerStep([s[0]], s[0], [s[1]] + x);
    assert s[..2] + x == [s[0]] + ([s[1]] + x);
  }

  lemma UnitInLowerCase(u: Unit, x: Text)
    requires LowerEscapes(x)
    ensures LowerEscapes(EscapeUnit(u) + x)
  {
    hide LowerEscapes, EscapeUnit, ParseUnit;
    EscapeUnitParses(u, x);
    EscapeUnitInLowerCase(u);
    LowerStep(EscapeUnit(u), u, x);
  }

  lemma {:induction false} EscapedInLowerCase(s: Text, close: Text)
    requires close != [] && close[0] == QUOTE
    ensures LowerEscapes(Escape(s) + close)
  {
    hide LowerEscapes, EscapeUnit;
    if s == [] {
      assert Escape(s) + close == close;
      ClosedInLowerCase(close);
    } else if |s| >= 2 && IsHigh(s[0]) && IsLow(s[1]) {
      EscapedInLowerCase(s[2..], close);
      Assoc(s[..2], Escape(s[2..]), close);
      PairInLowerCase(s, Escape(s[2..]) + close);
    } else {
      EscapedInLowerCase(s[1..], close);
      Assoc(EscapeUnit(s[0]), Escape(s[1..]), close);
      UnitInLowerCase(s[0], Escape(s[1..]) + close);
    }
  }

  lemma SkippedSpace(t: Text)
    requires WellPaired(t)
    ensures WellPaired(SkipSpace(t)) && |SkipSpace(t)| <= |t|
    ensures |SkipSpace(t)| == |t| ==> SkipSpace(t) == t
  {
    if t != [] && IsJsonSpace(t[0]) { SkippedSpace(t[1..]); }
  }

  /**
   A printed string is well paired and its escapes are in lower case; no well-paired JSON text of the same
   string is shorter, and of those as short it is the only one with its escapes in lower case.
   */
  lemma ShortestString(s: Text, t: Text)
    ensures var p := Print(Str(s)); WellPaired(p) && Parse(p) == Some(Str(s)) && LowerEscapes(p[1..])
    ensures WellPaired(t) && Parse(t) == Some(Str(s)) ==>
              && |Print(Str(s))| <= |t|
              && (|Print(Str(s))| == |t| && LowerEscapes(t[1..]) ==> t == Print(Str(s)))
  {
    PrintedString(s);
    if WellPaired(t) && Parse(t) == Some(Str(s)) { NoShorterString(s, t); }
  }

  lemma PrintedString(s: Text)
    ensures var p := Print(Str(s)); WellPaired(p) && Parse(p) == Some(Str(s)) && LowerEscapes(p[1..])
  {
    hide Escape, LowerEscapes, WellPaired, ParseValue;
    QuotePaired(s);
    ParsePrint(Str(s), []);
    assert Print(Str(s)) + [] == Print(Str(s));
    EscapedInLowerCase(s, [QUOTE]);
    assert Print(Str(s))[1..] == Escape(s) + [QUOTE];
  }

  lemma NoShorterString(s: Text, t: Text)
    requires WellPaired(t) && Parse(t) == Some(Str(s))
    ensures |Print(Str(s))| <= |t|
    ensures |Print(Str(s))| == |t| && LowerEscapes(t[1..]) ==> t == Print(Str(s))
  {
    hide Escape, LowerEscapes, ParseString, ParseValue, WellPaired;
    var t' := SkipSpace(t);
    SkippedSpace(t);
    OnlyStringsAreQuoted(t, s);
    AfterUnit(t');
    var rest := ParseString(t'[1..]).value.1;
    ShortestBody(t'[1..], s, rest);
    assert |Print(Str(s))| == |Escape(s)| + 2;
    if |Print(Str(s))| == |t| && LowerEscapes(t[1..]) {
      assert t' == t && rest == [];
      assert t == [QUOTE] + t[1..];
      assert Escape(s) + [QUOTE] + rest == Escape(s) + [QUOTE];
    }
  }

  lemma AfterUnit(t: Text)
    requires WellPaired(t) && t != [] && t[0] < 0x80
    ensures WellPaired(t[1..])
  {
  }

  lemma OnlyStringsAreQuoted(t: Text, s: Text)
    requires ParseValue(t).Some? && ParseValue(t).value.0 == Str(s)
    ensures var t' := SkipSpace(t); t' != [] && t'[0] == QUOTE && ParseString(t'[1..]) == Some((s, ParseValue(t).value.1))
  {
  }

  // ---- whole values ----------------------------------------------------------------

  /** What a member adds to the text of its object, with a colon and a comma. */
  function FieldLength(m: Member): nat
    requires Serializable(m.value)
  {
    |Quote(m.key)| + |Print(m.value)| + 2
  }

  function FieldsLength(ms: seq<Member>): nat
    requires forall i :: 0 <= i < |ms| ==> Serializable(ms[i].value)
  {
    if ms == [] then 0 else FieldLength(ms[0]) + FieldsLength(ms[1..])
  }

  function LengthOf(ms: seq<Member>, keys: seq<Text>): nat
    requires forall i :: 0 <= i < |ms| ==> Serializable(ms[i].value)
    requires forall k :: k in keys ==> k in KeysOf(ms)
  {
    if keys == [] then 0 else FieldLength(Member(keys[0], ms[IndexOf(ms, keys[0])].value)) + LengthOf(ms, keys[1..])
  }

  lemma {:induction false} LengthOfInsert(ms: seq<Member>, k: Text, keys: seq<Text>)
    requires forall i :: 0 <= i < |ms| ==> Serializable(ms[i].value)
    requires k in KeysOf(ms) && forall x :: x in keys ==> x in KeysOf(ms)
    ensures LengthOf(ms, Insert(k, keys)) == FieldLength(Member(k, ms[IndexOf(ms, k)].value)) + LengthOf(ms, keys)
  {
    hide FieldLength;
    if keys != [] && !Less(k, keys[0]) { LengthOfInsert(ms, k, keys[1..]); }
  }

  lemma {:induction false} LengthOfSort(ms: seq<Member>, keys: seq<Text>)
    requires forall i :: 0 <= i < |ms| ==> Serializable(ms[i].value)
    requires forall x :: x in keys ==> x in KeysOf(ms)
    ensures LengthOf(ms, Sort(keys)) == LengthOf(ms, keys)
  {
    hide FieldLength;
    if keys != [] {
      LengthOfSort(ms, keys[1..]);
      LengthOfInsert(ms, keys[0], Sort(keys[1..]));
    }
  }

  lemma {:induction false} LengthOfSuffix(ms: seq<Member>, i: nat)
    requires Distinct(KeysOf(ms)) && i <= |ms| && forall i :: 0 <= i < |ms| ==> Serializable(ms[i].value)
    ensures LengthOf(ms, KeysOf(ms)[i..]) == FieldsLength(ms[i..])
    decreases |ms| - i
  {
    hide FieldLength;
    if i < |ms| {
      LengthOfSuffix(ms, i + 1);
      DistinctKeys(ms, i);
      assert KeysOf(ms)[i..][1..] == KeysOf(ms)[i + 1..] && ms[i..][1..] == ms[i + 1..];
    }
  }

  lemma {:induction false} PrintedFields(ms: seq<Member>, keys: seq<Text>)
    requires forall i :: 0 <= i < |ms| ==> Serializable(ms[i].value)
    requires keys != [] && forall k :: k in keys ==> k in KeysOf(ms)
    ensures |PrintFields(ms, keys)| + 1 == LengthOf(ms, keys)
    decreases |keys|
  {
    if |keys| > 1 { PrintedFields(ms, keys[1..]); }
  }

  /** The length of an object's text does not depend on the order of its keys. */
  lemma PrintedObject(ms: seq<Member>)
    requires Distinct(KeysOf(ms)) && forall i :: 0 <= i < |ms| ==> Serializable(ms[i].value)
    ensures |Print(Obj(ms))| == if ms == [] then 2 else FieldsLength(ms) + 1
  {
    hide FieldLength;
    if ms != [] {
      SortSorted(KeysOf(ms));
      PrintedFields(ms, SortedKeys(ms));
      LengthOfSort(ms, KeysOf(ms));
      LengthOfSuffix(ms, 0);
      assert KeysOf(ms)[0..] == KeysOf(ms) && ms[0..] == ms;
    }
  }

  lemma {:induction false} FieldsAppend(ms: seq<Member>, m: Member)
    requires (forall i :: 0 <= i < |ms| ==> Serializable(ms[i].value)) && Serializable(m.value)
    ensures FieldsLength(ms + [m]) == FieldsLength(ms) + FieldLength(m)
  {
    hide FieldLength;
    if ms == [] {
      assert ms + [m] == [m];
    } else {
      FieldsAppend(ms[1..], m);
      assert (ms + [m])[1..] == ms[1..] + [m];
    }
  }

  lemma {:induction false} FieldsUpdate(ms: seq<Member>, i: nat, m: Member)
    requires (forall j :: 0 <= j < |ms| ==> Serializable(ms[j].value)) && Serializable(m.value) && i < |ms|
    ensures FieldsLength(ms[i := m]) <= FieldsLength(ms) + FieldLength(m)
  {
    hide FieldLength;
    if i == 0 {
      assert ms[0 := m][1..] == ms[1..];
    } else {
      FieldsUpdate(ms[1..], i - 1, m);
      assert ms[i := m][1..] == ms[1..][i - 1 := m];
    }
  }

  /** Values that came out of a parser. */
  predicate Sound(v: Value) { WellFormed(v) && Serializable(v) }

  lemma PutSound(ms: seq<Member>, m: Member)
    requires Sound(Obj(ms)) && Sound(m.value)
    ensures Sound(Obj(JsonParser.Put(ms, m.key, m.value)))
    ensures FieldsLength(JsonParser.Put(ms, m.key, m.value)) <= FieldsLength(ms) + FieldLength(m)
  {
    hide FieldLength;
    var next := JsonParser.Put(ms, m.key, m.value);
    if m.key in KeysOf(ms) {
      FieldsUpdate(ms, IndexOf(ms, m.key), m);
      assert KeysOf(next) == KeysOf(ms);
    } else {
      FieldsAppend(ms, m);
      assert KeysOf(next) == KeysOf(ms) + [m.key];
    }
  }

  lemma NumberRunIsAscii(s: Text)
    requires WellPaired(s)
    ensures WellPaired(s[NumberRun(s)..])
  {
    PairedSuffix(s, NumberRun(s));
  }

  /** A text cut after something of this length, at least, and read as well paired from there. */
  predicate Reads(s: Text, rest: Text, least: int) {
    WellPaired(rest) && least <= |s| - |rest|
  }

  lemma ScalarReads(s: Text)
    requires WellPaired(s) && s == SkipSpace(s) && s != [] && s[0] != OPEN_BRACKET && s[0] != OPEN_BRACE && ParseValue(s).Some?
    ensures var (v, rest) := ParseValue(s).value; Sound(v) && Reads(s, rest, |Print(v)|)
  {
    var (v, rest) := ParseValue(s).value;
    match v
    case Num(n) => NumberRunIsAscii(s);
    case Str(t) =>
      AfterUnit(s);
      ShortestBody(s[1..], t, rest);
    case Null => LiteralReads(s, NULL_TEXT);
    case Bool(b) => LiteralReads(s, if b then TRUE_TEXT else FALSE_TEXT);
  }

  lemma LiteralReads(s: Text, literal: Text)
    requires WellPaired(s) && literal <= s && forall i :: 0 <= i < |literal| ==> literal[i] < 0x80
    ensures WellPaired(s[|literal|..])
  {
    PairedSuffix(s, |literal|);
  }

  /** Whatever the parser reads is spelled in at least as many units as it is printed in. */
  lemma {:induction false} ValueReads(s0: Text)
    requires WellPaired(s0) && ParseValue(s0).Some?
    ensures var (v, rest) := ParseValue(s0).value; Sound(v) && Reads(s0, rest, |Print(v)|)
    decreases |s0|, 1
  {
    hide WellPaired, Sound;
    var s := SkipSpace(s0);
    SkippedSpace(s0);
    SkippedTwice(s0);
    if s[0] == OPEN_BRACKET {
      AfterUnit(s);
      ArrayReads(s[1..]);
    } else if s[0] == OPEN_BRACE {
      AfterUnit(s);
      ObjectReads(s[1..]);
    } else {
      ScalarReads(s);
    }
  }

  lemma SkippedTwice(s: Text)
    ensures SkipSpace(SkipSpace(s)) == SkipSpace(s)
    ensures ParseValue(SkipSpace(s)) == ParseValue(s)
  {
  }

  lemma {:induction false} ArrayReads(s: Text)
    requires WellPaired(s) && ParseArray(s).Some?
    ensures var (v, rest) := ParseArray(s).value; Sound(v) && Reads(s, rest, |Print(v)| - 1)
    decreases |s|, 4
  {
    hide WellPaired, ParseValue, ParseItems;
    var t := SkipSpace(s);
    SkippedSpace(s);
    if t != [] && t[0] == CLOSE_BRACKET {
      AfterUnit(t);
    } else {
      ItemsRead(s);
    }
  }

  lemma {:induction false} ItemsRead(s: Text)
    requires WellPaired(s) && ParseItems(s).Some?
    ensures var (vs, rest) := ParseItems(s).value; vs != [] && Sound(Arr(vs)) && Reads(s, rest, |PrintItems(vs)| + 1)
    decreases |s|, 2
  {
    hide WellPaired, ParseValue;
    ValueReads(s);
    var (v, rest) := ParseValue(s).value;
    var t := SkipSpace(rest);
    SkippedSpace(rest);
    AfterUnit(t);
    if t[0] == COMMA { ItemsRead(t[1..]); }
  }

  lemma KeyReads(s0: Text)
    requires WellPaired(s0) && ParseKey(s0).Some?
    ensures var (key, rest) := ParseKey(s0).value; Reads(s0, rest, |Quote(key)| + 1)
  {
    hide WellPaired, ParseString, Escape;
    var s := SkipSpace(s0);
    SkippedSpace(s0);
    AfterUnit(s);
    var (key, rest) := ParseString(s[1..]).value;
    ShortestBody(s[1..], key, rest);
    var t := SkipSpace(rest);
    SkippedSpace(rest);
    AfterUnit(t);
  }

  lemma {:induction false} MemberReads(s: Text)
    requires WellPaired(s) && ParseMember(s).Some?
    ensures var (m, rest) := ParseMember(s).value; Sound(m.value) && Reads(s, rest, FieldLength(m) - 1)
    decreases |s|, 2
  {
    hide WellPaired, ParseKey, ParseValue, Quote;
    KeyReads(s);
    ValueReads(ParseKey(s).value.1);
  }

  lemma {:induction false} MembersRead(s: Text, acc: seq<Member>)
    requires WellPaired(s) && Sound(Obj(acc)) && ParseMembers(s, acc).Some?
    ensures var (ms, rest) := ParseMembers(s, acc).value;
            ms != [] && Sound(Obj(ms)) && Reads(s, rest, FieldsLength(ms) - FieldsLength(acc))
    decreases |s|, 3
  {
    hide WellPaired, ParseMember, FieldLength, FieldsLength, Sound;
    MemberReads(s);
    var (m, rest) := ParseMember(s).value;
    var t := SkipSpace(rest);
    SkippedSpace(rest);
    AfterUnit(t);
    PutSound(acc, m);
    if t[0] == COMMA { MembersRead(t[1..], JsonParser.Put(acc, m.key, m.value)); }
  }

  lemma {:induction false} ObjectReads(s: Text)
    requires WellPaired(s) && ParseObject(s).Some?
    ensures var (v, rest) := ParseObject(s).value; Sound(v) && Reads(s, rest, |Print(v)| - 1)
    decreases |s|, 4
  {
    hide WellPaired, ParseMembers;
    var t := SkipSpace(s);
    SkippedSpace(s);
    if t != [] && t[0] == CLOSE_BRACE {
      AfterUnit(t);
      PrintedObject([]);
    } else {
      MembersRead(s, []);
      PrintedObject(ParseMembers(s, []).value.0);
    }
  }

  /** No well-paired JSON text of the value, with its keys in any order, is shorter than its canonical text. */
  lemma CanonicalTextIsShortest(v: Value, t: Text)
    requires WellFormed(v) && Canonicalize(v).Some?
    ensures WellPaired(Canonicalize(v).value)
    ensures WellPaired(t) && Parse(t).Some? && Same(v, Parse(t).value) ==> |Canonicalize(v).value| <= |t|
  {
    PrintPaired(v);
    if WellPaired(t) && Parse(t).Some? && Same(v, Parse(t).value) {
      ValueReads(t);
      SameValuesPrintAlike(v, Parse(t).value);
    }
  }

  /** Parsing the canonical text gives the value with its keys in order at every level. */
  lemma CanonicalKeysInOrder(v: Value)
    requires WellFormed(v) && Canonicalize(v).Some?
    ensures Parse(Canonicalize(v).value).Some?
    ensures var w := Parse(Canonicalize(v).value).value; WellFormed(w) && Same(v, w) && InKeyOrder(w)
  {
    ParseCanonical(v);
    NormalizeSame(v);
    NormalInKeyOrder(v);
  }

  // ---- spelled out -----------------------------------------------------------------

  lemma Words()
    ensures Print(Null) == Units("null") && Print(Bool(true)) == Units("true") && Print(Bool(false)) == Units("false")
    ensures Print(Arr([])) == Units("[]") && Print(Obj([])) == Units("{}")
  {
  }

  lemma Marks()
    ensures [OPEN_BRACKET] == Units("[") && [CLOSE_BRACKET] == Units("]") && [OPEN_BRACE] == Units("{") && [CLOSE_BRACE] == Units("}")
    ensures [COMMA] == Units(",") && [COLON] == Units(":") && [QUOTE] == Units("\"")
  {
  }

  lemma TwoItems(u: Value, w: Value)
    requires Serializable(u) && Serializable(w)
    ensures Print(Arr([u, w])) == Units("[") + (Print(u) + Units(",") + Print(w)) + Units("]")
  {
    hide Escape, IsNumberText, Units;
    Marks();
    assert [u, w][1..] == [w];
    assert PrintItems([u, w]) == Print(u) + [COMMA] + Print(w);
  }

  lemma TwoMembers(k: Text, u: Value, l: Text, w: Value)
    requires Serializable(u) && Serializable(w) && Before(k, l)
    ensures Print(Obj([Member(l, w), Member(k, u)])) ==
            Units("{") + (Print(Str(k)) + Units(":") + Print(u) + Units(",") + (Print(Str(l)) + Units(":") + Print(w))) + Units("}")
  {
    hide Escape, IsNumberText, Units;
    var ms := [Member(l, w), Member(k, u)];
    Marks();
    TwoKeys(k, l);
    assert KeysOf(ms) == [l, k];
    hide Less, Before, Sort;
    assert ms[IndexOf(ms, k)] == ms[1] && ms[IndexOf(ms, l)] == ms[0];
    assert [k, l][1..] == [l];
    assert PrintFields(ms, [k, l]) == PrintField(ms, k) + [COMMA] + PrintField(ms, l);
  }

  lemma TwoKeys(k: Text, l: Text)
    requires Before(k, l)
    ensures k != l && Sort([l, k]) == [k, l]
  {
    LessIsBefore(k, l);
    LessIrreflexive(k);
    assert [l, k][1..] == [k] && Sort([k]) == [k];
    if Less(l, k) {
      LessTransitive(k, l, k);
      assert false;
    }
    assert Sort([l, k]) == Insert(l, [k]);
  }

  lemma OneUnit(u: Unit)
    ensures Print(Str([u])) == [QUOTE] + EscapeUnit(u) + [QUOTE]
  {
    assert Escape([u]) == EscapeUnit(u) + Escape([]);
  }

  /** The two-unit escapes. */
  lemma ShortEscape(u: Unit)
    ensures var p := Print(Str([u]));
            && (u == 8 ==> p == Units("\"\\b\"")) && (u == 9 ==> p == Units("\"\\t\"")) && (u == 10 ==> p == Units("\"\\n\""))
            && (u == 12 ==> p == Units("\"\\f\"")) && (u == 13 ==> p == Units("\"\\r\""))
            && (u == 0x22 ==> p == Units("\"\\\"\"")) && (u == 0x5C ==> p == Units("\"\\\\\""))
  {
    OneUnit(u);
    hide Print;
  }

  /** Other control characters and lone surrogates are written in four lower-case hexadecimal digits. */
  lemma LongEscape(u: Unit)
    requires u < 0x20 || 0xD800 <= u < 0xE000
    requires u !in {8, 9, 10, 12, 13}
    ensures var d := Units("0123456789abcdef");
            Print(Str([u])) == Units("\"\\u") + [d[u / 16 / 16 / 16], d[u / 16 / 16 % 16], d[u / 16 % 16], d[u % 16]] + Units("\"")
  {
    OneUnit(u);
    hide Print;
    Digit(u / 16 / 16 / 16);
    Digit(u / 16 / 16 % 16);
    Digit(u / 16 % 16);
    Digit(u % 16);
  }

  lemma Digit(n: nat)
    requires n < 16
    ensures HexDigit(n) == Units("0123456789abcdef")[n]
  {
  }

  /** Everything else is copied. */
  lemma Copied(u: Unit)
    requires u >= 0x20 && u != 0x22 && u != 0x5C && !(0xD800 <= u < 0xE000)
    ensures Print(Str([u])) == Units("\"") + [u] + Units("\"")
  {
    OneUnit(u);
    hide Print;
  }
}
