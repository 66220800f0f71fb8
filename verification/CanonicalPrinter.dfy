/** The two canonical JSON printers: `canonicalize` guards its input and refuses undefined; `canonicalizeJson` drops it. */
module CanonicalPrinter {
  import opened CodeUnits
  import opened Json

  const MAX_JSON_DEPTH: nat := 64
  const MAX_JSON_NODES: nat := 50_000

  const NULL_TEXT: Text := ['n' as int, 'u' as int, 'l' as int, 'l' as int]
  const TRUE_TEXT: Text := ['t' as int, 'r' as int, 'u' as int, 'e' as int]
  const FALSE_TEXT: Text := ['f' as int, 'a' as int, 'l' as int, 's' as int, 'e' as int]
  const QUOTE: Unit := '\"' as int
  const BACKSLASH: Unit := '\\' as int
  const COMMA: Unit := ',' as int
  const COLON: Unit := ':' as int
  const OPEN_BRACKET: Unit := '[' as int
  const CLOSE_BRACKET: Unit := ']' as int
  const OPEN_BRACE: Unit := '{' as int
  const CLOSE_BRACE: Unit := '}' as int

  predicate IsHigh(u: Unit) { 0xD800 <= u < 0xDC00 }

  predicate IsLow(u: Unit) { 0xDC00 <= u < 0xE000 }

  function HexDigit(n: nat): Unit
    requires n < 16
  {
    if n < 10 then '0' as int + n else 'a' as int + (n - 10)
  }

  function HexEscape(u: Unit): Text {
    [BACKSLASH, 'u' as int, HexDigit(u / 16 / 16 / 16), HexDigit(u / 16 / 16 % 16), HexDigit(u / 16 % 16), HexDigit(u % 16)]
  }

  /** JSON.stringify of one code unit that is not half of a surrogate pair. */
  function EscapeUnit(u: Unit): Text {
    if u == QUOTE then [BACKSLASH, QUOTE]
    else if u == BACKSLASH then [BACKSLASH, BACKSLASH]
    else if u == 8 then [BACKSLASH, 'b' as int]
    else if u == 9 then [BACKSLASH, 't' as int]
    else if u == 10 then [BACKSLASH, 'n' as int]
    else if u == 12 then [BACKSLASH, 'f' as int]
    else if u == 13 then [BACKSLASH, 'r' as int]
    else if u < 0x20 || IsHigh(u) || IsLow(u) then HexEscape(u)
    else [u]
  }

  /** Surrogate pairs are copied; lone surrogates are escaped. */
  function Escape(s: Text): Text {
    if s == [] then []
    else if |s| >= 2 && IsHigh(s[0]) && IsLow(s[1]) then s[..2] + Escape(s[2..])
    else EscapeUnit(s[0]) + Escape(s[1..])
  }

  function Quote(s: Text): Text {
    [QUOTE] + Escape(s) + [QUOTE]
  }

  function SortedKeys(ms: seq<Member>): (ks: seq<Text>)
    ensures forall k :: k in ks <==> k in KeysOf(ms)
  {
    Sort(KeysOf(ms))
  }

  /** canonicalizeValidated, on values none of whose parts make it throw. */
  function Print(v: Value): (t: Text)
    requires Serializable(v)
    decreases v
  {
    match v
    case Null => NULL_TEXT
    case Bool(b) => if b then TRUE_TEXT else FALSE_TEXT
    case Num(n) => n
    case Str(s) => Quote(s)
    case Arr(items) => [OPEN_BRACKET] + PrintItems(items) + [CLOSE_BRACKET]
    case Obj(ms) => [OPEN_BRACE] + PrintFields(ms, SortedKeys(ms)) + [CLOSE_BRACE]
  }

  function PrintItems(items: seq<Value>): Text
    requires forall i :: 0 <= i < |items| ==> Serializable(items[i])
    decreases items
  {
    if items == [] then []
    else if |items| == 1 then Print(items[0])
    else Print(items[0]) + [COMMA] + PrintItems(items[1..])
  }

  function PrintField(ms: seq<Member>, key: Text): Text
    requires forall i :: 0 <= i < |ms| ==> Serializable(ms[i].value)
    requires key in KeysOf(ms)
    decreases ms, 0
  {
    Quote(key) + [COLON] + Print(ms[IndexOf(ms, key)].value)
  }

  function PrintFields(ms: seq<Member>, keys: seq<Text>): Text
    requires forall i :: 0 <= i < |ms| ==> Serializable(ms[i].value)
    requires forall k :: k in keys ==> k in KeysOf(ms)
    decreases ms, |keys| + 1
  {
    if keys == [] then []
    else if |keys| == 1 then PrintField(ms, keys[0])
    else PrintField(ms, keys[0]) + [COMMA] + PrintFields(ms, keys[1..])
  }

  /** Within the limits assertJsonComplexity enforces by default. */
  predicate WithinLimits(v: Value) {
    Size(v) <= MAX_JSON_NODES && DepthAtMost(v, MAX_JSON_DEPTH)
  }

  /** canonicalize; `None` stands for a thrown error. */
  function Canonicalize(v: Value): (r: Option<Text>)
  {
    if WithinLimits(v) && Serializable(v) then Some(Print(v)) else None
  }

  /** The value with its keys sorted at every level. */
  function Normalize(v: Value): Value
    decreases v
  {
    match v
    case Arr(items) => Arr(NormalizeItems(items))
    case Obj(ms) => Obj(NormalizeFields(ms, SortedKeys(ms)))
    case _ => v
  }

  function NormalizeItems(items: seq<Value>): (r: seq<Value>)
    ensures |r| == |items|
    ensures forall i :: 0 <= i < |items| ==> r[i] == Normalize(items[i])
    decreases items
  {
    if items == [] then [] else [Normalize(items[0])] + NormalizeItems(items[1..])
  }

  function NormalizeFields(ms: seq<Member>, keys: seq<Text>): (r: seq<Member>)
    requires forall k :: k in keys ==> k in KeysOf(ms)
    ensures |r| == |keys|
    ensures forall i :: 0 <= i < |keys| ==>
              keys[i] in KeysOf(ms) && r[i] == Member(keys[i], Normalize(ms[IndexOf(ms, keys[i])].value))
    decreases ms, |keys|
  {
    if keys == [] then []
    else [Member(keys[0], Normalize(ms[IndexOf(ms, keys[0])].value))] + NormalizeFields(ms, keys[1..])
  }

  /** Equal up to key order, so printed alike. */
  lemma {:induction false} SameValuesPrintAlike(v: Value, w: Value)
    requires WellFormed(v) && WellFormed(w) && Serializable(v) && Serializable(w)
    requires Same(v, w)
    ensures Print(v) == Print(w)
    decreases v
  {
    match (v, w)
    case (Arr(xs), Arr(ys)) => SameItemsPrintAlike(xs, ys);
    case (Obj(ms), Obj(ns)) =>
      SortSorted(KeysOf(ms));
      SortSorted(KeysOf(ns));
      SortedUnique(SortedKeys(ms), SortedKeys(ns));
      SameFieldsPrintAlike(ms, ns, SortedKeys(ms));
    case _ =>
  }

  lemma {:induction false} SameItemsPrintAlike(xs: seq<Value>, ys: seq<Value>)
    requires |xs| == |ys|
    requires forall i :: 0 <= i < |xs| ==> WellFormed(xs[i]) && WellFormed(ys[i])
    requires forall i :: 0 <= i < |xs| ==> Serializable(xs[i]) && Serializable(ys[i]) && Same(xs[i], ys[i])
    ensures PrintItems(xs) == PrintItems(ys)
    decreases xs
  {
    if xs != [] {
      SameValuesPrintAlike(xs[0], ys[0]);
      SameItemsPrintAlike(xs[1..], ys[1..]);
    }
  }

  lemma {:induction false} SameFieldsPrintAlike(ms: seq<Member>, ns: seq<Member>, keys: seq<Text>)
    requires WellFormed(Obj(ms)) && WellFormed(Obj(ns)) && Serializable(Obj(ms)) && Serializable(Obj(ns))
    requires Same(Obj(ms), Obj(ns))
    requires forall k :: k in keys ==> k in KeysOf(ms)
    ensures PrintFields(ms, keys) == PrintFields(ns, keys)
    decreases ms, |keys|
  {
    if keys != [] {
      var k := keys[0];
      assert k in KeysOf(ns);
      SameValuesPrintAlike(ms[IndexOf(ms, k)].value, ns[IndexOf(ns, k)].value);
      SameFieldsPrintAlike(ms, ns, keys[1..]);
    }
  }

  /** Sorting keys changes nothing but key order. */
  lemma {:induction false} NormalizeSame(v: Value)
    requires WellFormed(v)
    ensures Same(v, Normalize(v)) && WellFormed(Normalize(v))
    ensures Serializable(v) ==> Serializable(Normalize(v))
    decreases v
  {
    match v
    case Arr(items) =>
      forall i | 0 <= i < |items|
        ensures Same(items[i], Normalize(items[i])) && WellFormed(Normalize(items[i]))
        ensures Serializable(items[i]) ==> Serializable(Normalize(items[i]))
      {
        NormalizeSame(items[i]);
      }
    case Obj(ms) =>
      var ks := SortedKeys(ms);
      var ns := NormalizeFields(ms, ks);
      SortSorted(KeysOf(ms));
      assert KeysOf(ns) == ks;
      forall j | 0 <= j < |ns|
        ensures Same(ms[IndexOf(ms, ks[j])].value, ns[j].value) && WellFormed(ns[j].value)
        ensures Serializable(v) ==> Serializable(ns[j].value)
      {
        NormalizeSame(ms[IndexOf(ms, ks[j])].value);
      }
      forall i, j | 0 <= i < |ms| && 0 <= j < |ns| && ms[i].key == ns[j].key
        ensures Same(ms[i].value, ns[j].value)
      {
        DistinctKeys(ms, i);
      }
    case _ =>
  }

  lemma DistinctKeys(ms: seq<Member>, i: nat)
    requires Distinct(KeysOf(ms)) && i < |ms|
    ensures ms[i].key in KeysOf(ms) && IndexOf(ms, ms[i].key) == i
  {
    var ks := KeysOf(ms);
    assert ks[i] in ks;
    var j := IndexOf(ms, ks[i]);
    assert ks[j] == ks[i];
  }

  // ---- the complexity guard does not see key order -------------------------

  function SizeOf(ms: seq<Member>, keys: seq<Text>): nat
    requires forall k :: k in keys ==> k in KeysOf(ms)
  {
    if keys == [] then 0 else Size(ms[IndexOf(ms, keys[0])].value) + SizeOf(ms, keys[1..])
  }

  lemma {:induction false} SizeOfInsert(ms: seq<Member>, k: Text, keys: seq<Text>)
    requires k in KeysOf(ms) && forall x :: x in keys ==> x in KeysOf(ms)
    ensures SizeOf(ms, Insert(k, keys)) == Size(ms[IndexOf(ms, k)].value) + SizeOf(ms, keys)
  {
    if keys != [] && !Less(k, keys[0]) { SizeOfInsert(ms, k, keys[1..]); }
  }

  lemma {:induction false} SizeOfSort(ms: seq<Member>, keys: seq<Text>)
    requires forall x :: x in keys ==> x in KeysOf(ms)
    ensures SizeOf(ms, Sort(keys)) == SizeOf(ms, keys)
  {
    if keys != [] {
      SizeOfSort(ms, keys[1..]);
      SizeOfInsert(ms, keys[0], Sort(keys[1..]));
    }
  }

  lemma {:induction false} SizeOfSuffix(ms: seq<Member>, i: nat)
    requires Distinct(KeysOf(ms)) && i <= |ms|
    ensures SizeOf(ms, KeysOf(ms)[i..]) == SizeMembers(ms[i..])
    decreases |ms| - i
  {
    if i < |ms| {
      SizeOfSuffix(ms, i + 1);
      DistinctKeys(ms, i);
    }
  }

  lemma {:induction false} NormalizeKeepsSize(v: Value)
    requires WellFormed(v)
    ensures Size(Normalize(v)) == Size(v)
    decreases v, 0
  {
    match v
    case Arr(items) => NormalizeItemsKeepSize(items);
    case Obj(ms) =>
      NormalizeFieldsKeepSize(ms, SortedKeys(ms));
      SizeOfSort(ms, KeysOf(ms));
      SizeOfSuffix(ms, 0);
      assert KeysOf(ms)[0..] == KeysOf(ms) && ms[0..] == ms;
    case _ =>
  }

  lemma {:induction false} NormalizeItemsKeepSize(items: seq<Value>)
    requires forall i :: 0 <= i < |items| ==> WellFormed(items[i])
    ensures SizeItems(NormalizeItems(items)) == SizeItems(items)
    decreases items, 0
  {
    if items != [] {
      NormalizeKeepsSize(items[0]);
      NormalizeItemsKeepSize(items[1..]);
    }
  }

  lemma {:induction false} NormalizeFieldsKeepSize(ms: seq<Member>, keys: seq<Text>)
    requires WellFormed(Obj(ms)) && forall k :: k in keys ==> k in KeysOf(ms)
    ensures SizeMembers(NormalizeFields(ms, keys)) == SizeOf(ms, keys)
    decreases ms, |keys|
  {
    if keys != [] {
      NormalizeKeepsSize(ms[IndexOf(ms, keys[0])].value);
      NormalizeFieldsKeepSize(ms, keys[1..]);
    }
  }

  lemma {:induction false} MemberWithin(ms: seq<Member>, i: nat, d: int)
    requires i < |ms| && MembersWithin(ms, d)
    ensures DepthAtMost(ms[i].value, d)
  {
    if i > 0 { MemberWithin(ms[1..], i - 1, d); }
  }

  lemma {:induction false} MemberSize(ms: seq<Member>, i: nat)
    requires i < |ms|
    ensures Size(ms[i].value) <= SizeMembers(ms)
  {
    if i > 0 { MemberSize(ms[1..], i - 1); }
  }

  lemma {:induction false} NormalizeKeepsDepth(v: Value, d: int)
    requires WellFormed(v) && DepthAtMost(v, d)
    ensures DepthAtMost(Normalize(v), d)
    decreases v, 0
  {
    match v
    case Arr(items) => NormalizeItemsKeepDepth(items, d - 1);
    case Obj(ms) => NormalizeFieldsKeepDepth(ms, SortedKeys(ms), d - 1);
    case _ =>
  }

  lemma {:induction false} NormalizeItemsKeepDepth(items: seq<Value>, d: int)
    requires (forall i :: 0 <= i < |items| ==> WellFormed(items[i])) && ItemsWithin(items, d)
    ensures ItemsWithin(NormalizeItems(items), d)
    decreases items, 0
  {
    if items != [] {
      NormalizeKeepsDepth(items[0], d);
      NormalizeItemsKeepDepth(items[1..], d);
    }
  }

  lemma {:induction false} NormalizeFieldsKeepDepth(ms: seq<Member>, keys: seq<Text>, d: int)
    requires WellFormed(Obj(ms)) && MembersWithin(ms, d) && forall k :: k in keys ==> k in KeysOf(ms)
    ensures MembersWithin(NormalizeFields(ms, keys), d)
    decreases ms, |keys|
  {
    if keys != [] {
      var i := IndexOf(ms, keys[0]);
      MemberWithin(ms, i, d);
      NormalizeKeepsDepth(ms[i].value, d);
      NormalizeFieldsKeepDepth(ms, keys[1..], d);
    }
  }

  lemma {:induction false} DepthMonotone(v: Value, d: int, e: int)
    requires DepthAtMost(v, d) && d <= e
    ensures DepthAtMost(v, e)
    decreases v, 0
  {
    match v
    case Arr(items) => ItemsDepthMonotone(items, d - 1, e - 1);
    case Obj(ms) =>
      forall i | 0 <= i < |ms| ensures DepthAtMost(ms[i].value, e - 1) {
        MemberWithin(ms, i, d - 1);
        DepthMonotone(ms[i].value, d - 1, e - 1);
      }
      AllMembersWithin(ms, e - 1);
    case _ =>
  }

  lemma {:induction false} ItemsDepthMonotone(items: seq<Value>, d: int, e: int)
    requires ItemsWithin(items, d) && d <= e
    ensures ItemsWithin(items, e)
    decreases items, 0
  {
    if items != [] {
      DepthMonotone(items[0], d, e);
      ItemsDepthMonotone(items[1..], d, e);
    }
  }

  /** A property of a value within the limits is within the limits. */
  lemma MemberWithinLimits(ms: seq<Member>, i: nat)
    requires i < |ms| && WithinLimits(Obj(ms))
    ensures WithinLimits(ms[i].value)
  {
    MemberSize(ms, i);
    MemberWithin(ms, i, MAX_JSON_DEPTH - 1);
    DepthMonotone(ms[i].value, MAX_JSON_DEPTH - 1, MAX_JSON_DEPTH);
  }

  lemma PropertyWithinLimits(ms: seq<Member>, k: Text)
    requires WithinLimits(Obj(ms)) && !Get(ms, k).Undefined?
    ensures WithinLimits(Get(ms, k))
  {
    MemberWithinLimits(ms, IndexOf(ms, k));
  }

  lemma NormalMemberWithin(ms: seq<Member>, i: nat, d: int)
    requires Distinct(KeysOf(ms)) && i < |ms| && MembersWithin(NormalizeFields(ms, SortedKeys(ms)), d)
    ensures DepthAtMost(Normalize(ms[i].value), d)
  {
    var ks := SortedKeys(ms);
    DistinctKeys(ms, i);
    assert ms[i].key in ks;
    var j :| 0 <= j < |ks| && ks[j] == ms[i].key;
    MemberWithin(NormalizeFields(ms, ks), j, d);
  }

  lemma {:induction false} NormalizeHidesNoDepth(v: Value, d: int)
    requires WellFormed(v) && DepthAtMost(Normalize(v), d)
    ensures DepthAtMost(v, d)
    decreases v, 0
  {
    match v
    case Arr(items) => NormalizeItemsHideNoDepth(items, d - 1);
    case Obj(ms) =>
      forall i | 0 <= i < |ms| ensures DepthAtMost(ms[i].value, d - 1) {
        NormalMemberWithin(ms, i, d - 1);
        NormalizeHidesNoDepth(ms[i].value, d - 1);
      }
      AllMembersWithin(ms, d - 1);
    case _ =>
  }

  lemma {:induction false} NormalizeItemsHideNoDepth(items: seq<Value>, d: int)
    requires (forall i :: 0 <= i < |items| ==> WellFormed(items[i])) && ItemsWithin(NormalizeItems(items), d)
    ensures ItemsWithin(items, d)
    decreases items, 0
  {
    if items != [] {
      assert NormalizeItems(items)[1..] == NormalizeItems(items[1..]);
      NormalizeHidesNoDepth(items[0], d);
      NormalizeItemsHideNoDepth(items[1..], d);
    }
  }

  lemma {:induction false} AllMembersWithin(ms: seq<Member>, d: int)
    requires forall i :: 0 <= i < |ms| ==> DepthAtMost(ms[i].value, d)
    ensures MembersWithin(ms, d)
  {
    if ms != [] { AllMembersWithin(ms[1..], d); }
  }

  /** The guard accepts a value exactly when it accepts it with its keys sorted. */
  lemma NormalizeKeepsLimits(v: Value)
    requires WellFormed(v)
    ensures WithinLimits(Normalize(v)) <==> WithinLimits(v)
  {
    NormalizeKeepsSize(v);
    if DepthAtMost(v, MAX_JSON_DEPTH) { NormalizeKeepsDepth(v, MAX_JSON_DEPTH); }
    if DepthAtMost(Normalize(v), MAX_JSON_DEPTH) { NormalizeHidesNoDepth(v, MAX_JSON_DEPTH); }
  }

  // ---- canonicalizeJson -------------------------------------------------

  /** Undefined is tolerated as a property value only. */
  predicate JwsSerializable(v: Value) {
    match v
    case Arr(items) => forall i :: 0 <= i < |items| ==> JwsSerializable(items[i])
    case Obj(ms) => forall i :: 0 <= i < |ms| ==> ms[i].value.Undefined? || JwsSerializable(ms[i].value)
    case Undefined => false
    case Unsupported => false
    case _ => true
  }

  function DefinedKeys(ms: seq<Member>): (ks: seq<Text>)
    ensures forall k :: k in ks <==> exists i :: 0 <= i < |ms| && ms[i].key == k && !ms[i].value.Undefined?
  {
    if ms == [] then []
    else
      var rest := DefinedKeys(ms[1..]);
      assert forall i :: 1 <= i < |ms| ==> ms[i] == ms[1..][i - 1];
      if ms[0].value.Undefined? then rest else [ms[0].key] + rest
  }

  function PrintJws(v: Value): Text
    requires WellFormed(v) && JwsSerializable(v)
    decreases v
  {
    match v
    case Null => NULL_TEXT
    case Bool(b) => if b then TRUE_TEXT else FALSE_TEXT
    case Num(n) => n
    case Str(s) => Quote(s)
    case Arr(items) => [OPEN_BRACKET] + PrintJwsItems(items) + [CLOSE_BRACKET]
    case Obj(ms) =>
      DefinedKeysLookup(ms);
      [OPEN_BRACE] + PrintJwsFields(ms, Sort(DefinedKeys(ms))) + [CLOSE_BRACE]
  }

  function PrintJwsItems(items: seq<Value>): Text
    requires forall i :: 0 <= i < |items| ==> WellFormed(items[i]) && JwsSerializable(items[i])
    decreases items
  {
    if items == [] then []
    else if |items| == 1 then PrintJws(items[0])
    else PrintJws(items[0]) + [COMMA] + PrintJwsItems(items[1..])
  }

  predicate Printable(ms: seq<Member>, key: Text) {
    key in KeysOf(ms) &&
    var v := ms[IndexOf(ms, key)].value;
    WellFormed(v) && JwsSerializable(v)
  }

  function PrintJwsField(ms: seq<Member>, key: Text): Text
    requires Printable(ms, key)
    decreases ms, 0
  {
    Quote(key) + [COLON] + PrintJws(ms[IndexOf(ms, key)].value)
  }

  function PrintJwsFields(ms: seq<Member>, keys: seq<Text>): Text
    requires forall k :: k in keys ==> Printable(ms, k)
    decreases ms, |keys| + 1
  {
    if keys == [] then []
    else if |keys| == 1 then PrintJwsField(ms, keys[0])
    else PrintJwsField(ms, keys[0]) + [COMMA] + PrintJwsFields(ms, keys[1..])
  }

  lemma DefinedKeysLookup(ms: seq<Member>)
    requires Distinct(KeysOf(ms))
    ensures forall k :: k in DefinedKeys(ms) ==>
              k in KeysOf(ms) && !ms[IndexOf(ms, k)].value.Undefined?
  {
    forall k | k in DefinedKeys(ms) ensures k in KeysOf(ms) && !ms[IndexOf(ms, k)].value.Undefined? {
      var i :| 0 <= i < |ms| && ms[i].key == k && !ms[i].value.Undefined?;
      DistinctKeys(ms, i);
    }
  }

  /** canonicalizeJson; `None` stands for a thrown error. */
  function CanonicalizeJson(v: Value): Option<Text>
    requires WellFormed(v)
  {
    if JwsSerializable(v) then Some(PrintJws(v)) else None
  }

  /** The value without its undefined properties. */
  function Strip(v: Value): Value
    decreases v
  {
    match v
    case Arr(items) => Arr(StripItems(items))
    case Obj(ms) => Obj(StripMembers(ms))
    case _ => v
  }

  function StripItems(items: seq<Value>): (r: seq<Value>)
    ensures |r| == |items|
    ensures forall i :: 0 <= i < |items| ==> r[i] == Strip(items[i])
    decreases items
  {
    if items == [] then [] else [Strip(items[0])] + StripItems(items[1..])
  }

  function StripMembers(ms: seq<Member>): (r: seq<Member>)
    ensures KeysOf(r) == DefinedKeys(ms)
    ensures forall m :: m in r ==> exists i :: 0 <= i < |ms| && !ms[i].value.Undefined? && m == Member(ms[i].key, Strip(ms[i].value))
    decreases ms
  {
    if ms == [] then []
    else
      var rest := StripMembers(ms[1..]);
      assert forall i :: 1 <= i < |ms| ==> ms[i] == ms[1..][i - 1];
      if ms[0].value.Undefined? then rest
      else
        assert KeysOf([Member(ms[0].key, Strip(ms[0].value))] + rest) == [ms[0].key] + KeysOf(rest);
        [Member(ms[0].key, Strip(ms[0].value))] + rest
  }

  lemma {:induction false} DefinedKeysDistinct(ms: seq<Member>)
    requires Distinct(KeysOf(ms))
    ensures Distinct(DefinedKeys(ms))
  {
    if ms != [] {
      assert KeysOf(ms)[1..] == KeysOf(ms[1..]);
      DefinedKeysDistinct(ms[1..]);
      forall i | 0 <= i < |ms[1..]| ensures ms[1..][i].key != ms[0].key {
        assert KeysOf(ms)[0] != KeysOf(ms)[i + 1];
      }
      assert ms[0].key !in DefinedKeys(ms[1..]);
    }
  }

  lemma {:induction false} StripWellFormed(v: Value)
    requires WellFormed(v)
    ensures WellFormed(Strip(v))
    ensures JwsSerializable(v) ==> Serializable(Strip(v))
    decreases v
  {
    match v
    case Arr(items) =>
      forall i | 0 <= i < |items|
        ensures WellFormed(Strip(items[i])) && (JwsSerializable(items[i]) ==> Serializable(Strip(items[i])))
      {
        StripWellFormed(items[i]);
      }
    case Obj(ms) =>
      DefinedKeysDistinct(ms);
      var ns := StripMembers(ms);
      forall j | 0 <= j < |ns|
        ensures WellFormed(ns[j].value) && (JwsSerializable(v) ==> Serializable(ns[j].value))
      {
        assert ns[j] in ns;
        var i :| 0 <= i < |ms| && !ms[i].value.Undefined? && ns[j] == Member(ms[i].key, Strip(ms[i].value));
        StripWellFormed(ms[i].value);
      }
    case _ =>
  }

  /** canonicalizeJson is canonicalize's printer after dropping undefined properties. */
  lemma {:induction false} JwsPrintIsPrintOfStrip(v: Value)
    requires WellFormed(v) && JwsSerializable(v)
    ensures WellFormed(Strip(v)) && Serializable(Strip(v)) && PrintJws(v) == Print(Strip(v))
    decreases v
  {
    StripWellFormed(v);
    match v
    case Arr(items) => JwsItemsArePrintOfStrip(items);
    case Obj(ms) =>
      DefinedKeysLookup(ms);
      JwsFieldsArePrintOfStrip(ms, Sort(DefinedKeys(ms)));
    case _ =>
  }

  lemma {:induction false} JwsItemsArePrintOfStrip(items: seq<Value>)
    requires WellFormed(Arr(items)) && JwsSerializable(Arr(items))
    ensures Serializable(Arr(StripItems(items))) && PrintJwsItems(items) == PrintItems(StripItems(items))
    decreases items
  {
    StripWellFormed(Arr(items));
    if items != [] {
      JwsPrintIsPrintOfStrip(items[0]);
      JwsItemsArePrintOfStrip(items[1..]);
      assert StripItems(items)[1..] == StripItems(items[1..]);
    }
  }

  lemma {:induction false} JwsFieldsArePrintOfStrip(ms: seq<Member>, keys: seq<Text>)
    requires WellFormed(Obj(ms)) && JwsSerializable(Obj(ms)) && Serializable(Obj(StripMembers(ms)))
    requires forall k :: k in keys ==> k in DefinedKeys(ms) && Printable(ms, k)
    ensures PrintJwsFields(ms, keys) == PrintFields(StripMembers(ms), keys)
    decreases ms, |keys|
  {
    if keys != [] {
      StripLookup(ms, keys[0]);
      JwsPrintIsPrintOfStrip(ms[IndexOf(ms, keys[0])].value);
      JwsFieldsArePrintOfStrip(ms, keys[1..]);
    }
  }

  lemma StripLookup(ms: seq<Member>, k: Text)
    requires Distinct(KeysOf(ms)) && k in DefinedKeys(ms)
    ensures k in KeysOf(ms) && k in KeysOf(StripMembers(ms))
    ensures StripMembers(ms)[IndexOf(StripMembers(ms), k)].value == Strip(ms[IndexOf(ms, k)].value)
  {
    var ns := StripMembers(ms);
    var j := IndexOf(ns, k);
    assert ns[j] in ns;
    var i :| 0 <= i < |ms| && !ms[i].value.Undefined? && ns[j] == Member(ms[i].key, Strip(ms[i].value));
    DistinctKeys(ms, i);
  }
}
