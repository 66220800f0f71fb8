/**
 JSON values as the canonical printers see them, their size, and equality up to
 the order of object keys.

 Keys are texts of UTF-16 code units.
 */
module Json {
  import opened CodeUnits

  predicate IsDigit(u: Unit) {
    '0' as int <= u <= '9' as int
  }

  /** The characters a JSON number is written with. */
  predicate IsNumberUnit(u: Unit) {
    IsDigit(u) || u == '-' as int || u == '+' as int || u == '.' as int || u == 'e' as int || u == 'E' as int
  }

  predicate AllDigits(s: Text) {
    forall i :: 0 <= i < |s| ==> IsDigit(s[i])
  }

  /** Length of the leading run of digits. */
  function DigitRun(s: Text): (n: nat)
    ensures n <= |s|
  {
    if s == [] || !IsDigit(s[0]) then 0 else 1 + DigitRun(s[1..])
  }

  predicate ExponentOk(s: Text) {
    s == [] ||
    ((s[0] == 'e' as int || s[0] == 'E' as int) &&
     var t := if |s| > 1 && (s[1] == '+' as int || s[1] == '-' as int) then s[2..] else s[1..];
     t != [] && AllDigits(t))
  }

  predicate FractionOk(s: Text) {
    if s != [] && s[0] == '.' as int
    then var n := DigitRun(s[1..]); n > 0 && ExponentOk(s[1 + n..])
    else ExponentOk(s)
  }

  /** The number production of section 6 of RFC 8259. */
  predicate IsNumberText(s: Text) {
    && s != []
    && (forall i :: 0 <= i < |s| ==> IsNumberUnit(s[i]))
    && var t := if s[0] == '-' as int then s[1..] else s;
       var n := DigitRun(t);
       n > 0 && (t[0] == '0' as int ==> n == 1) && FractionOk(t[n..])
  }

  const ZERO: Text := ['0' as int]

  /** A finite number, identified with the text ECMAScript writes for it. */
  type Number = t: Text | IsNumberText(t) witness ZERO

  /**
   What can reach a printer. `Undefined` and `Unsupported` stand for the
   JavaScript values that are not JSON: undefined, and NaN, infinities, bigints,
   functions and symbols.
   */
  datatype Value =
    | Null
    | Bool(b: bool)
    | Num(number: Number)
    | Str(text: Text)
    | Arr(items: seq<Value>)
    | Obj(members: seq<Member>)
    | Undefined
    | Unsupported

  datatype Member = Member(key: Text, value: Value)

  function KeysOf(ms: seq<Member>): (ks: seq<Text>)
    ensures |ks| == |ms|
    ensures forall i :: 0 <= i < |ms| ==> ks[i] == ms[i].key
  {
    seq(|ms|, i requires 0 <= i < |ms| => ms[i].key)
  }

  function IndexOf(ms: seq<Member>, k: Text): (i: nat)
    requires k in KeysOf(ms)
    ensures i < |ms| && ms[i].key == k
    ensures forall j :: 0 <= j < i ==> ms[j].key != k
  {
    if ms[0].key == k then 0
    else
      assert KeysOf(ms[1..]) == KeysOf(ms)[1..];
      assert forall j :: 1 <= j < |ms| ==> ms[j] == ms[1..][j - 1];
      1 + IndexOf(ms[1..], k)
  }

  /** value[key]. */
  function Get(ms: seq<Member>, key: Text): Value {
    if key in KeysOf(ms) then ms[IndexOf(ms, key)].value else Undefined
  }

  /** JavaScript objects have pairwise distinct keys, at every level. */
  predicate WellFormed(v: Value) {
    match v
    case Arr(items) => forall i :: 0 <= i < |items| ==> WellFormed(items[i])
    case Obj(ms) => Distinct(KeysOf(ms)) && forall i :: 0 <= i < |ms| ==> WellFormed(ms[i].value)
    case _ => true
  }

  /** A JavaScript object graph that came out of JSON. */
  type JsonValue = v: Value | WellFormed(v) witness Null

  /** No part of the value makes canonicalize throw. */
  predicate Serializable(v: Value) {
    match v
    case Arr(items) => forall i :: 0 <= i < |items| ==> Serializable(items[i])
    case Obj(ms) => forall i :: 0 <= i < |ms| ==> Serializable(ms[i].value)
    case Undefined => false
    case Unsupported => false
    case _ => true
  }

  /** Equality up to the order of object keys. */
  ghost predicate Same(v: Value, w: Value) {
    match (v, w)
    case (Arr(xs), Arr(ys)) =>
      |xs| == |ys| && forall i :: 0 <= i < |xs| ==> Same(xs[i], ys[i])
    case (Obj(ms), Obj(ns)) =>
      && (forall k :: k in KeysOf(ms) <==> k in KeysOf(ns))
      && forall i, j :: 0 <= i < |ms| && 0 <= j < |ns| && ms[i].key == ns[j].key ==> Same(ms[i].value, ns[j].value)
    case _ => v == w
  }

  lemma {:induction false} SameReflexive(v: Value)
    requires WellFormed(v)
    ensures Same(v, v)
  {
    match v
    case Arr(items) =>
      forall i | 0 <= i < |items| ensures Same(items[i], items[i]) { SameReflexive(items[i]); }
    case Obj(ms) =>
      forall i, j | 0 <= i < |ms| && 0 <= j < |ms| && ms[i].key == ms[j].key
        ensures Same(ms[i].value, ms[j].value)
      {
        assert KeysOf(ms)[i] == KeysOf(ms)[j];
        SameReflexive(ms[i].value);
      }
    case _ =>
  }

  lemma {:induction false} SameSymmetric(v: Value, w: Value)
    requires Same(v, w)
    ensures Same(w, v)
  {
    match (v, w)
    case (Arr(xs), Arr(ys)) =>
      forall i | 0 <= i < |xs| ensures Same(ys[i], xs[i]) { SameSymmetric(xs[i], ys[i]); }
    case (Obj(ms), Obj(ns)) =>
      forall i, j | 0 <= i < |ns| && 0 <= j < |ms| && ns[i].key == ms[j].key
        ensures Same(ns[i].value, ms[j].value)
      {
        SameSymmetric(ms[j].value, ns[i].value);
      }
    case _ =>
  }

  lemma {:induction false} SameSerializable(v: Value, w: Value)
    requires Same(v, w) && Serializable(v)
    ensures Serializable(w)
  {
    match (v, w)
    case (Arr(xs), Arr(ys)) =>
      forall i | 0 <= i < |ys| ensures Serializable(ys[i]) { SameSerializable(xs[i], ys[i]); }
    case (Obj(ms), Obj(ns)) =>
      forall j | 0 <= j < |ns| ensures Serializable(ns[j].value) {
        assert KeysOf(ns)[j] in KeysOf(ms);
        SameSerializable(ms[IndexOf(ms, ns[j].key)].value, ns[j].value);
      }
    case _ =>
  }

  lemma {:induction false} SameTransitive(u: Value, v: Value, w: Value)
    requires Same(u, v) && Same(v, w)
    ensures Same(u, w)
  {
    match (u, v, w)
    case (Arr(xs), Arr(ys), Arr(zs)) =>
      forall i | 0 <= i < |xs| ensures Same(xs[i], zs[i]) { SameTransitive(xs[i], ys[i], zs[i]); }
    case (Obj(ms), Obj(ns), Obj(os)) =>
      forall i, j | 0 <= i < |ms| && 0 <= j < |os| && ms[i].key == os[j].key
        ensures Same(ms[i].value, os[j].value)
      {
        assert KeysOf(ms)[i] in KeysOf(ms);
        var k := IndexOf(ns, ms[i].key);
        SameTransitive(ms[i].value, ns[k].value, os[j].value);
      }
    case _ =>
  }

  /** Occurrences of values: the nodes the complexity guard counts. */
  function Size(v: Value): nat {
    match v
    case Arr(items) => 1 + SizeItems(items)
    case Obj(ms) => 1 + SizeMembers(ms)
    case _ => 1
  }

  function SizeItems(items: seq<Value>): nat {
    if items == [] then 0 else Size(items[0]) + SizeItems(items[1..])
  }

  function SizeMembers(ms: seq<Member>): nat {
    if ms == [] then 0 else Size(ms[0].value) + SizeMembers(ms[1..])
  }

  /** The root is at depth 0; every occurrence lies at depth at most `d`. */
  predicate DepthAtMost(v: Value, d: int) {
    d >= 0 &&
    match v
    case Arr(items) => ItemsWithin(items, d - 1)
    case Obj(ms) => MembersWithin(ms, d - 1)
    case _ => true
  }

  predicate ItemsWithin(items: seq<Value>, d: int) {
    items == [] || (DepthAtMost(items[0], d) && ItemsWithin(items[1..], d))
  }

  predicate MembersWithin(ms: seq<Member>, d: int) {
    ms == [] || (DepthAtMost(ms[0].value, d) && MembersWithin(ms[1..], d))
  }
}
