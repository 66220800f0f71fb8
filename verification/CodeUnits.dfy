/**
 JavaScript strings, as every other module sees them: sequences of UTF-16 code
 units, compared unit by unit, with the sort and trim of the standard library.

 Beside them stand the few generic pieces the models share: options, lists
 (newest element first where they are histories), and distinctness.
 */
module CodeUnits {

  type Unit = u: nat | u < 0x10000
  type Text = seq<Unit>

  datatype Option<+T> = None | Some(value: T)

  datatype List<+T> = Nil | Cons(head: T, tail: List<T>)

  /** A text written out. */
  function Units(s: string): (t: Text)
    ensures |t| == |s| && forall i :: 0 <= i < |s| ==> t[i] == s[i] as int % 0x10000
  {
    seq(|s|, i requires 0 <= i < |s| => s[i] as int % 0x10000)
  }

  /** The order `Array.prototype.sort` uses on strings by default. */
  predicate Less(a: Text, b: Text) {
    if b == [] then false
    else if a == [] then true
    else a[0] < b[0] || (a[0] == b[0] && Less(a[1..], b[1..]))
  }

  /** Up to the first difference alike, and there the smaller unit, or the end of the text. */
  ghost predicate Before(a: Text, b: Text) {
    exists i :: 0 <= i <= |a| && i <= |b| && BeforeAt(a, b, i)
  }

  predicate BeforeAt(a: Text, b: Text, i: nat)
    requires i <= |a| && i <= |b|
  {
    a[..i] == b[..i] && if i == |a| then |a| < |b| else i < |b| && a[i] < b[i]
  }

  /** The order is that of the first differing unit; a text comes before its extensions. */
  lemma {:induction false} LessIsBefore(a: Text, b: Text)
    ensures Less(a, b) <==> Before(a, b)
  {
    if a == [] || b == [] || a[0] != b[0] {
      if Less(a, b) { assert BeforeAt(a, b, 0); }
    } else {
      LessIsBefore(a[1..], b[1..]);
      if Before(a[1..], b[1..]) {
        var i :| 0 <= i <= |a[1..]| && i <= |b[1..]| && BeforeAt(a[1..], b[1..], i);
        assert a[..i + 1] == [a[0]] + a[1..][..i] && b[..i + 1] == [b[0]] + b[1..][..i];
        assert BeforeAt(a, b, i + 1);
      }
      if Before(a, b) {
        var i :| 0 <= i <= |a| && i <= |b| && BeforeAt(a, b, i);
        assert i > 0 && a[1..][..i - 1] == a[..i][1..] && b[1..][..i - 1] == b[..i][1..];
        assert BeforeAt(a[1..], b[1..], i - 1);
      }
    }
  }

  lemma {:induction false} LessIrreflexive(a: Text)
    ensures !Less(a, a)
  {
    if a != [] { LessIrreflexive(a[1..]); }
  }

  lemma {:induction false} LessTransitive(a: Text, b: Text, c: Text)
    requires Less(a, b) && Less(b, c)
    ensures Less(a, c)
  {
    if a != [] && a[0] == b[0] && b[0] == c[0] { LessTransitive(a[1..], b[1..], c[1..]); }
  }

  lemma {:induction false} LessTotal(a: Text, b: Text)
    ensures Less(a, b) || Less(b, a) || a == b
  {
    if a != [] && b != [] {
      LessTotal(a[1..], b[1..]);
      if a[0] == b[0] && a[1..] == b[1..] {
        assert a == [a[0]] + a[1..] == [b[0]] + b[1..] == b;
      }
    }
  }

  predicate Distinct<T(==)>(s: seq<T>) {
    forall i, j :: 0 <= i < j < |s| ==> s[i] != s[j]
  }

  predicate StrictlySorted(s: seq<Text>) {
    forall i, j :: 0 <= i < j < |s| ==> Less(s[i], s[j])
  }

  lemma Assoc<T>(a: seq<T>, b: seq<T>, c: seq<T>)
    ensures a + b + c == a + (b + c)
  {
  }

  function Elements<T>(s: seq<T>): set<T> {
    set x | x in s
  }

  function Insert(k: Text, s: seq<Text>): (r: seq<Text>)
    ensures forall x :: x in r <==> x == k || x in s
    ensures |r| == |s| + 1
  {
    if s == [] || Less(k, s[0]) then [k] + s else [s[0]] + Insert(k, s[1..])
  }

  /** Insertion sort: the sorted arrangement of a list of keys. */
  function Sort(s: seq<Text>): (r: seq<Text>)
    ensures forall x :: x in r <==> x in s
    ensures |r| == |s|
  {
    if s == [] then [] else Insert(s[0], Sort(s[1..]))
  }

  lemma {:induction false} InsertSorted(k: Text, s: seq<Text>)
    requires StrictlySorted(s) && k !in s
    ensures StrictlySorted(Insert(k, s))
  {
    if s == [] {
    } else if Less(k, s[0]) {
      forall j | 0 <= j < |s| ensures Less(k, s[j]) {
        if j > 0 { LessTransitive(k, s[0], s[j]); }
      }
    } else {
      LessTotal(k, s[0]);
      InsertSorted(k, s[1..]);
      var r := Insert(k, s[1..]);
      forall j | 0 <= j < |r| ensures Less(s[0], r[j]) {
        assert r[j] in r;
        if r[j] != k {
          var i :| 0 <= i < |s[1..]| && s[1..][i] == r[j];
          assert s[i + 1] == r[j];
        }
      }
    }
  }

  lemma {:induction false} SortSorted(s: seq<Text>)
    requires Distinct(s)
    ensures StrictlySorted(Sort(s)) && Distinct(Sort(s))
  {
    if s != [] {
      SortSorted(s[1..]);
      assert s[0] !in s[1..];
      InsertSorted(s[0], Sort(s[1..]));
    }
    SortedIsDistinct(Sort(s));
  }

  lemma SortedIsDistinct(s: seq<Text>)
    requires StrictlySorted(s)
    ensures Distinct(s)
  {
    forall i, j | 0 <= i < j < |s| ensures s[i] != s[j] {
      LessIrreflexive(s[i]);
    }
  }

  /** A strictly sorted list is determined by its elements. */
  lemma {:induction false} SortedUnique(s: seq<Text>, t: seq<Text>)
    requires StrictlySorted(s) && StrictlySorted(t)
    requires forall x :: x in s <==> x in t
    ensures s == t
  {
    assert s != [] ==> s[0] in t;
    assert t != [] ==> t[0] in s;
    if s != [] && t != [] {
      FirstIsLeast(s, t);
      FirstIsLeast(t, s);
      SortedIsDistinct(s);
      SortedIsDistinct(t);
      forall x ensures x in s[1..] <==> x in t[1..] {
        if x in s[1..] { assert x in s && x != s[0]; assert x in t; }
        if x in t[1..] { assert x in t && x != t[0]; assert x in s; }
      }
      SortedUnique(s[1..], t[1..]);
      assert s == [s[0]] + s[1..];
      assert t == [t[0]] + t[1..];
    }
  }

  lemma FirstIsLeast(s: seq<Text>, t: seq<Text>)
    requires StrictlySorted(s) && StrictlySorted(t) && s != [] && t != []
    requires forall x :: x in s <==> x in t
    ensures s[0] == t[0]
  {
    assert s[0] in t && t[0] in s;
    var i :| 0 <= i < |t| && t[i] == s[0];
    var j :| 0 <= j < |s| && s[j] == t[0];
    if i > 0 && j > 0 {
      assert Less(t[0], s[0]) && Less(s[0], t[0]);
      LessTransitive(s[0], t[0], s[0]);
      LessIrreflexive(s[0]);
    }
  }

  /** White space and line terminators removed by `String.prototype.trim`. */
  predicate IsSpace(u: Unit) {
    u == 0x09 || u == 0x0A || u == 0x0B || u == 0x0C || u == 0x0D || u == 0x20 || u == 0xA0 ||
    u == 0x1680 || 0x2000 <= u <= 0x200A || u == 0x2028 || u == 0x2029 || u == 0x202F ||
    u == 0x205F || u == 0x3000 || u == 0xFEFF
  }

  predicate Trimmed(s: Text) {
    s == [] || (!IsSpace(s[0]) && !IsSpace(s[|s| - 1]))
  }

  function Trim(s: Text): (r: Text)
    ensures Trimmed(r)
    ensures Trimmed(s) ==> r == s
    ensures |r| <= |s|
  {
    if s == [] then []
    else if IsSpace(s[0]) then Trim(s[1..])
    else if IsSpace(s[|s| - 1]) then Trim(s[..|s| - 1])
    else s
  }

  /** The white space and line terminators of ECMA-262, sections 12.2 and 12.3. */
  predicate WhiteSpace(u: Unit) {
    u in {9, 10, 11, 12, 13, 32, 160, 5760, 8232, 8233, 8239, 8287, 12288, 65279} || 8192 <= u <= 8202
  }

  lemma SpaceIsWhite(u: Unit)
    ensures IsSpace(u) <==> WhiteSpace(u)
  {
  }

  /** Trimming takes white space off both ends and nothing else. */
  lemma {:induction false} TrimExactly(s: Text) returns (i: nat, j: nat)
    ensures i <= j <= |s| && Trim(s) == s[i..j]
    ensures forall k :: 0 <= k < i || j <= k < |s| ==> WhiteSpace(s[k])
    ensures i < j ==> !WhiteSpace(s[i]) && !WhiteSpace(s[j - 1])
  {
    hide IsSpace, WhiteSpace;
    if s != [] {
      SpaceIsWhite(s[0]);
      SpaceIsWhite(s[|s| - 1]);
    }
    if s == [] {
      i, j := 0, 0;
    } else if IsSpace(s[0]) {
      var a, b := TrimExactly(s[1..]);
      i, j := a + 1, b + 1;
      assert s[1..][a..b] == s[i..j];
      assert forall k :: 1 <= k < |s| ==> s[k] == s[1..][k - 1];
    } else if IsSpace(s[|s| - 1]) {
      i, j := TrimExactly(s[..|s| - 1]);
      assert s[..|s| - 1][i..j] == s[i..j];
      assert forall k :: 0 <= k < |s| - 1 ==> s[k] == s[..|s| - 1][k];
    } else {
      i, j := 0, |s|;
    }
  }
}
