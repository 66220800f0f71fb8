/**
 JavaScript object graphs, with sharing and cycles, and the JSON trees they
 unfold to. A graph is a heap of arrays and objects; a tree is what a printer
 sees of it.
 */
module ObjectGraph {
  import opened CodeUnits
  import opened Json

  type Primitive = v: Value | !v.Arr? && !v.Obj? witness Null

  /** What a variable, array slot or property holds: a primitive, or an object's identity. */
  datatype Slot = Prim(v: Primitive) | Ref(id: nat)

  datatype NodeData =
    | ArrayNode(slots: seq<Slot>)
    | RecordNode(keys: seq<Text>, slots: seq<Slot>)

  /** An array, or an object whose i-th own key has the i-th slot as its value. */
  type Node = n: NodeData | n.RecordNode? ==> |n.keys| == |n.slots| witness ArrayNode([])

  /** A reference to nothing, which JavaScript does not have, counts as null. */
  type Heap = map<nat, Node>

  /** Array.isArray(value) ? value : Object.values(value); nothing below a primitive. */
  function Children(h: Heap, s: Slot): seq<Slot> {
    if s.Ref? && s.id in h then h[s.id].slots else []
  }

  function ValuesOf(ms: seq<Member>): (r: seq<Value>)
    ensures |r| == |ms| && forall i :: 0 <= i < |r| ==> r[i] == ms[i].value
  {
    if ms == [] then [] else [ms[0].value] + ValuesOf(ms[1..])
  }

  /** The values directly inside a value. */
  function Parts(v: Value): (r: seq<Value>)
    ensures forall i :: 0 <= i < |r| ==> r[i] < v
  {
    match v
    case Arr(items) => items
    case Obj(ms) => ValuesOf(ms)
    case _ => []
  }

  lemma {:induction false} SizeIsOnePlusParts(v: Value)
    ensures Size(v) == 1 + SizeItems(Parts(v))
  {
    if v.Obj? { SizeMembersIsSizeItems(v.members, Parts(v)); }
  }

  lemma {:induction false} SizeMembersIsSizeItems(ms: seq<Member>, vs: seq<Value>)
    requires |ms| == |vs| && forall i :: 0 <= i < |ms| ==> vs[i] == ms[i].value
    ensures SizeMembers(ms) == SizeItems(vs)
  {
    if ms != [] { SizeMembersIsSizeItems(ms[1..], vs[1..]); }
  }

  lemma {:induction false} MembersWithinIsItemsWithin(ms: seq<Member>, vs: seq<Value>, d: int)
    requires |ms| == |vs| && forall i :: 0 <= i < |ms| ==> vs[i] == ms[i].value
    ensures MembersWithin(ms, d) == ItemsWithin(vs, d)
  {
    if ms != [] { MembersWithinIsItemsWithin(ms[1..], vs[1..], d); }
  }

  lemma DepthIsOnePlusParts(v: Value, d: int)
    ensures DepthAtMost(v, d) <==> d >= 0 && ItemsWithin(Parts(v), d - 1)
  {
    if v.Obj? { MembersWithinIsItemsWithin(v.members, Parts(v), d - 1); }
  }

  lemma {:induction false} PartIsSmaller(v: Value, i: nat)
    requires i < |Parts(v)|
    ensures Size(Parts(v)[i]) < Size(v)
  {
    SizeIsOnePlusParts(v);
    ItemWithinSum(Parts(v), i);
  }

  lemma {:induction false} ItemWithinSum(vs: seq<Value>, i: nat)
    requires i < |vs|
    ensures Size(vs[i]) <= SizeItems(vs)
  {
    if i > 0 { ItemWithinSum(vs[1..], i - 1); }
  }

  /** The node and the value are of the same kind, with the same keys. */
  predicate SameShape(n: Node, v: Value) {
    |Parts(v)| == |n.slots| &&
    match n
    case ArrayNode(_) => v.Arr?
    case RecordNode(keys, _) => v.Obj? && KeysOf(v.members) == keys
  }

  /** `v` is the finite tree that the graph below `s` unfolds to, shared nodes repeated. */
  ghost predicate Unfolds(h: Heap, s: Slot, v: Value)
    decreases v
  {
    match s
    case Prim(p) => v == p
    case Ref(o) =>
      if o !in h then v == Null
      else SameShape(h[o], v) && forall i :: 0 <= i < |Parts(v)| ==> Unfolds(h, h[o].slots[i], Parts(v)[i])
  }

  lemma {:induction false} UnfoldingIsUnique(h: Heap, s: Slot, v: Value, w: Value)
    requires Unfolds(h, s, v) && Unfolds(h, s, w)
    ensures v == w
    decreases v
  {
    if s.Ref? && s.id in h {
      forall i | 0 <= i < |Parts(v)| ensures Parts(v)[i] == Parts(w)[i] {
        UnfoldingIsUnique(h, h[s.id].slots[i], Parts(v)[i], Parts(w)[i]);
      }
      assert Parts(v) == Parts(w);
      if v.Obj? {
        forall i | 0 <= i < |v.members| ensures v.members[i] == w.members[i] {
          assert KeysOf(v.members)[i] == KeysOf(w.members)[i] && ValuesOf(v.members)[i] == ValuesOf(w.members)[i];
        }
        assert v.members == w.members;
      }
    }
  }

  // ---- counting occurrences level by level -------------------------------

  /** Occurrences at depth below `k` in the unfolding, which need not be finite. */
  function Occurrences(h: Heap, s: Slot, k: nat): nat
    decreases k, 0
  {
    if k == 0 then 0 else 1 + SumOccurrences(h, Children(h, s), k - 1)
  }

  function SumOccurrences(h: Heap, ss: seq<Slot>, k: nat): nat
    decreases k, |ss| + 1
  {
    if ss == [] then 0 else Occurrences(h, ss[0], k) + SumOccurrences(h, ss[1..], k)
  }

  /** Occurrences at depth exactly `k`. */
  function AtDepth(h: Heap, s: Slot, k: nat): nat
    decreases k, 0
  {
    if k == 0 then 1 else SumAtDepth(h, Children(h, s), k - 1)
  }

  function SumAtDepth(h: Heap, ss: seq<Slot>, k: nat): nat
    decreases k, |ss| + 1
  {
    if ss == [] then 0 else AtDepth(h, ss[0], k) + SumAtDepth(h, ss[1..], k)
  }

  function Zip(keys: seq<Text>, values: seq<Value>): (r: seq<Member>)
    requires |keys| == |values|
    ensures KeysOf(r) == keys && ValuesOf(r) == values
  {
    if keys == [] then []
    else
      var r := [Member(keys[0], values[0])] + Zip(keys[1..], values[1..]);
      assert KeysOf(r) == [keys[0]] + KeysOf(r[1..]);
      r
  }

  /** The unfolding, cut off (at null) below depth `k`. */
  function Build(h: Heap, s: Slot, k: nat): Value
    decreases k, 0
  {
    if k == 0 then Null
    else match s
      case Prim(p) => p
      case Ref(o) =>
        var parts := BuildAll(h, Children(h, s), k - 1);
        if o !in h then Null
        else match h[o]
        case ArrayNode(_) => Arr(parts)
        case RecordNode(keys, _) => Obj(Zip(keys, parts))
  }

  function BuildAll(h: Heap, ss: seq<Slot>, k: nat): (r: seq<Value>)
    ensures |r| == |ss|
    ensures forall i :: 0 <= i < |ss| ==> r[i] == Build(h, ss[i], k)
    decreases k, |ss| + 1
  {
    if ss == [] then [] else [Build(h, ss[0], k)] + BuildAll(h, ss[1..], k)
  }

  lemma OneLevel(h: Heap, s: Slot, k: nat)
    requires k > 0
    ensures Occurrences(h, s, k) == 1 + SumOccurrences(h, Children(h, s), k - 1)
    ensures AtDepth(h, s, k) == SumAtDepth(h, Children(h, s), k - 1)
  {
  }

  lemma BuildObject(h: Heap, o: nat, k: nat)
    requires k > 0 && o in h
    ensures SameShape(h[o], Build(h, Ref(o), k))
    ensures Parts(Build(h, Ref(o), k)) == BuildAll(h, h[o].slots, k - 1)
  {
  }

  /** Nothing at depth `k`: the cut-off tree is the whole unfolding. */
  lemma {:induction false} NothingDeeper(h: Heap, s: Slot, k: nat)
    requires AtDepth(h, s, k) == 0
    ensures Unfolds(h, s, Build(h, s, k))
    ensures Size(Build(h, s, k)) == Occurrences(h, s, k)
    ensures DepthAtMost(Build(h, s, k), k - 1)
    decreases k, 0
  {
    var v := Build(h, s, k);
    OneLevel(h, s, k);
    NothingDeeperAll(h, Children(h, s), k - 1);
    if s.Ref? && s.id in h {
      BuildObject(h, s.id, k);
      SizeIsOnePlusParts(v);
      DepthIsOnePlusParts(v, k - 1);
    }
  }

  lemma {:induction false} NothingDeeperAll(h: Heap, ss: seq<Slot>, k: nat)
    requires SumAtDepth(h, ss, k) == 0
    ensures SizeItems(BuildAll(h, ss, k)) == SumOccurrences(h, ss, k)
    ensures ItemsWithin(BuildAll(h, ss, k), k - 1)
    ensures forall i :: 0 <= i < |ss| ==> Unfolds(h, ss[i], Build(h, ss[i], k))
    decreases k, |ss| + 1
  {
    if ss != [] {
      NothingDeeper(h, ss[0], k);
      NothingDeeperAll(h, ss[1..], k);
      assert BuildAll(h, ss, k)[1..] == BuildAll(h, ss[1..], k);
      assert forall i :: 1 <= i < |ss| ==> ss[i] == ss[1..][i - 1];
    }
  }

  /** A finite unfolding fixes both counts. */
  lemma {:induction false} FiniteUnfoldingCounts(h: Heap, s: Slot, v: Value, k: nat)
    requires Unfolds(h, s, v) && DepthAtMost(v, k - 1)
    ensures AtDepth(h, s, k) == 0 && Occurrences(h, s, k) == Size(v)
    decreases k, 0
  {
    SizeIsOnePlusParts(v);
    if s.Ref? && s.id in h {
      DepthIsOnePlusParts(v, k - 1);
      FiniteUnfoldingCountsAll(h, h[s.id].slots, Parts(v), k - 1);
    } else {
      assert Children(h, s) == [];
    }
  }

  lemma {:induction false} FiniteUnfoldingCountsAll(h: Heap, ss: seq<Slot>, vs: seq<Value>, k: nat)
    requires |ss| == |vs|
    requires forall i :: 0 <= i < |ss| ==> Unfolds(h, ss[i], vs[i])
    requires ItemsWithin(vs, k - 1)
    ensures SumAtDepth(h, ss, k) == 0 && SumOccurrences(h, ss, k) == SizeItems(vs)
    decreases k, |ss| + 1
  {
    if ss != [] {
      FiniteUnfoldingCounts(h, ss[0], vs[0], k);
      FiniteUnfoldingCountsAll(h, ss[1..], vs[1..], k);
    }
  }

  // ---- cycles ------------------------------------------------------------

  function Ids(path: List<nat>): set<nat> {
    match path
    case Nil => {}
    case Cons(o, rest) => {o} + Ids(rest)
  }

  function Length(path: List<nat>): nat {
    match path
    case Nil => 0
    case Cons(_, rest) => 1 + Length(rest)
  }

  /** `s` is the root, or a child of the newest object on the path. */
  ghost predicate Hangs(h: Heap, root: Slot, path: List<nat>, s: Slot) {
    match path
    case Nil => s == root
    case Cons(o, _) => s in Children(h, Ref(o))
  }

  /** A chain of objects from the root, newest first, each a child of the next. */
  ghost predicate Path(h: Heap, root: Slot, path: List<nat>) {
    match path
    case Nil => true
    case Cons(o, rest) => Hangs(h, root, rest, Ref(o)) && Path(h, root, rest)
  }

  /** Some object reachable from the root contains itself. */
  ghost predicate HasCycle(h: Heap, root: Slot) {
    exists path: List<nat> :: path.Cons? && Path(h, root, path) && path.head in Ids(path.tail)
  }

  /** A child of an unfolded object unfolds to a smaller part. */
  lemma ChildUnfolds(h: Heap, o: nat, u: Value, child: Slot) returns (part: Value)
    requires Unfolds(h, Ref(o), u) && child in Children(h, Ref(o))
    ensures Unfolds(h, child, part) && Size(part) < Size(u)
  {
    var i :| 0 <= i < |h[o].slots| && h[o].slots[i] == child;
    PartIsSmaller(u, i);
    part := Parts(u)[i];
  }

  /** Down a path from an unfolded root, subtrees shrink. */
  lemma {:induction false} Descend(h: Heap, root: Slot, v: Value, path: List<nat>, s: Slot, o: nat)
    returns (below: Value, above: Value)
    requires Unfolds(h, root, v) && Path(h, root, path) && Hangs(h, root, path, s) && o in Ids(path)
    ensures Unfolds(h, s, below) && Unfolds(h, Ref(o), above) && Size(below) < Size(above)
    decreases path
  {
    var parent: Value;
    if path.tail.Nil? {
      parent, above := v, v;
    } else if path.head == o {
      parent, above := Descend(h, root, v, path.tail, Ref(path.head), path.tail.head);
      above := parent;
    } else {
      parent, above := Descend(h, root, v, path.tail, Ref(path.head), o);
    }
    below := ChildUnfolds(h, path.head, parent, s);
  }

  /** A graph with a cycle has no finite unfolding. */
  lemma CycleHasNoUnfolding(h: Heap, root: Slot, v: Value)
    requires HasCycle(h, root)
    ensures !Unfolds(h, root, v)
  {
    if Unfolds(h, root, v) {
      var path: List<nat> :| path.Cons? && Path(h, root, path) && path.head in Ids(path.tail);
      var below, above := Descend(h, root, v, path.tail, Ref(path.head), path.head);
      UnfoldingIsUnique(h, Ref(path.head), below, above);
      assert false;
    }
  }
}
