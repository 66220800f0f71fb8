/** The depth, node and cycle guard in front of the canonical printer, its marker-free twin, and canonicalize on object graphs. */
module JsonComplexity {
  import opened CodeUnits
  import opened Json
  import opened CanonicalPrinter
  import opened ObjectGraph

  datatype Pending = Enter(slot: Slot, depth: nat) | Leave(id: nat)

  /** An array used only through push and pop; its last element is the head. */
  type Stack = List<Pending>

  datatype Verdict = Accepted | TooManyNodes | TooDeep | Cyclic

  /** What both guards are for. */
  ghost predicate Bounded(h: Heap, root: Slot, maxDepth: nat, maxNodes: nat) {
    exists v :: Unfolds(h, root, v) && Size(v) <= maxNodes && DepthAtMost(v, maxDepth)
  }

  function StackSize(p: Stack): nat {
    match p
    case Nil => 0
    case Cons(_, below) => 1 + StackSize(below)
  }

  ghost predicate WithinLimit(p: Stack, limit: nat) {
    match p
    case Nil => true
    case Cons(e, below) => (e.Enter? ==> e.depth <= limit) && WithinLimit(below, limit)
  }

  /** Occurrences still to be counted at depth below `limit`. */
  ghost function StillBelow(h: Heap, p: Stack, limit: nat): nat
    requires WithinLimit(p, limit)
  {
    match p
    case Nil => 0
    case Cons(Leave(_), below) => StillBelow(h, below, limit)
    case Cons(Enter(s, d), below) => StillBelow(h, below, limit) + Occurrences(h, s, limit - d)
  }

  /** Occurrences still to be met at depth `limit`. */
  ghost function StillAt(h: Heap, p: Stack, limit: nat): nat
    requires WithinLimit(p, limit)
  {
    match p
    case Nil => 0
    case Cons(Leave(_), below) => StillAt(h, below, limit)
    case Cons(Enter(s, d), below) => StillAt(h, below, limit) + AtDepth(h, s, limit - d)
  }

  /** The stack after `for (const child of children) pending.push(...)`. */
  function Pushed(p: Stack, children: seq<Slot>, depth: nat): Stack
    decreases |children|
  {
    if children == [] then p else Pushed(Cons(Enter(children[0], depth), p), children[1..], depth)
  }

  /** Pushing the children of a node conserves both counts. */
  lemma {:induction false} PushConserves(h: Heap, p: Stack, ss: seq<Slot>, depth: nat, limit: nat)
    requires WithinLimit(p, limit) && depth <= limit
    ensures WithinLimit(Pushed(p, ss, depth), limit)
    ensures StillBelow(h, Pushed(p, ss, depth), limit) == StillBelow(h, p, limit) + SumOccurrences(h, ss, limit - depth)
    ensures StillAt(h, Pushed(p, ss, depth), limit) == StillAt(h, p, limit) + SumAtDepth(h, ss, limit - depth)
    decreases |ss|
  {
    if ss != [] { PushConserves(h, Cons(Enter(ss[0], depth), p), ss[1..], depth, limit); }
  }

  /** `count` occurrences met, and the stack holds exactly the ones still to be met. */
  ghost predicate Conserved(h: Heap, root: Slot, p: Stack, count: nat, limit: nat) {
    && WithinLimit(p, limit)
    && count + StillBelow(h, p, limit) == Occurrences(h, root, limit)
    && StillAt(h, p, limit) == AtDepth(h, root, limit)
  }

  lemma PushChildren(h: Heap, root: Slot, p: Stack, s: Slot, depth: nat, count: nat, limit: nat)
    requires WithinLimit(p, limit) && depth < limit
    requires count + StillBelow(h, p, limit) + Occurrences(h, s, limit - depth) == Occurrences(h, root, limit)
    requires StillAt(h, p, limit) + AtDepth(h, s, limit - depth) == AtDepth(h, root, limit)
    ensures Conserved(h, root, Pushed(p, Children(h, s), depth + 1), count + 1, limit)
    ensures count < Occurrences(h, root, limit)
  {
    OneLevel(h, s, limit - depth);
    PushConserves(h, p, Children(h, s), depth + 1, limit);
  }

  /** Replacing an entry by its children, above an optional marker, conserves both counts. */
  lemma Expand(h: Heap, root: Slot, below: Stack, s: Slot, depth: nat, marked: Stack, count: nat, limit: nat)
    requires Conserved(h, root, Cons(Enter(s, depth), below), count, limit) && depth < limit
    requires marked == below || (marked.Cons? && marked.head.Leave? && marked.tail == below)
    ensures Conserved(h, root, Pushed(marked, Children(h, s), depth + 1), count + 1, limit)
    ensures count < Occurrences(h, root, limit)
  {
    PushChildren(h, root, marked, s, depth, count, limit);
  }

  /** Below each entry of the stack lie the leave markers of exactly its ancestors. */
  ghost predicate StackOk(h: Heap, root: Slot, p: Stack, path: List<nat>) {
    match p
    case Nil => path == Nil
    case Cons(Enter(s, d), below) => d == Length(path) && Hangs(h, root, path, s) && StackOk(h, root, below, path)
    case Cons(Leave(o), below) =>
      path.Cons? && path.head == o && o !in Ids(path.tail) && Path(h, root, path) && StackOk(h, root, below, path.tail)
  }

  lemma {:induction false} StackFollowsPath(h: Heap, root: Slot, p: Stack, path: List<nat>)
    requires StackOk(h, root, p, path)
    ensures Path(h, root, path)
  {
    if p.Cons? && p.head.Enter? { StackFollowsPath(h, root, p.tail, path); }
  }

  lemma {:induction false} PushKeepsStack(h: Heap, root: Slot, p: Stack, path: List<nat>, ss: seq<Slot>)
    requires StackOk(h, root, p, path)
    requires forall i :: 0 <= i < |ss| ==> Hangs(h, root, path, ss[i])
    ensures StackOk(h, root, Pushed(p, ss, Length(path)), path)
    decreases |ss|
  {
    if ss != [] { PushKeepsStack(h, root, Cons(Enter(ss[0], Length(path)), p), path, ss[1..]); }
  }

  /** Expanding an object that is not its own ancestor. */
  lemma EnterObject(h: Heap, root: Slot, below: Stack, o: nat, path: List<nat>)
    requires StackOk(h, root, below, path) && Hangs(h, root, path, Ref(o)) && o !in Ids(path)
    ensures StackOk(h, root, Pushed(Cons(Leave(o), below), Children(h, Ref(o)), Length(path) + 1), Cons(o, path))
  {
    StackFollowsPath(h, root, below, path);
    PushKeepsStack(h, root, Cons(Leave(o), below), Cons(o, path), Children(h, Ref(o)));
  }

  lemma SearchStarts(h: Heap, root: Slot, limit: nat)
    ensures Conserved(h, root, Cons(Enter(root, 0), Nil), 0, limit)
  {
  }

  /** An exhausted search met everything. */
  lemma Exhausted(h: Heap, root: Slot, count: nat, maxDepth: nat, maxNodes: nat)
    requires Conserved(h, root, Nil, count, maxDepth + 1) && count <= maxNodes
    ensures Bounded(h, root, maxDepth, maxNodes)
  {
    NothingDeeper(h, root, maxDepth + 1);
  }

  lemma Overflowed(h: Heap, root: Slot, maxDepth: nat, maxNodes: nat)
    requires AtDepth(h, root, maxDepth + 1) > 0 || Occurrences(h, root, maxDepth + 1) > maxNodes
    ensures !Bounded(h, root, maxDepth, maxNodes)
  {
    forall v | Unfolds(h, root, v) && DepthAtMost(v, maxDepth) ensures Size(v) > maxNodes {
      FiniteUnfoldingCounts(h, root, v, maxDepth + 1);
    }
  }

  /** One entry too many, or one too deep, and the search may stop. */
  lemma Excess(h: Heap, root: Slot, below: Stack, s: Slot, depth: nat, count: nat, maxDepth: nat, maxNodes: nat)
    requires Conserved(h, root, Cons(Enter(s, depth), below), count, maxDepth + 1)
    requires count >= maxNodes || depth > maxDepth
    ensures !Bounded(h, root, maxDepth, maxNodes)
    ensures AtDepth(h, root, maxDepth + 1) > 0 || Occurrences(h, root, maxDepth + 1) > maxNodes
    ensures depth > maxDepth ==> AtDepth(h, root, maxDepth + 1) > 0
  {
    if depth <= maxDepth { Expand(h, root, below, s, depth, below, count, maxDepth + 1); }
    Overflowed(h, root, maxDepth, maxNodes);
  }

  lemma RevisitedAncestor(h: Heap, root: Slot, path: List<nat>, o: nat, maxDepth: nat, maxNodes: nat)
    requires Path(h, root, path) && Hangs(h, root, path, Ref(o)) && o in Ids(path)
    ensures HasCycle(h, root) && !Bounded(h, root, maxDepth, maxNodes)
  {
    assert Path(h, root, Cons(o, path));
    forall v ensures !Unfolds(h, root, v) { CycleHasNoUnfolding(h, root, v); }
  }

  method PushAll(p: Stack, children: seq<Slot>, depth: nat) returns (r: Stack)
    ensures r == Pushed(p, children, depth)
  {
    r := p;
    for i := 0 to |children|
      invariant Pushed(r, children[i..], depth) == Pushed(p, children, depth)
    {
      assert children[i..][0] == children[i] && children[i..][1..] == children[i + 1..];
      r := Cons(Enter(children[i], depth), r);
    }
  }

  /**
   assertJsonComplexity: depth-first search with an explicit stack. Leave markers
   keep `ancestors` equal to the objects being expanded.
   */
  method AssertJsonComplexity(h: Heap, root: Slot, maxDepth: nat, maxNodes: nat) returns (r: Verdict)
    ensures r.Accepted? <==> Bounded(h, root, maxDepth, maxNodes)
    ensures r.Cyclic? ==> HasCycle(h, root)
    ensures r.TooDeep? ==> AtDepth(h, root, maxDepth + 1) > 0
    ensures r.TooManyNodes? ==> AtDepth(h, root, maxDepth + 1) > 0 || Occurrences(h, root, maxDepth + 1) > maxNodes
  {
    hide Occurrences, AtDepth, Bounded, HasCycle, Path;
    ghost var limit := maxDepth + 1;
    var pending: Stack := Cons(Enter(root, 0), Nil);
    var ancestors: set<nat> := {};
    var nodeCount := 0;
    ghost var path: List<nat> := Nil;
    SearchStarts(h, root, limit);
    while pending != Nil
      invariant nodeCount <= maxNodes
      invariant Conserved(h, root, pending, nodeCount, limit)
      invariant StackOk(h, root, pending, path)
      invariant ancestors == Ids(path)
      decreases maxNodes - nodeCount, StackSize(pending)
    {
      var current := pending.head;
      pending := pending.tail;
      if current.Leave? {
        ancestors, path := ancestors - {current.id}, path.tail;
        continue;
      }
      StackFollowsPath(h, root, pending, path);
      nodeCount := nodeCount + 1;
      if nodeCount > maxNodes {
        Excess(h, root, pending, current.slot, current.depth, nodeCount - 1, maxDepth, maxNodes);
        return TooManyNodes;
      }
      if current.depth > maxDepth {
        Excess(h, root, pending, current.slot, current.depth, nodeCount - 1, maxDepth, maxNodes);
        return TooDeep;
      }
      if current.slot.Prim? || current.slot.id !in h {
        Expand(h, root, pending, current.slot, current.depth, pending, nodeCount - 1, limit);
        continue;
      }
      var o := current.slot.id;
      if o in ancestors {
        RevisitedAncestor(h, root, path, o, maxDepth, maxNodes);
        return Cyclic;
      }
      Expand(h, root, pending, current.slot, current.depth, Cons(Leave(o), pending), nodeCount - 1, limit);
      EnterObject(h, root, pending, o, path);
      ancestors, path := ancestors + {o}, Cons(o, path);
      pending := Cons(Leave(o), pending);
      pending := PushAll(pending, h[o].slots, current.depth + 1);
    }
    Exhausted(h, root, nodeCount, maxDepth, maxNodes);
    return Accepted;
  }

  /** The MCP proxy's guard: no markers, no ancestors, one error for both limits. */
  method AssertProxyJsonComplexity(h: Heap, root: Slot, maxDepth: nat, maxValues: nat) returns (ok: bool)
    ensures ok <==> Bounded(h, root, maxDepth, maxValues)
  {
    ghost var limit := maxDepth + 1;
    var stack: Stack := Cons(Enter(root, 0), Nil);
    var values := 0;
    while stack != Nil
      invariant values <= maxValues
      invariant OnlyEntries(stack)
      invariant Conserved(h, root, stack, values, limit)
      decreases maxValues - values
    {
      var current := stack.head;
      ghost var below := stack.tail;
      values := values + 1;
      if values > maxValues || current.depth > maxDepth {
        Excess(h, root, below, current.slot, current.depth, values - 1, maxDepth, maxValues);
        return false;
      }
      Expand(h, root, below, current.slot, current.depth, below, values - 1, limit);
      PushOnlyEntries(stack.tail, Children(h, current.slot), current.depth + 1);
      stack := PushAll(stack.tail, Children(h, current.slot), current.depth + 1);
    }
    Exhausted(h, root, values, maxDepth, maxValues);
    return true;
  }

  ghost predicate OnlyEntries(p: Stack) {
    match p
    case Nil => true
    case Cons(e, below) => e.Enter? && OnlyEntries(below)
  }

  lemma {:induction false} PushOnlyEntries(p: Stack, ss: seq<Slot>, depth: nat)
    requires OnlyEntries(p)
    ensures OnlyEntries(Pushed(p, ss, depth))
    decreases |ss|
  {
    if ss != [] { PushOnlyEntries(Cons(Enter(ss[0], depth), p), ss[1..], depth); }
  }

  /** canonicalize on an object graph: guard, then print what the graph unfolds to. */
  method CanonicalizeGraph(h: Heap, root: Slot) returns (r: Option<Text>)
    ensures r.Some? <==> exists v :: Unfolds(h, root, v) && Size(v) <= 50_000 && DepthAtMost(v, 64) && Serializable(v)
    ensures forall v :: Unfolds(h, root, v) ==> r == Canonicalize(v)
  {
    var verdict := AssertJsonComplexity(h, root, MAX_JSON_DEPTH, MAX_JSON_NODES);
    if verdict != Accepted { return None; }
    ghost var v :| Unfolds(h, root, v) && Size(v) <= MAX_JSON_NODES && DepthAtMost(v, MAX_JSON_DEPTH);
    var w := Build(h, root, MAX_JSON_DEPTH + 1);
    FiniteUnfoldingCounts(h, root, v, MAX_JSON_DEPTH + 1);
    NothingDeeper(h, root, MAX_JSON_DEPTH + 1);
    forall u | Unfolds(h, root, u) ensures u == w { UnfoldingIsUnique(h, root, u, w); }
    assert WithinLimits(w);
    r := if Serializable(w) then Some(Print(w)) else None;
  }
}
