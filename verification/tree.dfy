/**
 * Building the nested call tree of one trace (`makeRoot`, `requestToRoot`
 * and `traceMapToTraceObj` in `BO/Utils.java`).
 */
module Tree {
  import opened Wrappers
  import opened Requests
  import opened SpanSearch

  /**
   * A call-tree node (`BO.Root`). `start` and `end` are the instants that
   * `timeStampToStr` renders; `span` is the hop's new span.
   */
  datatype Root = Root(service: string, start: int, end: int, span: string, calls: seq<Root>)

  /** One output document (`BO.Trace`). */
  datatype Trace = Trace(traceId: string, root: Root)

  /** Number of nodes of a tree. */
  function Size(t: Root): (n: nat)
    ensures n >= 1
  {
    1 + SizeAll(t.calls)
  }

  function SizeAll(ts: seq<Root>): nat {
    if |ts| == 0 then 0 else Size(ts[0]) + SizeAll(ts[1..])
  }

  /** True when the node shows `r`'s service, times and new span. */
  predicate ShowsHop(n: Root, r: Request) {
    Timed(r) && n.service == r.serviceName && n.start == r.startTime.value
    && n.end == r.endTime.value && n.span == r.newSpan
  }

  /** `requestToRoot`: a leaf for `r`; rendering an absent timestamp throws. */
  function RequestToRoot(r: Request): (n: Result<Root, BuildError>)
    ensures n.Ok? <==> Timed(r)
    ensures n.Ok? ==> ShowsHop(n.value, r) && n.value.calls == []
  {
    if Timed(r) then Ok(Root(r.serviceName, r.startTime.value, r.endTime.value, r.newSpan, []))
    else Err(AbsentTimestamp)
  }

  /**
   * `makeRoot`: the node for `r` with one subtree per child hop, in
   * `findChildren` order. `fuel` bounds the recursion depth: the source
   * recurses without bound and never returns on cyclic span edges.
   */
  function MakeRoot(fuel: nat, r: Request, hops: seq<Request>): (res: Result<Root, BuildError>)
    ensures fuel == 0 ==> res == Err(OutOfFuel)
    ensures res.Err? ==> res.error != NoRoot
    ensures res.Ok? ==> ShowsHop(res.value, r) && FindChildren(r, hops).Ok?
    decreases fuel, 0
  {
    if fuel == 0 then Err(OutOfFuel)
    else if !Timed(r) then Err(AbsentTimestamp)
    else
      match FindChildren(r, hops)
      case Err(e) => Err(e)
      case Ok(kids) =>
        match MakeCalls(fuel - 1, kids, hops)
        case Err(e) => Err(e)
        case Ok(calls) => Ok(Root(r.serviceName, r.startTime.value, r.endTime.value, r.newSpan, calls))
  }

  /** The subtrees of `kids`, in order; the first failing child aborts the loop. */
  function MakeCalls(fuel: nat, kids: seq<Request>, hops: seq<Request>): (res: Result<seq<Root>, BuildError>)
    ensures res.Err? ==> res.error != NoRoot
    ensures res.Ok? ==> |res.value| == |kids|
    decreases fuel, |kids|
  {
    if |kids| == 0 then Ok([])
    else
      match MakeRoot(fuel, kids[0], hops)
      case Err(e) => Err(e)
      case Ok(first) =>
        match MakeCalls(fuel, kids[1..], hops)
        case Err(e) =>
          Err(e)
        case Ok(rest) => Ok([first] + rest)
  }

  /** A timed hop whose children are found and whose children's subtrees are built gets its tree. */
  lemma BuiltFromChildren(fuel: nat, r: Request, hops: seq<Request>)
    requires fuel > 0 && Timed(r) && FindChildren(r, hops).Ok?
    requires MakeCalls(fuel - 1, FindChildren(r, hops).value, hops).Ok?
    ensures MakeRoot(fuel, r, hops).Ok?
  {
  }

  /** The loop over the children succeeds exactly when every child's subtree can be built. */
  lemma {:induction false} MakeCallsOk(fuel: nat, kids: seq<Request>, hops: seq<Request>)
    ensures MakeCalls(fuel, kids, hops).Ok? <==> forall j :: 0 <= j < |kids| ==> MakeRoot(fuel, kids[j], hops).Ok?
    decreases |kids|
  {
    if |kids| > 0 {
      MakeCallsOk(fuel, kids[1..], hops);
      assert forall j :: 1 <= j < |kids| ==> kids[j] == kids[1..][j - 1];
    }
  }

  /** One `makeRoot` step, given the children and their subtrees. */
  lemma MakeRootStep(fuel: nat, r: Request, hops: seq<Request>, kids: seq<Request>, calls: seq<Root>)
    requires fuel > 0 && Timed(r) && FindChildren(r, hops) == Ok(kids)
    requires MakeCalls(fuel - 1, kids, hops) == Ok(calls)
    ensures MakeRoot(fuel, r, hops) == Ok(Root(r.serviceName, r.startTime.value, r.endTime.value, r.newSpan, calls))
  {
  }

  /** One iteration of the loop over the children in `makeRoot`. */
  lemma MakeCallsStep(fuel: nat, kids: seq<Request>, hops: seq<Request>, first: Root, rest: seq<Root>)
    requires |kids| > 0 && MakeRoot(fuel, kids[0], hops) == Ok(first)
    requires MakeCalls(fuel, kids[1..], hops) == Ok(rest)
    ensures MakeCalls(fuel, kids, hops) == Ok([first] + rest)
  {
  }

  /** A built node's calls are the children's subtrees, each built with one level less. */
  lemma MakeRootCalls(fuel: nat, r: Request, hops: seq<Request>)
    requires MakeRoot(fuel, r, hops).Ok?
    ensures MakeCalls(fuel - 1, FindChildren(r, hops).value, hops) == Ok(MakeRoot(fuel, r, hops).value.calls)
  {
  }

  lemma {:induction false} MakeCallsElems(fuel: nat, kids: seq<Request>, hops: seq<Request>)
    requires MakeCalls(fuel, kids, hops).Ok?
    ensures forall j :: 0 <= j < |kids| ==> MakeRoot(fuel, kids[j], hops) == Ok(MakeCalls(fuel, kids, hops).value[j])
    decreases |kids|
  {
    if |kids| > 0 {
      MakeCallsElems(fuel, kids[1..], hops);
      assert forall j :: 1 <= j < |kids| ==> kids[j] == kids[1..][j - 1];
    }
  }

  /** `makeRoot`'s calls correspond one-to-one and in order to `findChildren`'s result. */
  lemma MakeRootChildren(fuel: nat, r: Request, hops: seq<Request>)
    requires MakeRoot(fuel, r, hops).Ok?
    ensures var kids := FindChildren(r, hops).value;
            var calls := MakeRoot(fuel, r, hops).value.calls;
            |calls| == |kids| && forall j :: 0 <= j < |kids| ==> MakeRoot(fuel - 1, kids[j], hops) == Ok(calls[j])
  {
    MakeRootCalls(fuel, r, hops);
    MakeCallsElems(fuel - 1, FindChildren(r, hops).value, hops);
  }

  // ---------------------------------------------------------------------------
  // Fuel: more depth never changes a finished tree; cycles never finish;
  // a ranking of the span edges bounds the depth.

  lemma {:induction false} MakeRootMonotone(fuel: nat, r: Request, hops: seq<Request>)
    requires MakeRoot(fuel, r, hops).Ok?
    ensures MakeRoot(fuel + 1, r, hops) == MakeRoot(fuel, r, hops)
    decreases fuel, 0
  {
    var kids := FindChildren(r, hops).value;
    var calls := MakeRoot(fuel, r, hops).value.calls;
    MakeRootCalls(fuel, r, hops);
    MakeCallsMonotone(fuel - 1, kids, hops);
    MakeRootStep(fuel, r, hops, kids, calls);
    MakeRootStep(fuel + 1, r, hops, kids, calls);
  }

  lemma {:induction false} MakeCallsMonotone(fuel: nat, kids: seq<Request>, hops: seq<Request>)
    requires MakeCalls(fuel, kids, hops).Ok?
    ensures MakeCalls(fuel + 1, kids, hops) == MakeCalls(fuel, kids, hops)
    decreases fuel, |kids|
  {
    if |kids| > 0 {
      MakeRootMonotone(fuel, kids[0], hops);
      assert forall j :: 1 <= j < |kids| ==> kids[j] == kids[1..][j - 1];
      MakeCallsMonotone(fuel, kids[1..], hops);
    }
  }

  /** A hop that is a child of `parent` within `hops` is among `findChildren`'s result. */
  lemma ChildIsFound(parent: Request, c: Request, hops: seq<Request>)
    requires FindChildren(parent, hops).Ok?
    requires c in hops && c.prevSpan == parent.newSpan
    ensures exists j :: 0 <= j < |FindChildren(parent, hops).value| && FindChildren(parent, hops).value[j] == c
  {
    var kids := FindChildren(parent, hops).value;
    FindChildrenSpec(parent, hops);
    assert c in kids;
  }

  /** A child hop whose subtree cannot be built makes its parent's tree fail too. */
  lemma ChildFails(fuel: nat, r: Request, c: Request, hops: seq<Request>)
    requires fuel > 0 && c in hops && c.prevSpan == r.newSpan
    requires MakeRoot(fuel - 1, c, hops).Err?
    ensures MakeRoot(fuel, r, hops).Err?
  {
    if MakeRoot(fuel, r, hops).Ok? {
      ChildIsFound(r, c, hops);
      var kids := FindChildren(r, hops).value;
      var j :| 0 <= j < |kids| && kids[j] == c;
      MakeRootChildren(fuel, r, hops);
      assert false;
    }
  }

  /**
   * Cyclic span edges: `loop` lists hops where each one's new span is the next
   * one's previous span, and the last one's is the first one's. No amount of
   * depth builds the tree of any of them.
   */
  lemma {:induction false} CycleNeverFinishes(fuel: nat, loop: seq<Request>, k: nat, hops: seq<Request>)
    requires forall i :: 0 <= i < |loop| ==> loop[i] in hops
    requires forall i :: 0 < i < |loop| ==> loop[i].prevSpan == loop[i - 1].newSpan
    requires 0 < |loop| && loop[0].prevSpan == loop[|loop| - 1].newSpan
    requires k < |loop|
    ensures MakeRoot(fuel, loop[k], hops).Err?
    decreases fuel
  {
    if fuel > 0 {
      var next := if k + 1 < |loop| then k + 1 else 0;
      CycleNeverFinishes(fuel - 1, loop, next, hops);
      ChildFails(fuel, loop[k], loop[next], hops);
    }
  }

  /** A self-edge `x->x` alone makes `makeRoot` recurse forever. */
  lemma SelfEdgeNeverFinishes(fuel: nat, r: Request, hops: seq<Request>)
    requires r in hops && r.prevSpan == r.newSpan
    ensures MakeRoot(fuel, r, hops).Err?
  {
    CycleNeverFinishes(fuel, [r], 0, hops);
  }

  /** Span edges strictly decrease `rank`: the child relation is acyclic. */
  ghost predicate RankedEdges(hops: seq<Request>, rank: Request -> nat) {
    forall p, c :: p in hops && c in hops && c.prevSpan == p.newSpan ==> rank(c) < rank(p)
  }

  /** With every hop timed, `findChildren` succeeds and returns hops below the parent. */
  lemma TimedChildren(r: Request, hops: seq<Request>)
    requires forall h :: h in hops ==> Timed(h)
    ensures FindChildren(r, hops).Ok?
    ensures forall k :: k in FindChildren(r, hops).value ==> k in hops && k.prevSpan == r.newSpan
  {
    var cands := Candidates(r.newSpan, hops);
    CandidatesMembers(r.newSpan, hops);
    assert AllStarted(cands) by {
      forall i | 0 <= i < |cands| ensures cands[i].startTime.Some? {
        assert cands[i] in cands;
      }
    }
    FindChildrenSpec(r, hops);
  }

  /** With timed hops and acyclic edges, depth above the root's rank always suffices. */
  lemma {:induction false} RankedFinishes(fuel: nat, r: Request, hops: seq<Request>, rank: Request -> nat)
    requires RankedEdges(hops, rank)
    requires forall h :: h in hops ==> Timed(h)
    requires r in hops && rank(r) < fuel
    ensures MakeRoot(fuel, r, hops).Ok?
    decreases fuel, 0
  {
    assert fuel > 0 && Timed(r);
    TimedChildren(r, hops);
    var kids := FindChildren(r, hops).value;
    RankedKids(r, kids, hops, rank);
    assert forall k :: k in kids ==> k in hops && rank(k) < fuel - 1;
    RankedCallsFinish(fuel - 1, kids, hops, rank);
    BuiltFromChildren(fuel, r, hops);
  }

  lemma RankedKids(r: Request, kids: seq<Request>, hops: seq<Request>, rank: Request -> nat)
    requires RankedEdges(hops, rank) && r in hops
    requires forall k :: k in kids ==> k in hops && k.prevSpan == r.newSpan
    ensures forall k :: k in kids ==> k in hops && rank(k) < rank(r)
  {
  }

  lemma {:induction false} RankedCallsFinish(fuel: nat, kids: seq<Request>, hops: seq<Request>, rank: Request -> nat)
    requires RankedEdges(hops, rank)
    requires forall h :: h in hops ==> Timed(h)
    requires forall k :: k in kids ==> k in hops && rank(k) < fuel
    ensures MakeCalls(fuel, kids, hops).Ok?
    decreases fuel, 1
  {
    forall j | 0 <= j < |kids| ensures MakeRoot(fuel, kids[j], hops).Ok? {
      assert kids[j] in kids;
      RankedFinishes(fuel, kids[j], hops, rank);
    }
    MakeCallsOk(fuel, kids, hops);
  }

  // ---------------------------------------------------------------------------
  // One trace's hops to one document.

  /**
   * `traceMapToTraceObj`: a single hop becomes a leaf without any root check;
   * otherwise the root hop is found and its tree built. The recursion depth
   * is bounded by the hop count, which any acyclic hop set respects.
   */
  function TraceMapToTraceObj(traceId: string, hops: seq<Request>): (res: Result<Trace, BuildError>)
    ensures |hops| == 1 ==> (res.Ok? <==> Timed(hops[0]))
    ensures |hops| == 1 && res.Ok? ==>
              res.value.traceId == traceId && ShowsHop(res.value.root, hops[0]) && res.value.root.calls == []
    ensures |hops| != 1 && res.Ok? ==>
              exists r :: r in hops && r.prevSpan == NullSpan && res.value.traceId == r.traceId
                          && MakeRoot(|hops|, r, hops) == Ok(res.value.root)
    ensures |hops| != 1 ==>
              (res == Err(NoRoot) <==> forall i :: 0 <= i < |hops| ==> hops[i].prevSpan != NullSpan)
    ensures |hops| != 1 && res.Err? && res != Err(NoRoot) ==>
              exists r :: r in hops && r.prevSpan == NullSpan && MakeRoot(|hops|, r, hops) == Err(res.error)
  {
    if |hops| == 1 then
      match RequestToRoot(hops[0])
      case Err(e) => Err(e)
      case Ok(leaf) => Ok(Trace(traceId, leaf))
    else
      match FindRoot(hops)
      case Err(e) => Err(e)
      case Ok(root) =>
        match MakeRoot(|hops|, root, hops)
        case Err(e) => Err(e)
        case Ok(tree) => Ok(Trace(root.traceId, tree))
  }

  /** An acyclic, fully timed trace with a root hop always yields its document. */
  lemma RankedTraceFinishes(traceId: string, hops: seq<Request>, rank: Request -> nat)
    requires |hops| != 1
    requires exists i :: 0 <= i < |hops| && hops[i].prevSpan == NullSpan
    requires RankedEdges(hops, rank)
    requires forall h :: h in hops ==> Timed(h) && rank(h) < |hops|
    ensures TraceMapToTraceObj(traceId, hops).Ok?
  {
    var root := FindRoot(hops).value;
    RankedFinishes(|hops|, root, hops, rank);
  }
}
