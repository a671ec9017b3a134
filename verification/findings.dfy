/**
 * Concrete traces on which `makeRootIter` (`BO/Utils.java`) and `makeRoot`
 * build different trees.
 */
module Findings {
  import opened Wrappers
  import opened Requests
  import opened SpanSearch
  import opened Tree
  import opened TreeIter
  import Seqs

  // ---------------------------------------------------------------------------
  // Two calls from the same span to the same service share one map entry.

  const RootHop := Request(Some(1), Some(10), "t", "a", "null", "s1")
  const FirstCall := Request(Some(2), Some(3), "t", "b", "s1", "s2")
  const SecondCall := Request(Some(4), Some(5), "t", "b", "s1", "s3")
  const Nested := Request(Some(6), Some(7), "t", "c", "s3", "s4")
  const Twins := [RootHop, FirstCall, SecondCall, Nested]

  /** The spans of the example are pairwise different strings. */
  lemma SpansDiffer()
    ensures "null" != "s1" && "null" != "s2" && "null" != "s3" && "null" != "s4"
    ensures "s1" != "s2" && "s1" != "s3" && "s1" != "s4"
    ensures "s2" != "s3" && "s2" != "s4" && "s3" != "s4"
  {
    assert "s1"[1] != "s2"[1] && "s1"[1] != "s3"[1] && "s1"[1] != "s4"[1];
    assert "s2"[1] != "s3"[1] && "s2"[1] != "s4"[1] && "s3"[1] != "s4"[1];
  }

  /** The hop itself when it hangs below `span`, else nothing. */
  function Below(span: string, h: Request): seq<Request> {
    if h.prevSpan == span then [h] else []
  }

  /** `Candidates` takes the first hop, then searches the rest. */
  lemma CandidatesCons(span: string, h: Request, rest: seq<Request>)
    ensures Candidates(span, [h] + rest) == Below(span, h) + Candidates(span, rest)
  {
    assert ([h] + rest)[1..] == rest;
  }

  lemma CandidatesOfOne(span: string, d: Request)
    ensures Candidates(span, [d]) == Below(span, d)
  {
    CandidatesCons(span, d, []);
    assert [d] + [] == [d];
    assert Below(span, d) + [] == Below(span, d);
  }

  lemma CandidatesOfTwo(span: string, c: Request, d: Request)
    ensures Candidates(span, [c, d]) == Below(span, c) + Below(span, d)
  {
    CandidatesOfOne(span, d);
    CandidatesCons(span, c, [d]);
    assert [c] + [d] == [c, d];
  }

  lemma CandidatesOfThree(span: string, b: Request, c: Request, d: Request)
    ensures Candidates(span, [b, c, d]) == Below(span, b) + Below(span, c) + Below(span, d)
  {
    CandidatesOfTwo(span, c, d);
    CandidatesCons(span, b, [c, d]);
    assert [b] + [c, d] == [b, c, d];
    Seqs.AppendAssoc(Below(span, b), Below(span, c), Below(span, d));
  }

  /** `Candidates` on a four-hop trace, spelled out. */
  lemma CandidatesOfFour(span: string, a: Request, b: Request, c: Request, d: Request)
    ensures Candidates(span, [a, b, c, d]) == Below(span, a) + Below(span, b) + Below(span, c) + Below(span, d)
  {
    CandidatesOfThree(span, b, c, d);
    CandidatesCons(span, a, [b, c, d]);
    assert [a] + [b, c, d] == [a, b, c, d];
    var bc := Below(span, b) + Below(span, c);
    Seqs.AppendAssoc(Below(span, a), bc, Below(span, d));
    Seqs.AppendAssoc(Below(span, a), Below(span, b), Below(span, c));
  }

  lemma RootCandidates()
    ensures Candidates("s1", Twins) == [FirstCall, SecondCall]
  {
    SpansDiffer();
    CandidatesOfFour("s1", RootHop, FirstCall, SecondCall, Nested);
    assert Below("s1", RootHop) == [] && Below("s1", Nested) == [];
    assert [] + [FirstCall] + [SecondCall] + [] == [FirstCall, SecondCall];
  }

  lemma RootChildren()
    ensures FindChildren(RootHop, Twins) == Ok([FirstCall, SecondCall]) && AllTimed([FirstCall, SecondCall])
  {
    RootCandidates();
    SortTwo(FirstCall, SecondCall);
  }

  lemma FirstChildren()
    ensures FindChildren(FirstCall, Twins) == Ok([])
  {
    SpansDiffer();
    CandidatesOfFour("s2", RootHop, FirstCall, SecondCall, Nested);
  }

  lemma SecondChildren()
    ensures FindChildren(SecondCall, Twins) == Ok([Nested]) && AllTimed([Nested])
  {
    SpansDiffer();
    CandidatesOfFour("s3", RootHop, FirstCall, SecondCall, Nested);
    assert [] + [] + [] + [Nested] == [Nested];
  }

  lemma NestedChildren()
    ensures FindChildren(Nested, Twins) == Ok([])
  {
    SpansDiffer();
    CandidatesOfFour("s4", RootHop, FirstCall, SecondCall, Nested);
  }

  lemma TwinsChildren()
    ensures FindChildren(RootHop, Twins) == Ok([FirstCall, SecondCall])
    ensures FindChildren(FirstCall, Twins) == Ok([])
    ensures FindChildren(SecondCall, Twins) == Ok([Nested])
    ensures FindChildren(Nested, Twins) == Ok([])
  {
    RootChildren();
    FirstChildren();
    SecondChildren();
    NestedChildren();
  }

  /** Two hops already in start order stay in that order. */
  lemma SortTwo(x: Request, y: Request)
    requires x.startTime.Some? && y.startTime.Some? && x.startTime.value <= y.startTime.value
    ensures AllStarted([x, y]) && SortByStart([x, y]) == [x, y]
  {
    assert [x, y][..1] == [x] && [x][..0] == [];
    assert SortByStart([x]) == [x];
    assert Insert(y, [x]) == [x] + Insert(y, []);
  }

  // The three stages of `makeRootIter` on `Twins`: both calls to "b" share
  // the map entry of the first, so the nested call lands below it.

  const KeyA := KeyOf(RootHop)
  const KeyB := KeyOf(FirstCall)
  const KeyC := KeyOf(Nested)

  const TwinsStart := IterState([RootHop], [Slot(RootHop, [])], map[KeyA := 0])
  const TwinsArena1 := [Slot(RootHop, [1, 2]), Slot(FirstCall, []), Slot(SecondCall, [])]
  const TwinsArena3 := [Slot(RootHop, [1, 2]), Slot(FirstCall, [3]), Slot(SecondCall, []), Slot(Nested, [])]
  const TwinsIndex1 := map[KeyA := 0, KeyB := 1]
  const TwinsIndex3 := map[KeyA := 0, KeyB := 1, KeyC := 3]

  lemma KeysDiffer()
    ensures KeyA != KeyB && KeyA != KeyC && KeyB != KeyC && KeyOf(SecondCall) == KeyB
  {
    assert "a"[0] != "b"[0] && "a"[0] != "c"[0] && "b"[0] != "c"[0];
  }

  /** One iteration of `makeRootIter`'s loop when the popped hop's children are timed. */
  lemma PopOf(q: Request, rest: seq<Request>, arena: seq<Slot>, index: map<Key, nat>, parent: nat,
              hops: seq<Request>, kids: seq<Request>)
    requires Tracked(IterState([q] + rest, arena, index))
    requires KeyOf(q) in index && index[KeyOf(q)] == parent
    requires FindChildren(q, hops) == Ok(kids) && AllTimed(kids)
    ensures PopWritten(IterState([q] + rest, arena, index), hops)
            == Ok(IterState(rest + kids, Attach(arena, parent, kids), PutAll(index, kids, |arena|)))
  {
    assert ([q] + rest)[0] == q && ([q] + rest)[1..] == rest;
  }

  lemma TwinsAttach1()
    ensures Attach([Slot(RootHop, [])], 0, [FirstCall, SecondCall]) == TwinsArena1
  {
    var r := Attach([Slot(RootHop, [])], 0, [FirstCall, SecondCall]);
    assert r[0].calls == [] + Ids(1, 2) == [1, 2];
  }

  lemma TwinsPut1()
    ensures PutAll(map[KeyA := 0], [FirstCall, SecondCall], 1) == TwinsIndex1
  {
    KeysDiffer();
    assert [FirstCall, SecondCall][1..] == [SecondCall] && [SecondCall][1..] == [];
    assert PutAll(TwinsIndex1, [SecondCall], 2) == TwinsIndex1;
  }

  lemma StartTracked()
    ensures [RootHop] + [] == [RootHop] && Tracked(TwinsStart)
  {
    assert [RootHop] + [] == [RootHop];
  }

  lemma TwinsPop1()
    ensures PopWritten(TwinsStart, Twins) == Ok(IterState([FirstCall, SecondCall], TwinsArena1, TwinsIndex1))
  {
    var kids := [FirstCall, SecondCall];
    RootChildren();
    StartTracked();
    PopOf(RootHop, [], [Slot(RootHop, [])], map[KeyA := 0], 0, Twins, kids);
    TwinsAttach1();
    TwinsPut1();
    assert [] + kids == kids;
  }

  lemma AttachNone(arena: seq<Slot>, parent: nat)
    requires WellFormed(arena) && parent < |arena|
    ensures Attach(arena, parent, []) == arena
  {
    var r := Attach(arena, parent, []);
    assert r[parent].calls == arena[parent].calls + [];
    assert forall i :: 0 <= i < |r| ==> r[i] == arena[i];
  }

  lemma TwinsAttach3()
    ensures WellFormed(TwinsArena1) && Attach(TwinsArena1, 1, [Nested]) == TwinsArena3
  {
    var r := Attach(TwinsArena1, 1, [Nested]);
    assert r[1].calls == [] + Ids(3, 1) == [3];
  }

  lemma TwinsPut3()
    ensures PutAll(TwinsIndex1, [Nested], 3) == TwinsIndex3
  {
    KeysDiffer();
    assert [Nested][1..] == [];
  }

  const TwinsState1 := IterState([FirstCall, SecondCall], TwinsArena1, TwinsIndex1)
  const TwinsState2 := IterState([SecondCall], TwinsArena1, TwinsIndex1)
  const TwinsState3 := IterState([Nested], TwinsArena3, TwinsIndex3)
  const TwinsDone := IterState([], TwinsArena3, TwinsIndex3)

  lemma TwinsTracked()
    ensures Tracked(TwinsState1) && Tracked(TwinsState2) && Tracked(TwinsState3)
  {
    KeysDiffer();
    assert WellFormed(TwinsArena1);
    assert WellFormed(TwinsArena3);
  }

  lemma TwinsPop2()
    ensures Tracked(TwinsState1) && PopWritten(TwinsState1, Twins) == Ok(TwinsState2)
  {
    FirstChildren();
    KeysDiffer();
    TwinsTracked();
    AttachNone(TwinsArena1, 1);
    assert [FirstCall] + [SecondCall] == [FirstCall, SecondCall];
    PopOf(FirstCall, [SecondCall], TwinsArena1, TwinsIndex1, 1, Twins, []);
    assert [SecondCall] + [] == [SecondCall];
    assert PutAll(TwinsIndex1, [], 3) == TwinsIndex1;
  }

  lemma TwinsPop3()
    ensures Tracked(TwinsState2) && PopWritten(TwinsState2, Twins) == Ok(TwinsState3)
  {
    SecondChildren();
    KeysDiffer();
    TwinsTracked();
    TwinsAttach3();
    TwinsPut3();
    assert [SecondCall] + [] == [SecondCall];
    PopOf(SecondCall, [], TwinsArena1, TwinsIndex1, 1, Twins, [Nested]);
    assert [] + [Nested] == [Nested];
  }

  lemma TwinsPop4()
    ensures Tracked(TwinsState3) && PopWritten(TwinsState3, Twins) == Ok(TwinsDone)
  {
    NestedChildren();
    KeysDiffer();
    TwinsTracked();
    AttachNone(TwinsArena3, 3);
    assert [Nested] + [] == [Nested];
    PopOf(Nested, [], TwinsArena3, TwinsIndex3, 3, Twins, []);
    assert PutAll(TwinsIndex3, [], 4) == TwinsIndex3;
  }

  /** The loop's states after each iteration on `Twins`, ending with the nested call below the first "b". */
  lemma TwinsRun()
    ensures RunWritten(4, TwinsStart, Twins) == Ok(TwinsDone)
  {
    TwinsPop1();
    TwinsPop2();
    TwinsPop3();
    TwinsPop4();
    assert RunWritten(1, TwinsState3, Twins) == RunWritten(0, TwinsDone, Twins);
    assert RunWritten(2, TwinsState2, Twins) == RunWritten(1, TwinsState3, Twins);
    assert RunWritten(3, TwinsState1, Twins) == RunWritten(2, TwinsState2, Twins);
  }

  /** `makeRoot`'s tree for `Twins`: the nested call sits below the second "b". */
  const TwinsTree :=
    Root("a", 1, 10, "s1", [Root("b", 2, 3, "s2", []), Root("b", 4, 5, "s3", [Root("c", 6, 7, "s4", [])])])

  /** `makeRootIter`'s tree for `Twins`: the nested call moved below the first "b". */
  const TwinsIterTree :=
    Root("a", 1, 10, "s1", [Root("b", 2, 3, "s2", [Root("c", 6, 7, "s4", [])]), Root("b", 4, 5, "s3", [])])

  const NestedTree := Root("c", 6, 7, "s4", [])
  const SecondTree := Root("b", 4, 5, "s3", [NestedTree])

  lemma TwinsSecondSubtree()
    ensures MakeRoot(2, SecondCall, Twins) == Ok(SecondTree)
  {
    TwinsChildren();
    MakeRootStep(1, Nested, Twins, [], []);
    assert [Nested][1..] == [];
    MakeCallsStep(1, [Nested], Twins, NestedTree, []);
    assert [NestedTree] + [] == [NestedTree];
    MakeRootStep(2, SecondCall, Twins, [Nested], [NestedTree]);
  }

  lemma TwinsMakeRoot()
    ensures MakeRoot(3, RootHop, Twins) == Ok(TwinsTree)
  {
    TwinsChildren();
    TwinsSecondSubtree();
    var first := Root("b", 2, 3, "s2", []);
    MakeRootStep(2, FirstCall, Twins, [], []);
    assert [SecondCall][1..] == [];
    MakeCallsStep(2, [SecondCall], Twins, SecondTree, []);
    assert [SecondTree] + [] == [SecondTree];
    assert [FirstCall, SecondCall][1..] == [SecondCall];
    MakeCallsStep(2, [FirstCall, SecondCall], Twins, first, [SecondTree]);
    assert [first] + [SecondTree] == [first, SecondTree];
    MakeRootStep(3, RootHop, Twins, [FirstCall, SecondCall], [first, SecondTree]);
  }

  /** A slot's tree, given the trees of its children. */
  lemma UnfoldStep(arena: seq<Slot>, i: nat, calls: seq<Root>)
    requires WellFormed(arena) && i < |arena|
    requires UnfoldAll(arena, i, arena[i].calls) == calls
    ensures var h := arena[i].hop;
            Unfold(arena, i) == Root(h.serviceName, h.startTime.value, h.endTime.value, h.newSpan, calls)
  {
  }

  /** The trees of a slot's children, one child at a time. */
  lemma UnfoldAllStep(arena: seq<Slot>, parent: nat, cs: seq<nat>, first: Root, rest: seq<Root>)
    requires WellFormed(arena) && parent < |arena|
    requires forall j :: 0 <= j < |cs| ==> parent < cs[j] < |arena|
    requires |cs| > 0 && Unfold(arena, cs[0]) == first && UnfoldAll(arena, parent, cs[1..]) == rest
    ensures UnfoldAll(arena, parent, cs) == [first] + rest
  {
  }

  lemma TwinsUnfold()
    ensures WellFormed(TwinsArena3) && Unfold(TwinsArena3, 0) == TwinsIterTree
  {
    TwinsAttach3();
    var a := TwinsArena3;
    UnfoldStep(a, 3, []);
    UnfoldStep(a, 2, []);
    UnfoldAllStep(a, 1, [3], NestedTree, []);
    UnfoldStep(a, 1, [NestedTree]);
    var firstIter := Root("b", 2, 3, "s2", [NestedTree]);
    var secondIter := Root("b", 4, 5, "s3", []);
    UnfoldAllStep(a, 0, [2], secondIter, []);
    assert [1, 2][1..] == [2];
    UnfoldAllStep(a, 0, [1, 2], firstIter, [secondIter]);
    UnfoldStep(a, 0, [firstIter, secondIter]);
  }

  lemma TwinsMakeRootIter()
    ensures MakeRootIter(4, RootHop, Twins) == Ok(TwinsIterTree)
  {
    TwinsRun();
    KeysDiffer();
    TwinsUnfold();
    assert TwinsIndex3[KeyA] == 0;
  }

  lemma TwinsTreeSize()
    ensures Size(TwinsTree) == 4
  {
    assert Size(NestedTree) == 1;
    assert SizeAll([NestedTree]) == 1;
    assert Size(SecondTree) == 2;
    var first := Root("b", 2, 3, "s2", []);
    assert Size(first) == 1;
    assert SizeAll([SecondTree]) == 2;
    assert SizeAll([first, SecondTree]) == 3;
  }

  /** The corrected builder, given one iteration per call, gives `makeRoot`'s tree. */
  lemma TwinsStrict()
    ensures StrictIter(4, RootHop, Twins) == Ok(TwinsTree)
  {
    TwinsMakeRoot();
    TwinsTreeSize();
    StrictIterMatchesMakeRoot(3, 4, RootHop, Twins);
  }

  /** Any depth from three up builds the same tree for `Twins`. */
  lemma TwinsAnyDepth(depth: nat)
    requires depth >= 3
    ensures MakeRoot(depth, RootHop, Twins) == Ok(TwinsTree)
  {
    TwinsMakeRoot();
    var d := 3;
    while d < depth
      invariant 3 <= d <= depth && MakeRoot(d, RootHop, Twins) == Ok(TwinsTree)
    {
      MakeRootMonotone(d, RootHop, Twins);
      d := d + 1;
    }
  }

  /** Any iteration bound from four up gives `makeRootIter` the same tree for `Twins`. */
  lemma TwinsAnyBound(iters: nat)
    requires iters >= 4
    ensures MakeRootIter(iters, RootHop, Twins) == Ok(TwinsIterTree)
  {
    TwinsMakeRootIter();
    MakeRootIterUpward(4, iters, RootHop, Twins);
  }

  /**
   * On `Twins` the loop of `makeRootIter` (given at least its four
   * iterations) and `makeRoot` (given any depth from three up) build
   * different trees.
   */
  lemma TwinsDisagree(depth: nat, iters: nat)
    requires depth >= 3 && iters >= 4
    ensures MakeRoot(depth, RootHop, Twins) == Ok(TwinsTree)
    ensures MakeRootIter(iters, RootHop, Twins) == Ok(TwinsIterTree) && TwinsIterTree != TwinsTree
  {
    TwinsAnyDepth(depth);
    TwinsAnyBound(iters);
    assert TwinsIterTree.calls[0].calls != TwinsTree.calls[0].calls;
  }
}
