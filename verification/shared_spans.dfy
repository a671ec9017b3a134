/**
 * A trace whose hops all have different `Request.equals` keys, on which
 * `makeRootIter` (`BO/Utils.java`) still builds a different tree from
 * `makeRoot`: two hops open the same span, so the hop below that span is
 * queued twice, and both of its expansions attach to the node the map made
 * first.
 */
module SharedSpans {
  import opened Wrappers
  import opened Requests
  import opened SpanSearch
  import opened Tree
  import opened TreeIter
  import opened Lockstep
  import opened Findings

  const HopA := Request(Some(1), Some(20), "t", "a", "null", "s1")
  const HopB := Request(Some(2), Some(3), "t", "b", "s1", "x")
  const HopC := Request(Some(4), Some(5), "t", "c", "s1", "x")
  const HopD := Request(Some(6), Some(7), "t", "d", "x", "y")
  const HopE := Request(Some(8), Some(9), "t", "e", "y", "z")
  const Shared := [HopA, HopB, HopC, HopD, HopE]

  /** The services of the example differ pairwise, and so do the spans that matter. */
  lemma NamesDiffer()
    ensures "a" != "b" && "a" != "c" && "a" != "d" && "a" != "e"
    ensures "b" != "c" && "b" != "d" && "b" != "e"
    ensures "c" != "d" && "c" != "e" && "d" != "e"
    ensures "x" != "y" && "x" != "z" && "y" != "z"
  {
    assert "a"[0] != "b"[0] && "a"[0] != "c"[0] && "a"[0] != "d"[0] && "a"[0] != "e"[0];
    assert "b"[0] != "c"[0] && "b"[0] != "d"[0] && "b"[0] != "e"[0];
    assert "c"[0] != "d"[0] && "c"[0] != "e"[0] && "d"[0] != "e"[0];
    assert "x"[0] != "y"[0] && "x"[0] != "z"[0] && "y"[0] != "z"[0];
  }

  /** Every hop has its own key, but the second and third hop open the same span. */
  lemma SharedKeys()
    ensures UniqueKeys(Shared) && !UniqueNewSpans(Shared)
  {
    NamesDiffer();
    forall a, b | 0 <= a < b < |Shared| ensures KeyOf(Shared[a]) != KeyOf(Shared[b]) {
      assert a == 0 || a == 1 || a == 2 || a == 3;
      assert b == 1 || b == 2 || b == 3 || b == 4;
    }
    assert Shared[1].newSpan == Shared[2].newSpan;
  }

  // ---------------------------------------------------------------------------
  // The children of every hop.

  lemma CandidatesOfFive(span: string, a: Request, b: Request, c: Request, d: Request, e: Request)
    ensures Candidates(span, [a, b, c, d, e])
         == Below(span, a) + (Below(span, b) + Below(span, c) + Below(span, d) + Below(span, e))
  {
    CandidatesOfFour(span, b, c, d, e);
    CandidatesCons(span, a, [b, c, d, e]);
    assert [a] + [b, c, d, e] == [a, b, c, d, e];
  }

  lemma CandidatesOfA()
    ensures Candidates("s1", Shared) == [HopB, HopC]
  {
    assert "s1" != "null" && "s1" != "x" && "s1" != "y" && "s1" != "z";
    CandidatesOfFive("s1", HopA, HopB, HopC, HopD, HopE);
    assert Below("s1", HopA) == [] && Below("s1", HopD) == [] && Below("s1", HopE) == [];
    assert Below("s1", HopB) == [HopB] && Below("s1", HopC) == [HopC];
    assert [] + ([HopB] + [HopC] + [] + []) == [HopB, HopC];
  }

  lemma ChildrenOfA()
    ensures FindChildren(HopA, Shared) == Ok([HopB, HopC]) && AllTimed([HopB, HopC])
  {
    CandidatesOfA();
    SortTwo(HopB, HopC);
  }

  lemma ChildrenOfX(parent: Request)
    requires parent.newSpan == "x"
    ensures FindChildren(parent, Shared) == Ok([HopD]) && AllTimed([HopD])
  {
    NamesDiffer();
    CandidatesOfFive("x", HopA, HopB, HopC, HopD, HopE);
    assert Below("x", HopA) == [] && Below("x", HopB) == [] && Below("x", HopC) == [] && Below("x", HopE) == [];
    assert [] + ([] + [] + [] + [HopD] + []) == [HopD];
  }

  lemma ChildrenOfD()
    ensures FindChildren(HopD, Shared) == Ok([HopE]) && AllTimed([HopE])
  {
    NamesDiffer();
    CandidatesOfFive("y", HopA, HopB, HopC, HopD, HopE);
    assert [] + ([] + [] + [] + [] + [HopE]) == [HopE];
  }

  lemma ChildrenOfE()
    ensures FindChildren(HopE, Shared) == Ok([])
  {
    NamesDiffer();
    CandidatesOfFive("z", HopA, HopB, HopC, HopD, HopE);
  }

  // ---------------------------------------------------------------------------
  // `makeRoot` copies the subtree below the shared span under both parents.

  const TreeE := Root("e", 8, 9, "z", [])
  const TreeD := Root("d", 6, 7, "y", [TreeE])
  const TreeB := Root("b", 2, 3, "x", [TreeD])
  const TreeC := Root("c", 4, 5, "x", [TreeD])
  const SharedTree := Root("a", 1, 20, "s1", [TreeB, TreeC])

  lemma OneCall(fuel: nat, kid: Request, t: Root)
    requires MakeRoot(fuel, kid, Shared) == Ok(t)
    ensures MakeCalls(fuel, [kid], Shared) == Ok([t])
  {
    assert [kid][1..] == [];
    MakeCallsStep(fuel, [kid], Shared, t, []);
    assert [t] + [] == [t];
  }

  lemma SharedSubtree()
    ensures MakeRoot(2, HopD, Shared) == Ok(TreeD)
  {
    ChildrenOfE();
    ChildrenOfD();
    MakeRootStep(1, HopE, Shared, [], []);
    OneCall(1, HopE, TreeE);
    MakeRootStep(2, HopD, Shared, [HopE], [TreeE]);
  }

  lemma SharedMakeRoot()
    ensures MakeRoot(4, HopA, Shared) == Ok(SharedTree)
  {
    SharedSubtree();
    ChildrenOfX(HopB);
    ChildrenOfX(HopC);
    ChildrenOfA();
    OneCall(2, HopD, TreeD);
    MakeRootStep(3, HopB, Shared, [HopD], [TreeD]);
    MakeRootStep(3, HopC, Shared, [HopD], [TreeD]);
    OneCall(3, HopC, TreeC);
    assert [HopB, HopC][1..] == [HopC];
    MakeCallsStep(3, [HopB, HopC], Shared, TreeB, [TreeC]);
    assert [TreeB] + [TreeC] == [TreeB, TreeC];
    MakeRootStep(4, HopA, Shared, [HopB, HopC], [TreeB, TreeC]);
  }

  // ---------------------------------------------------------------------------
  // `makeRootIter`: seven iterations, two of which expand the shared hop.

  const KeyOfA := KeyOf(HopA)
  const KeyOfB := KeyOf(HopB)
  const KeyOfC := KeyOf(HopC)
  const KeyOfD := KeyOf(HopD)
  const KeyOfE := KeyOf(HopE)

  const Index0 := map[KeyOfA := 0]
  const Index1 := map[KeyOfA := 0, KeyOfB := 1, KeyOfC := 2]
  const Index2 := map[KeyOfA := 0, KeyOfB := 1, KeyOfC := 2, KeyOfD := 3]
  const Index4 := map[KeyOfA := 0, KeyOfB := 1, KeyOfC := 2, KeyOfD := 3, KeyOfE := 5]

  const Arena0 := [Slot(HopA, [])]
  const Arena1 := [Slot(HopA, [1, 2]), Slot(HopB, []), Slot(HopC, [])]
  const Arena2 := [Slot(HopA, [1, 2]), Slot(HopB, [3]), Slot(HopC, []), Slot(HopD, [])]
  const Arena3 := [Slot(HopA, [1, 2]), Slot(HopB, [3]), Slot(HopC, [4]), Slot(HopD, []), Slot(HopD, [])]
  const Arena4 := [Slot(HopA, [1, 2]), Slot(HopB, [3]), Slot(HopC, [4]), Slot(HopD, [5]), Slot(HopD, []),
                   Slot(HopE, [])]
  const Arena5 := [Slot(HopA, [1, 2]), Slot(HopB, [3]), Slot(HopC, [4]), Slot(HopD, [5, 6]), Slot(HopD, []),
                   Slot(HopE, []), Slot(HopE, [])]

  const State0 := IterState([HopA], Arena0, Index0)
  const State1 := IterState([HopB, HopC], Arena1, Index1)
  const State2 := IterState([HopC, HopD], Arena2, Index2)
  const State3 := IterState([HopD, HopD], Arena3, Index2)
  const State4 := IterState([HopD, HopE], Arena4, Index4)
  const State5 := IterState([HopE, HopE], Arena5, Index4)
  const State6 := IterState([HopE], Arena5, Index4)
  const State7 := IterState([], Arena5, Index4)

  lemma KeysApart()
    ensures KeyOfA != KeyOfB && KeyOfA != KeyOfC && KeyOfA != KeyOfD && KeyOfA != KeyOfE
    ensures KeyOfB != KeyOfC && KeyOfB != KeyOfD && KeyOfB != KeyOfE
    ensures KeyOfC != KeyOfD && KeyOfC != KeyOfE && KeyOfD != KeyOfE
  {
    NamesDiffer();
  }

  lemma StartsTracked()
    ensures Tracked(State0) && [HopA] + [] == [HopA]
  {
  }

  lemma Attach1()
    ensures Attach(Arena0, 0, [HopB, HopC]) == Arena1
  {
    var r := Attach(Arena0, 0, [HopB, HopC]);
    assert r[0].calls == [] + Ids(1, 2) == [1, 2];
  }

  lemma Attach2()
    ensures WellFormed(Arena1) && Attach(Arena1, 1, [HopD]) == Arena2
  {
    assert WellFormed(Arena1);
    var r := Attach(Arena1, 1, [HopD]);
    assert r[1].calls == [] + Ids(3, 1) == [3];
  }

  lemma Attach3()
    ensures WellFormed(Arena2) && Attach(Arena2, 2, [HopD]) == Arena3
  {
    assert WellFormed(Arena2);
    var r := Attach(Arena2, 2, [HopD]);
    assert r[2].calls == [] + Ids(4, 1) == [4];
  }

  lemma Attach4()
    ensures WellFormed(Arena3) && Attach(Arena3, 3, [HopE]) == Arena4
  {
    assert WellFormed(Arena3);
    var r := Attach(Arena3, 3, [HopE]);
    assert r[3].calls == [] + Ids(5, 1) == [5];
  }

  lemma Attach5()
    ensures WellFormed(Arena4) && Attach(Arena4, 3, [HopE]) == Arena5
  {
    assert WellFormed(Arena4);
    var r := Attach(Arena4, 3, [HopE]);
    assert r[3].calls == [5] + Ids(6, 1) == [5, 6];
  }

  lemma Put1()
    ensures PutAll(Index0, [HopB, HopC], 1) == Index1
  {
    KeysApart();
    assert [HopB, HopC][1..] == [HopC] && [HopC][1..] == [];
    assert PutAll(Index0, [HopB, HopC], 1) == PutAll(Index0[KeyOfB := 1], [HopC], 2);
    assert PutAll(Index0[KeyOfB := 1], [HopC], 2) == PutAll(Index1, [], 3);
  }

  /** `putIfAbsent` of a child whose key is already mapped leaves the map alone. */
  lemma PutPresent(index: map<Key, nat>, kid: Request, n: nat)
    requires KeyOf(kid) in index
    ensures PutAll(index, [kid], n) == index
  {
    assert [kid][1..] == [];
  }

  /** `putIfAbsent` of a child with a new key maps it to its node. */
  lemma PutAbsent(index: map<Key, nat>, kid: Request, n: nat)
    requires KeyOf(kid) !in index
    ensures PutAll(index, [kid], n) == index[KeyOf(kid) := n]
  {
    assert [kid][1..] == [];
  }

  lemma Pop1()
    ensures PopWritten(State0, Shared) == Ok(State1)
  {
    ChildrenOfA();
    StartsTracked();
    PopOf(HopA, [], Arena0, Index0, 0, Shared, [HopB, HopC]);
    Attach1();
    Put1();
    assert [] + [HopB, HopC] == [HopB, HopC];
  }

  lemma Pop2()
    requires Tracked(State1)
    ensures PopWritten(State1, Shared) == Ok(State2)
  {
    ChildrenOfX(HopB);
    KeysApart();
    assert [HopB] + [HopC] == [HopB, HopC];
    PopOf(HopB, [HopC], Arena1, Index1, 1, Shared, [HopD]);
    Attach2();
    PutAbsent(Index1, HopD, 3);
    assert [HopC] + [HopD] == [HopC, HopD];
  }

  lemma Pop3()
    requires Tracked(State2)
    ensures PopWritten(State2, Shared) == Ok(State3)
  {
    ChildrenOfX(HopC);
    KeysApart();
    assert [HopC] + [HopD] == [HopC, HopD];
    PopOf(HopC, [HopD], Arena2, Index2, 2, Shared, [HopD]);
    Attach3();
    PutPresent(Index2, HopD, 4);
    assert [HopD] + [HopD] == [HopD, HopD];
  }

  /** The first expansion of the shared hop attaches its child to the first node made for it. */
  lemma Pop4()
    requires Tracked(State3)
    ensures PopWritten(State3, Shared) == Ok(State4)
  {
    ChildrenOfD();
    KeysApart();
    assert [HopD] + [HopD] == [HopD, HopD];
    PopOf(HopD, [HopD], Arena3, Index2, 3, Shared, [HopE]);
    Attach4();
    PutAbsent(Index2, HopE, 5);
    assert [HopD] + [HopE] == [HopD, HopE];
  }

  /** The second expansion of the shared hop attaches to that same node, not to its own. */
  lemma Pop5()
    requires Tracked(State4)
    ensures PopWritten(State4, Shared) == Ok(State5)
  {
    ChildrenOfD();
    KeysApart();
    assert [HopD] + [HopE] == [HopD, HopE];
    PopOf(HopD, [HopE], Arena4, Index4, 3, Shared, [HopE]);
    Attach5();
    PutPresent(Index4, HopE, 6);
    assert [HopE] + [HopE] == [HopE, HopE];
  }

  lemma Pop6()
    requires Tracked(State5)
    ensures PopWritten(State5, Shared) == Ok(State6)
  {
    ChildrenOfE();
    KeysApart();
    assert [HopE] + [HopE] == [HopE, HopE];
    PopOf(HopE, [HopE], Arena5, Index4, 5, Shared, []);
    AttachNone(Arena5, 5);
    assert [HopE] + [] == [HopE];
  }

  lemma Pop7()
    requires Tracked(State6)
    ensures PopWritten(State6, Shared) == Ok(State7)
  {
    ChildrenOfE();
    KeysApart();
    assert [HopE] + [] == [HopE];
    PopOf(HopE, [], Arena5, Index4, 5, Shared, []);
    AttachNone(Arena5, 5);
    assert State6.queue[1..] + [] == [];
  }

  lemma SharedRun()
    ensures RunWritten(7, State0, Shared) == Ok(State7)
  {
    StartsTracked();
    Pop1();
    Pop2();
    Pop3();
    Pop4();
    Pop5();
    Pop6();
    Pop7();
    assert RunWritten(1, State6, Shared) == RunWritten(0, State7, Shared);
    assert RunWritten(2, State5, Shared) == RunWritten(1, State6, Shared);
    assert RunWritten(3, State4, Shared) == RunWritten(2, State5, Shared);
    assert RunWritten(4, State3, Shared) == RunWritten(3, State4, Shared);
    assert RunWritten(5, State2, Shared) == RunWritten(4, State3, Shared);
    assert RunWritten(6, State1, Shared) == RunWritten(5, State2, Shared);
  }

  /** `makeRootIter`'s tree: both "e" calls under the first "d", none under the second. */
  const LeafD := Root("d", 6, 7, "y", [])
  const TwiceD := Root("d", 6, 7, "y", [TreeE, TreeE])
  const SharedIterTree := Root("a", 1, 20, "s1", [Root("b", 2, 3, "x", [TwiceD]), Root("c", 4, 5, "x", [LeafD])])

  lemma SharedUnfold()
    ensures WellFormed(Arena5) && Unfold(Arena5, 0) == SharedIterTree
  {
    assert WellFormed(Arena5);
    var a := Arena5;
    UnfoldStep(a, 6, []);
    UnfoldStep(a, 5, []);
    UnfoldStep(a, 4, []);
    UnfoldAllStep(a, 3, [6], TreeE, []);
    assert [5, 6][1..] == [6];
    UnfoldAllStep(a, 3, [5, 6], TreeE, [TreeE]);
    UnfoldStep(a, 3, [TreeE, TreeE]);
    UnfoldAllStep(a, 2, [4], LeafD, []);
    UnfoldStep(a, 2, [LeafD]);
    UnfoldAllStep(a, 1, [3], TwiceD, []);
    UnfoldStep(a, 1, [TwiceD]);
    var b := Root("b", 2, 3, "x", [TwiceD]);
    var c := Root("c", 4, 5, "x", [LeafD]);
    UnfoldAllStep(a, 0, [2], c, []);
    assert [1, 2][1..] == [2];
    UnfoldAllStep(a, 0, [1, 2], b, [c]);
    UnfoldStep(a, 0, [b, c]);
  }

  lemma SharedMakeRootIter()
    ensures MakeRootIter(7, HopA, Shared) == Ok(SharedIterTree)
  {
    SharedRun();
    SharedUnfold();
    assert Index4[KeyOfA] == 0;
  }

  /** Any depth from four up gives `makeRoot` the same tree for `Shared`. */
  lemma SharedAnyDepth(depth: nat)
    requires depth >= 4
    ensures MakeRoot(depth, HopA, Shared) == Ok(SharedTree)
  {
    SharedMakeRoot();
    var d := 4;
    while d < depth
      invariant 4 <= d <= depth && MakeRoot(d, HopA, Shared) == Ok(SharedTree)
    {
      MakeRootMonotone(d, HopA, Shared);
      d := d + 1;
    }
  }

  /** Any iteration bound from seven up gives `makeRootIter` the same tree for `Shared`. */
  lemma SharedAnyBound(iters: nat)
    requires iters >= 7
    ensures MakeRootIter(iters, HopA, Shared) == Ok(SharedIterTree)
  {
    SharedMakeRootIter();
    MakeRootIterUpward(7, iters, HopA, Shared);
  }

  /**
   * Unique keys are not enough: on `Shared`, whose hops have pairwise
   * different keys, `makeRoot` (at any depth from four up) and
   * `makeRootIter` (given at least its seven iterations) build different
   * trees.
   */
  lemma UniqueKeysNotEnough(depth: nat, iters: nat)
    requires depth >= 4 && iters >= 7
    ensures UniqueKeys(Shared) && !UniqueNewSpans(Shared)
    ensures MakeRoot(depth, HopA, Shared) == Ok(SharedTree)
    ensures MakeRootIter(iters, HopA, Shared) == Ok(SharedIterTree) && SharedIterTree != SharedTree
  {
    SharedKeys();
    SharedAnyDepth(depth);
    SharedAnyBound(iters);
    assert SharedIterTree.calls[1].calls[0].calls != SharedTree.calls[1].calls[0].calls;
  }
}
