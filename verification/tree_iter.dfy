/**
 * `makeRootIter` in `BO/Utils.java`: the call tree built breadth-first with a
 * work queue and a map from hops to nodes. Java's `Root` objects are shared
 * and mutated in place; here they live in an arena of slots that name their
 * calls by slot number, and the finished tree is read off the arena.
 */
module TreeIter {
  import opened Wrappers
  import opened Requests
  import opened SpanSearch
  import opened Tree

  /** A node under construction: its hop and the slots of its calls, in order. */
  datatype Slot = Slot(hop: Request, calls: seq<nat>)

  /** Calls point forward and stay inside the arena; every node's hop is timed. */
  predicate WellFormed(arena: seq<Slot>) {
    && (forall i :: 0 <= i < |arena| ==> Timed(arena[i].hop))
    && (forall i, j :: 0 <= i < |arena| && 0 <= j < |arena[i].calls| ==> i < arena[i].calls[j] < |arena|)
  }

  /** The hops of the slots, in slot order. */
  function Hops(arena: seq<Slot>): (hs: seq<Request>) {
    seq(|arena|, i requires 0 <= i < |arena| => arena[i].hop)
  }

  /** The tree rooted at slot `i`. */
  function Unfold(arena: seq<Slot>, i: nat): (t: Root)
    requires WellFormed(arena) && i < |arena|
    ensures ShowsHop(t, arena[i].hop)
    ensures |t.calls| == |arena[i].calls|
    decreases |arena| - i, 1
  {
    var h := arena[i].hop;
    Root(h.serviceName, h.startTime.value, h.endTime.value, h.newSpan, UnfoldAll(arena, i, arena[i].calls))
  }

  /** The trees rooted at the slots `cs`, all of which lie after `parent`. */
  function UnfoldAll(arena: seq<Slot>, parent: nat, cs: seq<nat>): (ts: seq<Root>)
    requires WellFormed(arena) && parent < |arena|
    requires forall j :: 0 <= j < |cs| ==> parent < cs[j] < |arena|
    ensures |ts| == |cs|
    decreases |arena| - parent, 0, |cs|
  {
    if |cs| == 0 then [] else [Unfold(arena, cs[0])] + UnfoldAll(arena, parent, cs[1..])
  }

  lemma {:induction false} UnfoldAllElems(arena: seq<Slot>, parent: nat, cs: seq<nat>)
    requires WellFormed(arena) && parent < |arena|
    requires forall j :: 0 <= j < |cs| ==> parent < cs[j] < |arena|
    ensures forall j :: 0 <= j < |cs| ==> UnfoldAll(arena, parent, cs)[j] == Unfold(arena, cs[j])
    decreases |cs|
  {
    if |cs| > 0 {
      UnfoldAllElems(arena, parent, cs[1..]);
    }
  }

  // ---------------------------------------------------------------------------
  // Adding children to a node.

  predicate AllTimed(kids: seq<Request>) {
    forall j :: 0 <= j < |kids| ==> Timed(kids[j])
  }

  /** The slot numbers `from`, `from + 1`, ..., `from + k - 1`. */
  function Ids(from: nat, k: nat): (r: seq<nat>) {
    seq(k, j => from + j)
  }

  /** Fresh nodes for `kids`, without calls yet (`requestToRoot` of each). */
  function Leaves(kids: seq<Request>): (r: seq<Slot>) {
    seq(|kids|, j requires 0 <= j < |kids| => Slot(kids[j], []))
  }

  /**
   * One pass of the inner loop: a fresh node per child is created and
   * appended, in order, to the calls of the node in slot `parent`.
   */
  function Attach(arena: seq<Slot>, parent: nat, kids: seq<Request>): (r: seq<Slot>)
    requires WellFormed(arena) && parent < |arena| && AllTimed(kids)
    ensures WellFormed(r)
    ensures |r| == |arena| + |kids|
    ensures r[parent].calls == arena[parent].calls + Ids(|arena|, |kids|)
    ensures forall i :: 0 <= i < |arena| && i != parent ==> r[i] == arena[i]
    ensures forall i :: 0 <= i < |r| ==> r[i].hop == if i < |arena| then arena[i].hop else kids[i - |arena|]
    ensures forall i :: |arena| <= i < |r| ==> r[i].calls == []
    ensures Hops(r) == Hops(arena) + kids
  {
    var n := |arena|;
    var r := arena[parent := Slot(arena[parent].hop, arena[parent].calls + Ids(n, |kids|))] + Leaves(kids);
    AttachWellFormed(arena, parent, kids, r);
    AttachShape(arena, parent, kids, r);
    r
  }

  lemma AttachShape(arena: seq<Slot>, parent: nat, kids: seq<Request>, r: seq<Slot>)
    requires parent < |arena|
    requires r == arena[parent := Slot(arena[parent].hop, arena[parent].calls + Ids(|arena|, |kids|))] + Leaves(kids)
    ensures forall i :: 0 <= i < |arena| && i != parent ==> r[i] == arena[i]
    ensures forall i :: 0 <= i < |r| ==> r[i].hop == if i < |arena| then arena[i].hop else kids[i - |arena|]
    ensures forall i :: |arena| <= i < |r| ==> r[i].calls == []
    ensures Hops(r) == Hops(arena) + kids
  {
    var n := |arena|;
    forall i | 0 <= i < |r| ensures r[i].hop == if i < n then arena[i].hop else kids[i - n] {
      if i >= n {
        assert r[i] == Leaves(kids)[i - n];
      }
    }
    forall i | n <= i < |r| ensures r[i].calls == [] {
      assert r[i] == Leaves(kids)[i - n];
    }
    var hs := Hops(arena) + kids;
    forall i | 0 <= i < |r| ensures Hops(r)[i] == hs[i] {
    }
  }

  lemma AttachWellFormed(arena: seq<Slot>, parent: nat, kids: seq<Request>, r: seq<Slot>)
    requires WellFormed(arena) && parent < |arena| && AllTimed(kids)
    requires r == arena[parent := Slot(arena[parent].hop, arena[parent].calls + Ids(|arena|, |kids|))] + Leaves(kids)
    ensures WellFormed(r)
  {
    var n := |arena|;
    forall i | 0 <= i < |r| ensures Timed(r[i].hop) {
      if i >= n {
        assert r[i] == Slot(kids[i - n], []);
      }
    }
    forall i, j | 0 <= i < |r| && 0 <= j < |r[i].calls| ensures i < r[i].calls[j] < |r| {
      if i == parent {
        var cs := arena[parent].calls;
        if j >= |cs| {
          assert r[i].calls[j] == Ids(n, |kids|)[j - |cs|];
        }
      } else {
        assert i < n;
      }
    }
  }

  // ---------------------------------------------------------------------------
  // Breadth-first construction where each queued hop carries its own node.

  /**
   * Expands the node in slot `next`: its children, found by `findChildren`,
   * become its calls. The queue is implicit: it is the slots from `next` on,
   * because every node is queued exactly when it is created.
   */
  function ExpandStrict(arena: seq<Slot>, next: nat, hops: seq<Request>): (r: Result<seq<Slot>, BuildError>)
    requires WellFormed(arena) && next < |arena|
    ensures r.Ok? ==> WellFormed(r.value) && Hops(arena) <= Hops(r.value)
    ensures r.Err? ==> r.error == AbsentTimestamp
  {
    match FindChildren(arena[next].hop, hops)
    case Err(e) => Err(e)
    case Ok(kids) =>
      if AllTimed(kids) then Ok(Attach(arena, next, kids))
      else Err(AbsentTimestamp)
  }

  /** Runs the queue dry, expanding at most `fuel` nodes. */
  function RunStrict(fuel: nat, arena: seq<Slot>, next: nat, hops: seq<Request>): (r: Result<seq<Slot>, BuildError>)
    requires WellFormed(arena) && next <= |arena|
    ensures r.Ok? ==> WellFormed(r.value) && Hops(arena) <= Hops(r.value)
    ensures r.Err? ==> r.error != NoRoot
    decreases fuel
  {
    if next == |arena| then Ok(arena)
    else if fuel == 0 then Err(OutOfFuel)
    else
      match ExpandStrict(arena, next, hops)
      case Err(e) => Err(e)
      case Ok(a) => RunStrict(fuel - 1, a, next + 1, hops)
  }

  /** The breadth-first builder with the node map keyed by node identity. */
  function StrictIter(fuel: nat, q: Request, hops: seq<Request>): (r: Result<Root, BuildError>)
    ensures r.Ok? ==> ShowsHop(r.value, q)
    ensures !Timed(q) ==> r == Err(AbsentTimestamp)
  {
    if !Timed(q) then Err(AbsentTimestamp)
    else
      match RunStrict(fuel, [Slot(q, [])], 0, hops)
      case Err(e) => Err(e)
      case Ok(arena) =>
        assert Hops([Slot(q, [])])[0] == arena[0].hop;
        Ok(Unfold(arena, 0))
  }

  // ---------------------------------------------------------------------------
  // `makeRootIter` as written: the node map is keyed by `Request.equals`.

  /** The loop state: the queue of hops, the nodes, and `requestRootMap`. */
  datatype IterState = IterState(queue: seq<Request>, arena: seq<Slot>, index: map<Key, nat>)

  /** Map entries name nodes, and every queued hop has an entry. */
  predicate Tracked(st: IterState) {
    && WellFormed(st.arena)
    && (forall k :: k in st.index ==> st.index[k] < |st.arena|)
    && (forall i :: 0 <= i < |st.queue| ==> KeyOf(st.queue[i]) in st.index)
  }

  /**
   * `putIfAbsent` for each child in turn, the child at position `j` having
   * its node in slot `n + j`: existing entries win, and a new entry names a
   * child with that key.
   */
  function PutAll(index: map<Key, nat>, kids: seq<Request>, n: nat): (r: map<Key, nat>)
    ensures forall k :: k in index ==> k in r && r[k] == index[k]
    ensures forall j :: 0 <= j < |kids| ==> KeyOf(kids[j]) in r
    decreases |kids|
  {
    if |kids| == 0 then index
    else
      var k := KeyOf(kids[0]);
      var r := PutAll(if k in index then index else index[k := n], kids[1..], n + 1);
      assert forall j :: 1 <= j < |kids| ==> kids[j] == kids[1..][j - 1];
      r
  }

  /** Every entry of `r` missing from `index` names the node of a child with that key. */
  predicate NewEntriesNamed(index: map<Key, nat>, r: map<Key, nat>, kids: seq<Request>, n: nat) {
    forall k :: k in r && k !in index ==> n <= r[k] < n + |kids| && KeyOf(kids[r[k] - n]) == k
  }

  lemma {:induction false} PutAllNew(index: map<Key, nat>, kids: seq<Request>, n: nat)
    ensures NewEntriesNamed(index, PutAll(index, kids, n), kids, n)
    decreases |kids|
  {
    if |kids| > 0 {
      var k0 := KeyOf(kids[0]);
      PutAllNew(if k0 in index then index else index[k0 := n], kids[1..], n + 1);
      PutAllNewCons(index, kids, n);
    } else {
      assert PutAll(index, kids, n) == index;
    }
  }

  lemma PutAllNewCons(index: map<Key, nat>, kids: seq<Request>, n: nat)
    requires |kids| > 0
    requires var k0 := KeyOf(kids[0]);
             var index' := if k0 in index then index else index[k0 := n];
             NewEntriesNamed(index', PutAll(index', kids[1..], n + 1), kids[1..], n + 1)
    ensures NewEntriesNamed(index, PutAll(index, kids, n), kids, n)
  {
    var k0 := KeyOf(kids[0]);
    var index' := if k0 in index then index else index[k0 := n];
    var rest := kids[1..];
    var r := PutAll(index, kids, n);
    assert r == PutAll(index', rest, n + 1);
    forall k | k in r && k !in index ensures n <= r[k] < n + |kids| && KeyOf(kids[r[k] - n]) == k {
      if k == k0 {
        assert r[k] == n;
      } else {
        assert k !in index';
        assert kids[r[k] - n] == rest[r[k] - (n + 1)];
      }
    }
    assert NewEntriesNamed(index, r, kids, n);
  }

  /** Children whose keys are new and pairwise different each get their own entry. */
  lemma {:induction false} PutAllFresh(index: map<Key, nat>, kids: seq<Request>, n: nat)
    requires forall j :: 0 <= j < |kids| ==> KeyOf(kids[j]) !in index
    requires forall a, b :: 0 <= a < b < |kids| ==> KeyOf(kids[a]) != KeyOf(kids[b])
    ensures forall j :: 0 <= j < |kids| ==> PutAll(index, kids, n)[KeyOf(kids[j])] == n + j
    decreases |kids|
  {
    if |kids| > 0 {
      var k := KeyOf(kids[0]);
      var rest := kids[1..];
      assert forall j :: 1 <= j < |kids| ==> kids[j] == rest[j - 1];
      PutAllFresh(index[k := n], rest, n + 1);
    }
  }

  /**
   * One iteration of the `while` loop: pop a hop, find its children, and
   * attach a node per child to the node the map holds for the popped hop's
   * key, which need not be the node created for the popped hop.
   */
  function PopWritten(st: IterState, hops: seq<Request>): (r: Result<IterState, BuildError>)
    requires Tracked(st) && |st.queue| > 0
    ensures r.Ok? ==> Tracked(r.value) && Hops(st.arena) <= Hops(r.value.arena)
    ensures r.Ok? ==> forall k :: k in st.index ==> k in r.value.index && r.value.index[k] == st.index[k]
    ensures r.Ok? ==> FindChildren(st.queue[0], hops).Ok? && r.value.queue == st.queue[1..] + FindChildren(st.queue[0], hops).value
    ensures r.Err? ==> r.error == AbsentTimestamp
  {
    var popped := st.queue[0];
    match FindChildren(popped, hops)
    case Err(e) => Err(e)
    case Ok(kids) =>
      if !AllTimed(kids) then Err(AbsentTimestamp)
      else
        var parent := st.index[KeyOf(popped)];
        var r := IterState(st.queue[1..] + kids, Attach(st.arena, parent, kids), PutAll(st.index, kids, |st.arena|));
        PopTracked(st, kids, r);
        Ok(r)
  }

  lemma PopTracked(st: IterState, kids: seq<Request>, r: IterState)
    requires Tracked(st) && |st.queue| > 0 && AllTimed(kids)
    requires KeyOf(st.queue[0]) in st.index
    requires r == IterState(st.queue[1..] + kids, Attach(st.arena, st.index[KeyOf(st.queue[0])], kids),
                            PutAll(st.index, kids, |st.arena|))
    ensures Tracked(r)
  {
    PutAllNew(st.index, kids, |st.arena|);
    forall i | 0 <= i < |r.queue| ensures KeyOf(r.queue[i]) in r.index {
      if i < |st.queue| - 1 {
        assert r.queue[i] == st.queue[i + 1];
      } else {
        assert r.queue[i] == kids[i - (|st.queue| - 1)];
      }
    }
  }

  /** The `while` loop, running at most `fuel` iterations. */
  function RunWritten(fuel: nat, st: IterState, hops: seq<Request>): (r: Result<IterState, BuildError>)
    requires Tracked(st)
    ensures r.Ok? ==> Tracked(r.value) && r.value.queue == [] && Hops(st.arena) <= Hops(r.value.arena)
    ensures r.Ok? ==> forall k :: k in st.index ==> k in r.value.index && r.value.index[k] == st.index[k]
    ensures r.Err? ==> r.error != NoRoot
    decreases fuel
  {
    if |st.queue| == 0 then Ok(st)
    else if fuel == 0 then Err(OutOfFuel)
    else
      match PopWritten(st, hops)
      case Err(e) => Err(e)
      case Ok(s) => RunWritten(fuel - 1, s, hops)
  }

  /** `makeRootIter`: the node the map holds for the root hop once the queue is empty. */
  function MakeRootIter(fuel: nat, q: Request, hops: seq<Request>): (r: Result<Root, BuildError>)
    ensures r.Ok? ==> ShowsHop(r.value, q)
    ensures !Timed(q) ==> r == Err(AbsentTimestamp)
  {
    if !Timed(q) then Err(AbsentTimestamp)
    else
      var init := IterState([q], [Slot(q, [])], map[KeyOf(q) := 0]);
      match RunWritten(fuel, init, hops)
      case Err(e) => Err(e)
      case Ok(st) =>
        assert st.index[KeyOf(q)] == 0;
        assert Hops(init.arena)[0] == st.arena[0].hop;
        Ok(Unfold(st.arena, st.index[KeyOf(q)]))
  }

  /** Once the loop has emptied the queue within `fuel` iterations, more iterations change nothing. */
  lemma {:induction false} RunWrittenMonotone(fuel: nat, st: IterState, hops: seq<Request>)
    requires Tracked(st) && RunWritten(fuel, st, hops).Ok?
    ensures RunWritten(fuel + 1, st, hops) == RunWritten(fuel, st, hops)
    decreases fuel
  {
    if |st.queue| > 0 {
      var s := PopWritten(st, hops).value;
      RunWrittenMonotone(fuel - 1, s, hops);
    }
  }

  /** A tree that `makeRootIter` finishes within `fuel` iterations is also its result for more. */
  lemma MakeRootIterMonotone(fuel: nat, q: Request, hops: seq<Request>)
    requires MakeRootIter(fuel, q, hops).Ok?
    ensures MakeRootIter(fuel + 1, q, hops) == MakeRootIter(fuel, q, hops)
  {
    RunWrittenMonotone(fuel, IterState([q], [Slot(q, [])], map[KeyOf(q) := 0]), hops);
  }

  /** A tree that the loop finishes within `fuel` iterations is its result for every larger bound. */
  lemma {:induction false} MakeRootIterUpward(fuel: nat, more: nat, q: Request, hops: seq<Request>)
    requires MakeRootIter(fuel, q, hops).Ok? && fuel <= more
    ensures MakeRootIter(more, q, hops) == MakeRootIter(fuel, q, hops)
    decreases more - fuel
  {
    if fuel < more {
      MakeRootIterMonotone(fuel, q, hops);
      MakeRootIterUpward(fuel + 1, more, q, hops);
    }
  }

  // ---------------------------------------------------------------------------
  // The corrected builder builds `makeRoot`'s tree.

  /** Slot `i` is expanded: its calls are nodes for exactly `findChildren`'s result, in order. */
  predicate Expanded(arena: seq<Slot>, i: nat, hops: seq<Request>)
    requires i < |arena|
  {
    var found := FindChildren(arena[i].hop, hops);
    && found.Ok?
    && |arena[i].calls| == |found.value|
    && forall j :: 0 <= j < |arena[i].calls| ==>
         arena[i].calls[j] < |arena| && arena[arena[i].calls[j]].hop == found.value[j]
  }

  /**
   * Between expansions: the slots before `next` are expanded, the later
   * ones still have no calls, and every slot's hop has a tree of depth
   * at most `depth`.
   */
  ghost predicate BfsInv(arena: seq<Slot>, next: nat, depth: nat, hops: seq<Request>) {
    && WellFormed(arena)
    && next <= |arena|
    && (forall i :: 0 <= i < next ==> Expanded(arena, i, hops))
    && (forall i :: next <= i < |arena| ==> arena[i].calls == [])
    && (forall i :: 0 <= i < |arena| ==> MakeRoot(depth, arena[i].hop, hops).Ok?)
  }

  /** The number of nodes of `h`'s tree. */
  ghost function TreeSize(depth: nat, h: Request, hops: seq<Request>): nat {
    match MakeRoot(depth, h, hops)
    case Ok(t) => Size(t)
    case Err(_) => 0
  }

  /** The nodes still to be created for the queued hops `hs`, themselves included. */
  ghost function Pending(depth: nat, hs: seq<Request>, hops: seq<Request>): nat {
    if |hs| == 0 then 0 else TreeSize(depth, hs[0], hops) + Pending(depth, hs[1..], hops)
  }

  lemma {:induction false} PendingAppend(depth: nat, a: seq<Request>, b: seq<Request>, hops: seq<Request>)
    ensures Pending(depth, a + b, hops) == Pending(depth, a, hops) + Pending(depth, b, hops)
    decreases |a|
  {
    if |a| == 0 {
      assert a + b == b;
    } else {
      assert (a + b)[1..] == a[1..] + b;
      PendingAppend(depth, a[1..], b, hops);
    }
  }

  lemma {:induction false} PendingOfBuilt(depth: nat, ks: seq<Request>, ts: seq<Root>, hops: seq<Request>)
    requires |ks| == |ts|
    requires forall j :: 0 <= j < |ks| ==> MakeRoot(depth, ks[j], hops) == Ok(ts[j])
    ensures Pending(depth, ks, hops) == SizeAll(ts)
    decreases |ks|
  {
    if |ks| > 0 {
      PendingOfBuilt(depth, ks[1..], ts[1..], hops);
    }
  }

  /** The children of a hop whose tree is built have their trees built with the same depth. */
  lemma ChildrenBuilt(depth: nat, h: Request, hops: seq<Request>)
    requires MakeRoot(depth, h, hops).Ok?
    ensures var kids := FindChildren(h, hops).value;
            var calls := MakeRoot(depth, h, hops).value.calls;
            && |calls| == |kids|
            && (forall j :: 0 <= j < |kids| ==> MakeRoot(depth, kids[j], hops) == Ok(calls[j]))
            && AllTimed(kids)
  {
    var kids := FindChildren(h, hops).value;
    var calls := MakeRoot(depth, h, hops).value.calls;
    MakeRootChildren(depth, h, hops);
    forall j | 0 <= j < |kids| ensures MakeRoot(depth, kids[j], hops) == Ok(calls[j]) {
      MakeRootMonotone(depth - 1, kids[j], hops);
    }
  }

  lemma AttachKeepsInv(arena: seq<Slot>, next: nat, depth: nat, hops: seq<Request>, kids: seq<Request>)
    requires BfsInv(arena, next, depth, hops) && next < |arena|
    requires FindChildren(arena[next].hop, hops) == Ok(kids) && AllTimed(kids)
    requires forall j :: 0 <= j < |kids| ==> MakeRoot(depth, kids[j], hops).Ok?
    ensures BfsInv(Attach(arena, next, kids), next + 1, depth, hops)
  {
    AttachKeepsExpanded(arena, next, hops, kids);
    AttachKeepsBuilt(arena, next, depth, hops, kids);
  }

  lemma AttachKeepsExpanded(arena: seq<Slot>, next: nat, hops: seq<Request>, kids: seq<Request>)
    requires WellFormed(arena) && next < |arena| && arena[next].calls == []
    requires forall i :: 0 <= i < next ==> Expanded(arena, i, hops)
    requires FindChildren(arena[next].hop, hops) == Ok(kids) && AllTimed(kids)
    ensures forall i :: 0 <= i < next + 1 ==> Expanded(Attach(arena, next, kids), i, hops)
  {
    var a := Attach(arena, next, kids);
    forall i | 0 <= i < next + 1 ensures Expanded(a, i, hops) {
      if i < next {
        ExpandedKept(arena, a, i, hops);
      } else {
        ExpandedAttached(arena, next, hops, kids);
      }
    }
  }

  /** An expanded slot stays expanded when slots keep their hops and it keeps its calls. */
  lemma ExpandedKept(arena: seq<Slot>, a: seq<Slot>, i: nat, hops: seq<Request>)
    requires i < |arena| <= |a| && a[i] == arena[i]
    requires forall m :: 0 <= m < |arena| ==> a[m].hop == arena[m].hop
    requires Expanded(arena, i, hops)
    ensures Expanded(a, i, hops)
  {
  }

  /** The slot whose children were just attached is expanded. */
  lemma ExpandedAttached(arena: seq<Slot>, next: nat, hops: seq<Request>, kids: seq<Request>)
    requires WellFormed(arena) && next < |arena| && arena[next].calls == []
    requires FindChildren(arena[next].hop, hops) == Ok(kids) && AllTimed(kids)
    ensures Expanded(Attach(arena, next, kids), next, hops)
  {
    var a := Attach(arena, next, kids);
    var n := |arena|;
    assert a[next].calls == Ids(n, |kids|);
    forall j | 0 <= j < |kids| ensures a[a[next].calls[j]].hop == kids[j] {
      assert a[next].calls[j] == n + j;
    }
  }

  lemma AttachKeepsBuilt(arena: seq<Slot>, next: nat, depth: nat, hops: seq<Request>, kids: seq<Request>)
    requires WellFormed(arena) && next < |arena| && AllTimed(kids)
    requires forall i :: 0 <= i < |arena| ==> MakeRoot(depth, arena[i].hop, hops).Ok?
    requires forall j :: 0 <= j < |kids| ==> MakeRoot(depth, kids[j], hops).Ok?
    ensures var a := Attach(arena, next, kids);
            forall i :: 0 <= i < |a| ==> MakeRoot(depth, a[i].hop, hops).Ok?
  {
    var a := Attach(arena, next, kids);
    forall i | 0 <= i < |a| ensures MakeRoot(depth, a[i].hop, hops).Ok? {
      if i >= |arena| {
        assert a[i].hop == kids[i - |arena|];
      } else {
        assert a[i].hop == arena[i].hop;
      }
    }
  }

  lemma PendingStep(arena: seq<Slot>, next: nat, depth: nat, hops: seq<Request>, kids: seq<Request>)
    requires next < |arena| && MakeRoot(depth, arena[next].hop, hops).Ok?
    requires var t := MakeRoot(depth, arena[next].hop, hops).value;
             |kids| == |t.calls| && forall j :: 0 <= j < |kids| ==> MakeRoot(depth, kids[j], hops) == Ok(t.calls[j])
    ensures Pending(depth, (Hops(arena) + kids)[next + 1..], hops) + 1 == Pending(depth, Hops(arena)[next..], hops)
  {
    var t := MakeRoot(depth, arena[next].hop, hops).value;
    var rest := Hops(arena)[next + 1..];
    assert (Hops(arena) + kids)[next + 1..] == rest + kids;
    PendingAppend(depth, rest, kids, hops);
    PendingOfBuilt(depth, kids, t.calls, hops);
    assert Hops(arena)[next..][1..] == rest;
  }

  lemma ExpandStrictStep(arena: seq<Slot>, next: nat, depth: nat, hops: seq<Request>)
    requires BfsInv(arena, next, depth, hops) && next < |arena|
    ensures ExpandStrict(arena, next, hops).Ok?
    ensures var a := ExpandStrict(arena, next, hops).value;
            && BfsInv(a, next + 1, depth, hops)
            && Pending(depth, Hops(a)[next + 1..], hops) + 1 == Pending(depth, Hops(arena)[next..], hops)
  {
    var h := arena[next].hop;
    var kids := FindChildren(h, hops).value;
    ChildrenBuilt(depth, h, hops);
    var a := Attach(arena, next, kids);
    assert ExpandStrict(arena, next, hops) == Ok(a);
    AttachKeepsInv(arena, next, depth, hops, kids);
    PendingStep(arena, next, depth, hops, kids);
  }

  /**
   * With fuel for every pending node, the corrected loop empties its queue,
   * ending with every slot expanded.
   */
  lemma {:induction false} RunStrictFinishes(fuel: nat, arena: seq<Slot>, next: nat, depth: nat, hops: seq<Request>)
    returns (r: seq<Slot>)
    requires BfsInv(arena, next, depth, hops)
    requires Pending(depth, Hops(arena)[next..], hops) <= fuel
    ensures RunStrict(fuel, arena, next, hops) == Ok(r)
    ensures BfsInv(r, |r|, depth, hops)
    decreases fuel
  {
    if next < |arena| {
      var a := RunStrictStep(fuel, arena, next, depth, hops);
      r := RunStrictFinishes(fuel - 1, a, next + 1, depth, hops);
      assert RunStrict(fuel - 1, a, next + 1, hops) == Ok(r);
    } else {
      r := arena;
    }
  }

  /** One iteration of the corrected loop keeps the invariant and consumes one unit of fuel and of pending work. */
  lemma RunStrictStep(fuel: nat, arena: seq<Slot>, next: nat, depth: nat, hops: seq<Request>) returns (a: seq<Slot>)
    requires BfsInv(arena, next, depth, hops) && next < |arena|
    requires Pending(depth, Hops(arena)[next..], hops) <= fuel
    ensures fuel > 0 && BfsInv(a, next + 1, depth, hops)
    ensures Pending(depth, Hops(a)[next + 1..], hops) <= fuel - 1
    ensures RunStrict(fuel, arena, next, hops) == RunStrict(fuel - 1, a, next + 1, hops)
  {
    assert Hops(arena)[next..][0] == arena[next].hop;
    ExpandStrictStep(arena, next, depth, hops);
    a := ExpandStrict(arena, next, hops).value;
  }

  /** Once every slot is expanded, each slot unfolds to its hop's `makeRoot` tree. */
  lemma {:induction false} UnfoldMatches(arena: seq<Slot>, i: nat, depth: nat, hops: seq<Request>)
    requires BfsInv(arena, |arena|, depth, hops) && i < |arena|
    ensures MakeRoot(depth, arena[i].hop, hops) == Ok(Unfold(arena, i))
    decreases |arena| - i
  {
    var h := arena[i].hop;
    var t := MakeRoot(depth, h, hops).value;
    ChildrenBuilt(depth, h, hops);
    assert Expanded(arena, i, hops);
    var cs := arena[i].calls;
    UnfoldAllElems(arena, i, cs);
    forall j | 0 <= j < |cs| ensures Unfold(arena, cs[j]) == t.calls[j] {
      UnfoldMatches(arena, cs[j], depth, hops);
    }
    assert Unfold(arena, i).calls == t.calls;
  }

  /**
   * The corrected builder builds exactly `makeRoot`'s tree, given as many
   * loop iterations as the tree has nodes.
   */
  lemma StrictIterMatchesMakeRoot(depth: nat, fuel: nat, q: Request, hops: seq<Request>)
    requires MakeRoot(depth, q, hops).Ok?
    requires Size(MakeRoot(depth, q, hops).value) <= fuel
    ensures StrictIter(fuel, q, hops) == MakeRoot(depth, q, hops)
  {
    var arena := [Slot(q, [])];
    assert Hops(arena)[0..] == [q];
    var r := RunStrictFinishes(fuel, arena, 0, depth, hops);
    UnfoldMatches(r, 0, depth, hops);
    assert Hops(arena)[0] == Hops(r)[0];
  }
}
