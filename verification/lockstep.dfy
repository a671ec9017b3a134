/**
 * When `makeRootIter`'s node map cannot confuse two hops, it builds the same
 * nodes as the corrected breadth-first builder, iteration for iteration, and
 * therefore the same tree as `makeRoot`.
 */
module Lockstep {
  import opened Wrappers
  import opened Requests
  import opened SpanSearch
  import opened Tree
  import opened TreeIter

  // ---------------------------------------------------------------------------
  // When the node map is unambiguous.

  /** No two hops share the fields `Request.equals` compares. */
  predicate UniqueKeys(hops: seq<Request>) {
    forall a, b :: 0 <= a < b < |hops| ==> KeyOf(hops[a]) != KeyOf(hops[b])
  }

  /** No two hops open the same span. */
  predicate UniqueNewSpans(hops: seq<Request>) {
    forall a, b :: 0 <= a < b < |hops| ==> hops[a].newSpan != hops[b].newSpan
  }

  /**
   * The hops of one trace form a tree below `q`: keys and opened spans are
   * unique, and no hop opens the span `q` hangs from.
   */
  predicate Unambiguous(q: Request, hops: seq<Request>) {
    && UniqueKeys(hops)
    && UniqueNewSpans(hops)
    && q in hops
    && forall h :: h in hops ==> h.newSpan != q.prevSpan
  }

  lemma DifferentKeys(hops: seq<Request>, x: Request, y: Request)
    requires UniqueKeys(hops) && x in hops && y in hops && x != y
    ensures KeyOf(x) != KeyOf(y)
  {
    var a :| 0 <= a < |hops| && hops[a] == x;
    var b :| 0 <= b < |hops| && hops[b] == y;
    if a < b {
      assert KeyOf(hops[a]) != KeyOf(hops[b]);
    } else {
      assert KeyOf(hops[b]) != KeyOf(hops[a]);
    }
  }

  lemma DifferentNewSpans(hops: seq<Request>, x: Request, y: Request)
    requires UniqueNewSpans(hops) && x in hops && y in hops && x != y
    ensures x.newSpan != y.newSpan
  {
    var a :| 0 <= a < |hops| && hops[a] == x;
    var b :| 0 <= b < |hops| && hops[b] == y;
    if a < b {
      assert hops[a].newSpan != hops[b].newSpan;
    } else {
      assert hops[b].newSpan != hops[a].newSpan;
    }
  }

  // ---------------------------------------------------------------------------
  // The children of a hop have pairwise different keys.

  /** Equal elements at two positions occur at least twice. */
  lemma RepeatCounts(s: seq<Request>, a: nat, b: nat)
    requires a < b < |s| && s[a] == s[b]
    ensures multiset(s)[s[a]] >= 2
  {
    assert s == s[..b] + [s[b]] + s[b + 1..];
    assert s[a] == s[..b][a];
    assert s[a] in multiset(s[..b]);
  }

  /** A sequence with unique keys holds each element at most once. */
  lemma {:induction false} UniqueCounts(s: seq<Request>, x: Request)
    requires UniqueKeys(s)
    ensures multiset(s)[x] <= 1
    decreases |s|
  {
    if |s| > 0 {
      assert UniqueKeys(s[1..]) by {
        forall a, b | 0 <= a < b < |s| - 1 ensures KeyOf(s[1..][a]) != KeyOf(s[1..][b]) {
          assert KeyOf(s[a + 1]) != KeyOf(s[b + 1]);
        }
      }
      UniqueCounts(s[1..], x);
      assert s == [s[0]] + s[1..];
      if x == s[0] {
        assert x !in s[1..] by {
          forall b | 0 <= b < |s| - 1 ensures s[1..][b] != s[0] {
            assert KeyOf(s[0]) != KeyOf(s[b + 1]);
          }
        }
      }
    }
  }

  /** Dropping elements keeps keys unique. */
  lemma {:induction false} CandidatesUnique(span: string, hops: seq<Request>)
    requires UniqueKeys(hops)
    ensures UniqueKeys(Candidates(span, hops))
    decreases |hops|
  {
    if |hops| > 0 {
      var rest := hops[1..];
      assert UniqueKeys(rest) by {
        forall a, b | 0 <= a < b < |rest| ensures KeyOf(rest[a]) != KeyOf(rest[b]) {
          assert KeyOf(hops[a + 1]) != KeyOf(hops[b + 1]);
        }
      }
      CandidatesUnique(span, rest);
      CandidatesMembers(span, rest);
      var tail := Candidates(span, rest);
      if hops[0].prevSpan == span {
        var c := [hops[0]] + tail;
        assert Candidates(span, hops) == c;
        forall a, b | 0 <= a < b < |c| ensures KeyOf(c[a]) != KeyOf(c[b]) {
          if a == 0 {
            assert c[b] == tail[b - 1] && c[b] in rest;
            var k :| 0 <= k < |rest| && rest[k] == c[b];
            assert KeyOf(hops[0]) != KeyOf(hops[k + 1]);
          } else {
            assert c[a] == tail[a - 1] && c[b] == tail[b - 1];
          }
        }
      } else {
        assert Candidates(span, hops) == [] + tail;
      }
    }
  }

  /** `findChildren` returns hops with pairwise different keys when the trace's keys are unique. */
  lemma ChildrenUnique(parent: Request, hops: seq<Request>)
    requires UniqueKeys(hops) && FindChildren(parent, hops).Ok?
    ensures UniqueKeys(FindChildren(parent, hops).value)
    ensures forall x :: x in FindChildren(parent, hops).value ==> x in hops && x.prevSpan == parent.newSpan
  {
    var kids := FindChildren(parent, hops).value;
    var cands := Candidates(parent.newSpan, hops);
    FindChildrenSpec(parent, hops);
    CandidatesUnique(parent.newSpan, hops);
    forall a, b | 0 <= a < b < |kids| ensures KeyOf(kids[a]) != KeyOf(kids[b]) {
      if kids[a] == kids[b] {
        RepeatCounts(kids, a, b);
        UniqueCounts(cands, kids[a]);
        assert false;
      }
      CandidatesMembers(parent.newSpan, hops);
      DifferentKeys(cands, kids[a], kids[b]);
    }
  }

  // ---------------------------------------------------------------------------
  // The two loops side by side.

  /**
   * The nodes built so far: slot 0 holds `q`, every node holds a different
   * hop of the trace, and every later node hangs below an expanded one.
   */
  ghost predicate DistinctNodes(arena: seq<Slot>, next: nat, q: Request, hops: seq<Request>) {
    && 0 < |arena| && next <= |arena|
    && arena[0].hop == q
    && (forall i :: 0 <= i < |arena| ==> arena[i].hop in hops)
    && (forall a, b :: 0 <= a < b < |arena| ==> arena[a].hop != arena[b].hop)
    && (forall m {:trigger arena[m].hop.prevSpan} :: 1 <= m < |arena| ==>
          exists p :: 0 <= p < next && arena[m].hop.prevSpan == arena[p].hop.newSpan)
  }

  /**
   * The state of `makeRootIter`'s loop mirrors the corrected builder's: the
   * same nodes, the queue is the unexpanded slots' hops, and the node map
   * sends each node's key to that node and nothing else.
   */
  predicate Mirrors(st: IterState, arena: seq<Slot>, next: nat) {
    && st.arena == arena
    && next <= |arena|
    && st.queue == Hops(arena)[next..]
    && (forall i {:trigger KeyOf(arena[i].hop)} :: 0 <= i < |arena| ==> KeyOf(arena[i].hop) in st.index && st.index[KeyOf(arena[i].hop)] == i)
    && (forall k :: k in st.index ==> st.index[k] < |arena| && KeyOf(arena[st.index[k]].hop) == k)
  }

  /** A child of the node being expanded is not yet a node. */
  lemma KidsFresh(arena: seq<Slot>, next: nat, q: Request, hops: seq<Request>, kids: seq<Request>)
    requires Unambiguous(q, hops) && DistinctNodes(arena, next, q, hops) && next < |arena|
    requires forall x :: x in kids ==> x in hops && x.prevSpan == arena[next].hop.newSpan
    ensures forall j, i :: 0 <= j < |kids| && 0 <= i < |arena| ==> kids[j] != arena[i].hop
  {
    forall j, i | 0 <= j < |kids| && 0 <= i < |arena| ensures kids[j] != arena[i].hop {
      assert kids[j] in kids;
      if i == 0 {
        assert arena[next].hop in hops;
      } else {
        var p :| 0 <= p < next && arena[i].hop.prevSpan == arena[p].hop.newSpan;
        DifferentNewSpans(hops, arena[p].hop, arena[next].hop);
      }
    }
  }

  /** Appending fresh, pairwise different children keeps the nodes distinct. */
  lemma AttachDistinct(arena: seq<Slot>, next: nat, q: Request, hops: seq<Request>, kids: seq<Request>)
    requires Unambiguous(q, hops) && DistinctNodes(arena, next, q, hops) && next < |arena|
    requires WellFormed(arena) && AllTimed(kids) && UniqueKeys(kids)
    requires forall x :: x in kids ==> x in hops && x.prevSpan == arena[next].hop.newSpan
    ensures DistinctNodes(Attach(arena, next, kids), next + 1, q, hops)
  {
    var a := Attach(arena, next, kids);
    var n := |arena|;
    KidsFresh(arena, next, q, hops, kids);
    forall i | 0 <= i < |a| ensures a[i].hop in hops {
      if i >= n {
        assert kids[i - n] in kids;
      }
    }
    forall x, y | 0 <= x < y < |a| ensures a[x].hop != a[y].hop {
      if y >= n && x >= n {
        assert KeyOf(kids[x - n]) != KeyOf(kids[y - n]);
      }
    }
    forall m | 1 <= m < |a| ensures exists p :: 0 <= p < next + 1 && a[m].hop.prevSpan == a[p].hop.newSpan {
      if m >= n {
        assert kids[m - n] in kids;
        assert a[m].hop.prevSpan == a[next].hop.newSpan;
      } else {
        var p :| 0 <= p < next && arena[m].hop.prevSpan == arena[p].hop.newSpan;
        assert a[m].hop.prevSpan == a[p].hop.newSpan;
      }
    }
  }

  /** The children's keys are not yet in the map. */
  lemma KidsUnmapped(st: IterState, arena: seq<Slot>, next: nat, q: Request, hops: seq<Request>, kids: seq<Request>)
    requires Unambiguous(q, hops) && DistinctNodes(arena, next, q, hops) && next < |arena|
    requires Mirrors(st, arena, next)
    requires forall x :: x in kids ==> x in hops && x.prevSpan == arena[next].hop.newSpan
    ensures forall j :: 0 <= j < |kids| ==> KeyOf(kids[j]) !in st.index
  {
    KidsFresh(arena, next, q, hops, kids);
    forall j | 0 <= j < |kids| ensures KeyOf(kids[j]) !in st.index {
      assert kids[j] in kids;
      forall k | k in st.index ensures k != KeyOf(kids[j]) {
        DifferentKeys(hops, kids[j], arena[st.index[k]].hop);
      }
    }
  }

  /** After the `putIfAbsent`s every node's key names that node. */
  lemma PutAllNamesNodes(index: map<Key, nat>, arena: seq<Slot>, kids: seq<Request>, a: seq<Slot>)
    requires forall i :: 0 <= i < |arena| ==> KeyOf(arena[i].hop) in index && index[KeyOf(arena[i].hop)] == i
    requires UniqueKeys(kids)
    requires forall j :: 0 <= j < |kids| ==> KeyOf(kids[j]) !in index
    requires |a| == |arena| + |kids|
    requires forall i :: 0 <= i < |a| ==> a[i].hop == if i < |arena| then arena[i].hop else kids[i - |arena|]
    ensures var r := PutAll(index, kids, |arena|);
            forall i :: 0 <= i < |a| ==> KeyOf(a[i].hop) in r && r[KeyOf(a[i].hop)] == i
  {
    PutAllFresh(index, kids, |arena|);
  }

  /** After the `putIfAbsent`s every entry names a node with its key. */
  lemma PutAllOnlyNodes(index: map<Key, nat>, arena: seq<Slot>, kids: seq<Request>, a: seq<Slot>)
    requires forall k :: k in index ==> index[k] < |arena| && KeyOf(arena[index[k]].hop) == k
    requires |a| == |arena| + |kids|
    requires forall i :: 0 <= i < |a| ==> a[i].hop == if i < |arena| then arena[i].hop else kids[i - |arena|]
    ensures var r := PutAll(index, kids, |arena|);
            forall k :: k in r ==> r[k] < |a| && KeyOf(a[r[k]].hop) == k
  {
    var n := |arena|;
    var r := PutAll(index, kids, n);
    PutAllNew(index, kids, n);
    forall k | k in r ensures r[k] < |a| && KeyOf(a[r[k]].hop) == k {
      if k !in index {
        assert a[r[k]].hop == kids[r[k] - n];
      }
    }
  }

  /** `makeRootIter` pops the hop of the slot the corrected builder expands next, so both fail alike. */
  lemma PopFailsLikeExpand(st: IterState, arena: seq<Slot>, next: nat, hops: seq<Request>)
    requires Tracked(st) && WellFormed(arena) && next < |arena| && Mirrors(st, arena, next)
    ensures |st.queue| > 0 && st.queue[0] == arena[next].hop
    ensures PopWritten(st, hops).Err? <==> ExpandStrict(arena, next, hops).Err?
  {
    assert st.queue[0] == Hops(arena)[next];
  }

  /**
   * One successful iteration of each loop: `makeRootIter` attaches the
   * children to the very node the corrected builder expands, and the states
   * still mirror each other.
   */
  lemma PopMatchesExpand(st: IterState, arena: seq<Slot>, next: nat, q: Request, hops: seq<Request>, kids: seq<Request>)
    returns (s: IterState, a: seq<Slot>)
    requires Tracked(st) && WellFormed(arena) && next < |arena|
    requires Mirrors(st, arena, next) && DistinctNodes(arena, next, q, hops) && Unambiguous(q, hops)
    requires FindChildren(arena[next].hop, hops) == Ok(kids) && AllTimed(kids)
    ensures |st.queue| > 0
    ensures PopWritten(st, hops) == Ok(s) && ExpandStrict(arena, next, hops) == Ok(a)
    ensures Tracked(s) && WellFormed(a)
    ensures Mirrors(s, a, next + 1) && DistinctNodes(a, next + 1, q, hops)
  {
    s, a := PopIsAttach(st, arena, next, hops, kids);
    ChildrenUnique(arena[next].hop, hops);
    AttachDistinct(arena, next, q, hops, kids);
    MirrorsAfter(st, arena, next, q, hops, kids);
  }

  /** Both loops attach the children to slot `next`; they differ only in the map and the queue. */
  lemma PopIsAttach(st: IterState, arena: seq<Slot>, next: nat, hops: seq<Request>, kids: seq<Request>)
    returns (s: IterState, a: seq<Slot>)
    requires Tracked(st) && WellFormed(arena) && next < |arena| && Mirrors(st, arena, next)
    requires FindChildren(arena[next].hop, hops) == Ok(kids) && AllTimed(kids)
    ensures a == Attach(arena, next, kids)
    ensures s == IterState(st.queue[1..] + kids, a, PutAll(st.index, kids, |arena|))
    ensures PopWritten(st, hops) == Ok(s) && ExpandStrict(arena, next, hops) == Ok(a)
  {
    PopFailsLikeExpand(st, arena, next, hops);
    assert st.index[KeyOf(arena[next].hop)] == next;
    a := Attach(arena, next, kids);
    s := IterState(st.queue[1..] + kids, a, PutAll(st.index, kids, |arena|));
  }

  /** After one iteration the loop state mirrors the corrected builder's again. */
  lemma MirrorsAfter(st: IterState, arena: seq<Slot>, next: nat, q: Request, hops: seq<Request>, kids: seq<Request>)
    requires Unambiguous(q, hops) && DistinctNodes(arena, next, q, hops) && next < |arena|
    requires Mirrors(st, arena, next) && WellFormed(arena) && AllTimed(kids) && UniqueKeys(kids)
    requires forall x :: x in kids ==> x in hops && x.prevSpan == arena[next].hop.newSpan
    ensures var a := Attach(arena, next, kids);
            Mirrors(IterState(st.queue[1..] + kids, a, PutAll(st.index, kids, |arena|)), a, next + 1)
  {
    var a := Attach(arena, next, kids);
    KidsUnmapped(st, arena, next, q, hops, kids);
    PutAllNamesNodes(st.index, arena, kids, a);
    PutAllOnlyNodes(st.index, arena, kids, a);
    QueueAfter(arena, next, kids, a);
  }

  /** The queue after one iteration holds the hops of the slots still to expand. */
  lemma QueueAfter(arena: seq<Slot>, next: nat, kids: seq<Request>, a: seq<Slot>)
    requires next < |arena| && |a| == |arena| + |kids|
    requires forall i :: 0 <= i < |a| ==> a[i].hop == if i < |arena| then arena[i].hop else kids[i - |arena|]
    ensures Hops(arena)[next..][1..] + kids == Hops(a)[next + 1..]
  {
    var l := Hops(arena)[next..][1..] + kids;
    var r := Hops(a)[next + 1..];
    assert |l| == |r|;
    forall i | 0 <= i < |l| ensures l[i] == r[i] {
      if i < |arena| - next - 1 {
        assert l[i] == arena[next + 1 + i].hop;
      } else {
        assert l[i] == kids[i - (|arena| - next - 1)];
      }
    }
  }

  /** The nodes of a finished `makeRootIter` loop, or its error. */
  function ArenaOf(r: Result<IterState, BuildError>): Result<seq<Slot>, BuildError> {
    match r
    case Ok(st) => Ok(st.arena)
    case Err(e) => Err(e)
  }

  /** What holds between the two loops at the start of every iteration. */
  ghost predicate InStep(st: IterState, arena: seq<Slot>, next: nat, q: Request, hops: seq<Request>) {
    && Tracked(st) && WellFormed(arena)
    && Mirrors(st, arena, next) && DistinctNodes(arena, next, q, hops) && Unambiguous(q, hops)
  }

  /** From these states on, the two loops end with the same nodes or the same error. */
  ghost predicate Agrees(fuel: nat, st: IterState, arena: seq<Slot>, next: nat, hops: seq<Request>) {
    && Tracked(st) && WellFormed(arena) && next <= |arena|
    && ArenaOf(RunWritten(fuel, st, hops)) == RunStrict(fuel, arena, next, hops)
  }

  /** The two loops' variables at the start of one iteration, with the iterations left. */
  datatype Stage = Stage(fuel: nat, st: IterState, arena: seq<Slot>, next: nat)

  /** One iteration of both loops when both succeed; otherwise the stage stays put. */
  ghost function Advance(y: Stage, hops: seq<Request>): Stage {
    if Tracked(y.st) && WellFormed(y.arena) && y.next < |y.arena| && |y.st.queue| > 0 && y.fuel > 0 then
      match (PopWritten(y.st, hops), ExpandStrict(y.arena, y.next, hops))
      case (Ok(s), Ok(a)) => Stage(y.fuel - 1, s, a, y.next + 1)
      case _ => y
    else y
  }

  /**
   * Well-founded descent: if every state satisfying `inv` either meets `goal`
   * or steps to a lower-ranked such state whose `goal` implies its own, then
   * every state satisfying `inv` meets `goal`.
   */
  lemma {:induction false} Descend<S>(inv: S -> bool, goal: S -> bool, rank: S -> nat, step: S -> S, x: S)
    requires inv(x)
    requires forall y {:trigger step(y)} :: inv(y) ==>
               goal(y) || (inv(step(y)) && rank(step(y)) < rank(y) && (goal(step(y)) ==> goal(y)))
    ensures goal(x)
    decreases rank(x)
  {
    if !goal(x) {
      Descend(inv, goal, rank, step, step(x));
    }
  }

  /** Both loops run for the same number of iterations and end with the same nodes or the same error. */
  lemma LoopsAgree(fuel: nat, st: IterState, arena: seq<Slot>, next: nat, q: Request, hops: seq<Request>)
    requires InStep(st, arena, next, q, hops)
    ensures Agrees(fuel, st, arena, next, hops)
  {
    var inv := (y: Stage) => InStep(y.st, y.arena, y.next, q, hops);
    var goal := (y: Stage) => Agrees(y.fuel, y.st, y.arena, y.next, hops);
    var rank := (y: Stage) => y.fuel;
    var step := (y: Stage) => Advance(y, hops);
    forall y | inv(y) ensures goal(y) || (inv(step(y)) && rank(step(y)) < rank(y) && (goal(step(y)) ==> goal(y))) {
      LoopsStep(y, q, hops);
    }
    Descend(inv, goal, rank, step, Stage(fuel, st, arena, next));
  }

  /**
   * Either both loops stop here with the same outcome, or both take one
   * more iteration into states that still mirror each other.
   */
  lemma LoopsStep(y: Stage, q: Request, hops: seq<Request>)
    requires InStep(y.st, y.arena, y.next, q, hops)
    ensures var z := Advance(y, hops);
            || Agrees(y.fuel, y.st, y.arena, y.next, hops)
            || (&& InStep(z.st, z.arena, z.next, q, hops) && z.fuel < y.fuel
                && (Agrees(z.fuel, z.st, z.arena, z.next, hops) ==> Agrees(y.fuel, y.st, y.arena, y.next, hops)))
  {
    if y.next < |y.arena| && y.fuel > 0 && ExpandStrict(y.arena, y.next, hops).Ok? {
      LoopsGo(y, q, hops);
    } else {
      LoopsStop(y.fuel, y.st, y.arena, y.next, hops);
    }
  }

  /** When the corrected builder can expand the next node, both loops take the iteration. */
  lemma LoopsGo(y: Stage, q: Request, hops: seq<Request>)
    requires InStep(y.st, y.arena, y.next, q, hops)
    requires y.next < |y.arena| && y.fuel > 0 && ExpandStrict(y.arena, y.next, hops).Ok?
    ensures var z := Advance(y, hops);
            && InStep(z.st, z.arena, z.next, q, hops) && z.fuel < y.fuel
            && (Agrees(z.fuel, z.st, z.arena, z.next, hops) ==> Agrees(y.fuel, y.st, y.arena, y.next, hops))
  {
    var kids := FindChildren(y.arena[y.next].hop, hops).value;
    var s, a := PopMatchesExpand(y.st, y.arena, y.next, q, hops, kids);
    AdvanceIs(y, hops, s, a);
  }

  /**
   * When both loops succeed, `Advance` moves to their next states, and what
   * the loops end with from there is what they end with from here.
   */
  lemma AdvanceIs(y: Stage, hops: seq<Request>, s: IterState, a: seq<Slot>)
    requires Tracked(y.st) && WellFormed(y.arena) && y.next < |y.arena| && |y.st.queue| > 0 && y.fuel > 0
    requires PopWritten(y.st, hops) == Ok(s) && ExpandStrict(y.arena, y.next, hops) == Ok(a)
    ensures var z := Advance(y, hops);
            Agrees(z.fuel, z.st, z.arena, z.next, hops) ==> Agrees(y.fuel, y.st, y.arena, y.next, hops)
  {
    StepUnfolds(y.fuel, y.st, y.arena, y.next, hops, s, a);
    AdvanceMoves(y, hops, s, a);
    AgreesBack(y, Advance(y, hops), hops);
  }

  /** When both loops succeed, `Advance` moves to their next states. */
  lemma AdvanceMoves(y: Stage, hops: seq<Request>, s: IterState, a: seq<Slot>)
    requires Tracked(y.st) && WellFormed(y.arena) && y.next < |y.arena| && |y.st.queue| > 0 && y.fuel > 0
    requires PopWritten(y.st, hops) == Ok(s) && ExpandStrict(y.arena, y.next, hops) == Ok(a)
    ensures Advance(y, hops) == Stage(y.fuel - 1, s, a, y.next + 1)
  {
  }

  /** The implication between two stages' outcomes, restated on the stages themselves. */
  lemma AgreesBack(y: Stage, z: Stage, hops: seq<Request>)
    requires z.fuel + 1 == y.fuel && z.next == y.next + 1
    requires Agrees(y.fuel - 1, z.st, z.arena, y.next + 1, hops) ==> Agrees(y.fuel, y.st, y.arena, y.next, hops)
    ensures Agrees(z.fuel, z.st, z.arena, z.next, hops) ==> Agrees(y.fuel, y.st, y.arena, y.next, hops)
  {
  }

  /** A successful iteration passes the rest of the work to the next one, in both loops. */
  lemma StepUnfolds(fuel: nat, st: IterState, arena: seq<Slot>, next: nat, hops: seq<Request>, s: IterState, a: seq<Slot>)
    requires Tracked(st) && WellFormed(arena) && next < |arena| && fuel > 0 && |st.queue| > 0
    requires PopWritten(st, hops) == Ok(s) && ExpandStrict(arena, next, hops) == Ok(a)
    ensures RunWritten(fuel, st, hops) == RunWritten(fuel - 1, s, hops)
    ensures RunStrict(fuel, arena, next, hops) == RunStrict(fuel - 1, a, next + 1, hops)
    ensures Agrees(fuel - 1, s, a, next + 1, hops) ==> Agrees(fuel, st, arena, next, hops)
  {
  }

  /** When either loop stops, the other stops with the same outcome. */
  lemma LoopsStop(fuel: nat, st: IterState, arena: seq<Slot>, next: nat, hops: seq<Request>)
    requires Tracked(st) && WellFormed(arena) && Mirrors(st, arena, next)
    requires !(next < |arena| && fuel > 0 && ExpandStrict(arena, next, hops).Ok?)
    ensures Agrees(fuel, st, arena, next, hops)
  {
    if next < |arena| {
      PopFailsLikeExpand(st, arena, next, hops);
    }
  }

  /**
   * On a trace whose hops form a tree below `q`, `makeRootIter` builds the
   * same tree as the corrected builder.
   */
  lemma MakeRootIterMatchesStrict(fuel: nat, q: Request, hops: seq<Request>)
    requires Unambiguous(q, hops)
    ensures MakeRootIter(fuel, q, hops) == StrictIter(fuel, q, hops)
  {
    if Timed(q) {
      var arena := [Slot(q, [])];
      var st := IterState([q], arena, map[KeyOf(q) := 0]);
      assert Hops(arena)[0..] == [q];
      LoopsAgree(fuel, st, arena, 0, q, hops);
    }
  }

  /**
   * On such a trace, `makeRootIter` and `makeRoot` build the same tree
   * whenever `makeRoot` succeeds and the loop may run once per node.
   */
  lemma MakeRootIterMatchesMakeRoot(depth: nat, fuel: nat, q: Request, hops: seq<Request>)
    requires Unambiguous(q, hops)
    requires MakeRoot(depth, q, hops).Ok? && Size(MakeRoot(depth, q, hops).value) <= fuel
    ensures MakeRootIter(fuel, q, hops) == MakeRoot(depth, q, hops)
  {
    MakeRootIterMatchesStrict(fuel, q, hops);
    StrictIterMatchesMakeRoot(depth, fuel, q, hops);
  }
}
