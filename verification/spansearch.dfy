/**
 * Locating the root hop and the children of a hop within one trace's hops
 * (`findRoot` and `findChildren` in `BO/Utils.java`).
 */
module SpanSearch {
  import opened Wrappers
  import opened Requests
  import opened Seqs

  /** Why building a trace's call tree fails; each is an exception that ends the source's run. */
  datatype BuildError =
    | NoRoot           // `findAny().get()` on an empty Optional
    | AbsentTimestamp  // a null timestamp reached the comparator or the formatter
    | OutOfFuel        // the recursion or the work queue never ends (cyclic span edges)

  /** The previous-span sentinel of a root hop. */
  const NullSpan: string := "null"

  /**
   * `findRoot`: a hop whose previous span is "null". On a sequential stream
   * `findAny` yields the first such hop.
   */
  function FindRoot(hops: seq<Request>): (r: Result<Request, BuildError>)
    ensures r.Ok? ==> r.value in hops && r.value.prevSpan == NullSpan
    ensures r.Err? <==> forall i :: 0 <= i < |hops| ==> hops[i].prevSpan != NullSpan
    ensures r.Err? ==> r.error == NoRoot
  {
    if |hops| == 0 then Err(NoRoot)
    else if hops[0].prevSpan == NullSpan then Ok(hops[0])
    else
      var r := FindRoot(hops[1..]);
      assert forall i :: 1 <= i < |hops| ==> hops[i] == hops[1..][i - 1];
      r
  }

  // ---------------------------------------------------------------------------
  // Candidates: the hops hanging below a span.

  /** The hops whose previous span is `span`, in input order. */
  function Candidates(span: string, hops: seq<Request>): (r: seq<Request>)
    ensures |r| <= |hops|
  {
    if |hops| == 0 then []
    else (if hops[0].prevSpan == span then [hops[0]] else []) + Candidates(span, hops[1..])
  }

  /** The candidates are exactly the hops below `span`. */
  lemma {:induction false} CandidatesMembers(span: string, hops: seq<Request>)
    ensures forall x :: x in Candidates(span, hops) <==> x in hops && x.prevSpan == span
    decreases |hops|
  {
    if |hops| > 0 {
      CandidatesMembers(span, hops[1..]);
      assert hops == [hops[0]] + hops[1..];
    }
  }

  // ---------------------------------------------------------------------------
  // Stable sort by start time.

  predicate AllStarted(xs: seq<Request>) {
    forall i :: 0 <= i < |xs| ==> xs[i].startTime.Some?
  }

  /** Ascending start times (`Comparator.comparing(Request::getStartTime)`). */
  predicate SortedByStart(xs: seq<Request>) {
    && AllStarted(xs)
    && forall i, j :: 0 <= i < j < |xs| ==> xs[i].startTime.value <= xs[j].startTime.value
  }

  /** The elements that start at instant `t`, in order: equal-key runs for stability. */
  function WithStart(xs: seq<Request>, t: int): seq<Request> {
    if |xs| == 0 then []
    else (if xs[0].startTime == Some(t) then [xs[0]] else []) + WithStart(xs[1..], t)
  }

  lemma {:induction false} WithStartAppend(a: seq<Request>, b: seq<Request>, t: int)
    ensures WithStart(a + b, t) == WithStart(a, t) + WithStart(b, t)
    decreases |a|
  {
    if |a| == 0 {
      assert a + b == b;
    } else {
      var h := if a[0].startTime == Some(t) then [a[0]] else [];
      var ab := a + b;
      assert ab[0] == a[0];
      assert ab[1..] == a[1..] + b;
      assert WithStart(ab, t) == h + WithStart(a[1..] + b, t);
      WithStartAppend(a[1..], b, t);
      AppendAssoc(h, WithStart(a[1..], t), WithStart(b, t));
    }
  }

  lemma {:induction false} WithStartBelow(s: seq<Request>, t: int)
    requires SortedByStart(s)
    requires |s| > 0 ==> t < s[0].startTime.value
    ensures WithStart(s, t) == []
    decreases |s|
  {
    if |s| > 0 {
      assert SortedByStart(s[1..]);
      WithStartBelow(s[1..], t);
    }
  }

  lemma ConsSorted(h: Request, s: seq<Request>)
    requires h.startTime.Some? && SortedByStart(s)
    requires forall y :: y in s ==> h.startTime.value <= y.startTime.value
    ensures SortedByStart([h] + s)
  {
    var r := [h] + s;
    forall i, j | 0 <= i < j < |r| ensures r[i].startTime.value <= r[j].startTime.value {
      if i > 0 {
        assert r[i] == s[i - 1] && r[j] == s[j - 1];
      } else {
        assert r[j] == s[j - 1];
      }
    }
  }

  /** Inserts `x` after every element that starts no later than it. */
  function Insert(x: Request, s: seq<Request>): (r: seq<Request>)
    requires x.startTime.Some? && AllStarted(s)
    ensures multiset(r) == multiset(s) + multiset{x}
    ensures AllStarted(r)
  {
    if |s| == 0 then [x]
    else if x.startTime.value < s[0].startTime.value then [x] + s
    else
      assert AllStarted(s[1..]);
      var rest := Insert(x, s[1..]);
      assert s == [s[0]] + s[1..];
      [s[0]] + rest
  }

  /** Inserting into a sorted sequence keeps it sorted. */
  lemma {:induction false} InsertSorted(x: Request, s: seq<Request>)
    requires x.startTime.Some? && SortedByStart(s)
    ensures SortedByStart(Insert(x, s))
    decreases |s|
  {
    if |s| == 0 {
      assert Insert(x, s) == [x];
    } else if x.startTime.value < s[0].startTime.value {
      ConsSorted(x, s);
    } else {
      assert SortedByStart(s[1..]);
      var rest := Insert(x, s[1..]);
      InsertSorted(x, s[1..]);
      InsertKeepsHead(x, s, rest);
      ConsSorted(s[0], rest);
    }
  }

  lemma InsertKeepsHead(x: Request, s: seq<Request>, rest: seq<Request>)
    requires x.startTime.Some? && SortedByStart(s) && |s| > 0
    requires s[0].startTime.value <= x.startTime.value
    requires multiset(rest) == multiset(s[1..]) + multiset{x}
    ensures forall y :: y in rest ==> y.startTime.Some? && s[0].startTime.value <= y.startTime.value
  {
    forall y | y in rest ensures y.startTime.Some? && s[0].startTime.value <= y.startTime.value {
      assert y in multiset(rest);
      if y != x {
        assert y in multiset(s[1..]);
        var k :| 0 <= k < |s[1..]| && s[1..][k] == y;
        assert s[k + 1] == y;
      }
    }
  }

  /** `x` lands after every element of `s` that starts at the same instant. */
  lemma {:induction false} InsertStable(x: Request, s: seq<Request>, t: int)
    requires x.startTime.Some? && SortedByStart(s)
    ensures WithStart(Insert(x, s), t) == WithStart(s, t) + (if x.startTime == Some(t) then [x] else [])
    decreases |s|
  {
    if |s| == 0 {
      assert Insert(x, s) == [x];
      assert WithStart([x], t) == (if x.startTime == Some(t) then [x] else []) + WithStart([], t);
    } else if x.startTime.value < s[0].startTime.value {
      InsertStableFront(x, s, t);
    } else {
      assert SortedByStart(s[1..]);
      InsertStable(x, s[1..], t);
      InsertStableSkip(x, s, t);
    }
  }

  lemma InsertStableFront(x: Request, s: seq<Request>, t: int)
    requires x.startTime.Some? && SortedByStart(s) && |s| > 0
    requires x.startTime.value < s[0].startTime.value
    ensures WithStart(Insert(x, s), t) == WithStart(s, t) + (if x.startTime == Some(t) then [x] else [])
  {
    assert Insert(x, s) == [x] + s;
    WithStartAppend([x], s, t);
    assert WithStart([x], t) == (if x.startTime == Some(t) then [x] else []) + WithStart([], t);
    if x.startTime == Some(t) {
      WithStartBelow(s, t);
    }
  }

  lemma InsertStableSkip(x: Request, s: seq<Request>, t: int)
    requires x.startTime.Some? && AllStarted(s) && |s| > 0
    requires s[0].startTime.value <= x.startTime.value
    requires AllStarted(s[1..])
    requires WithStart(Insert(x, s[1..]), t) == WithStart(s[1..], t) + (if x.startTime == Some(t) then [x] else [])
    ensures WithStart(Insert(x, s), t) == WithStart(s, t) + (if x.startTime == Some(t) then [x] else [])
  {
    var rest := Insert(x, s[1..]);
    var tail := if x.startTime == Some(t) then [x] else [];
    var h := if s[0].startTime == Some(t) then [s[0]] else [];
    assert WithStart([s[0]], t) == h + WithStart([], t);
    assert Insert(x, s) == [s[0]] + rest;
    WithStartAppend([s[0]], rest, t);
    assert WithStart(Insert(x, s), t) == h + (WithStart(s[1..], t) + tail);
    assert WithStart(s, t) == h + WithStart(s[1..], t);
    AppendAssoc(h, WithStart(s[1..], t), tail);
  }

  /** Stable insertion sort by start time. */
  function SortByStart(xs: seq<Request>): (r: seq<Request>)
    requires AllStarted(xs)
    ensures multiset(r) == multiset(xs)
    ensures AllStarted(r)
  {
    if |xs| == 0 then []
    else
      var init := xs[..|xs| - 1];
      assert xs == init + [xs[|xs| - 1]];
      Insert(xs[|xs| - 1], SortByStart(init))
  }

  /** The sort's output ascends in start time. */
  lemma {:induction false} SortByStartSorted(xs: seq<Request>)
    requires AllStarted(xs)
    ensures SortedByStart(SortByStart(xs))
    decreases |xs|
  {
    if |xs| > 0 {
      var init := xs[..|xs| - 1];
      SortByStartSorted(init);
      InsertSorted(xs[|xs| - 1], SortByStart(init));
    }
  }

  /** Hops that start at the same instant keep their input order. */
  lemma {:induction false} SortByStartStable(xs: seq<Request>, t: int)
    requires AllStarted(xs)
    ensures WithStart(SortByStart(xs), t) == WithStart(xs, t)
    decreases |xs|
  {
    if |xs| > 0 {
      var init := xs[..|xs| - 1];
      var last := xs[|xs| - 1];
      assert xs == init + [last];
      SortByStartSorted(init);
      SortByStartStable(init, t);
      InsertStable(last, SortByStart(init), t);
      WithStartAppend(init, [last], t);
    }
  }

  // ---------------------------------------------------------------------------
  // findChildren.

  /**
   * `findChildren`: the hops whose previous span is the parent's new span,
   * stably sorted by start time. The sort compares every element once there
   * are two or more, and comparing an absent (null) start time throws.
   */
  function FindChildren(parent: Request, hops: seq<Request>): (r: Result<seq<Request>, BuildError>)
    ensures var cands := Candidates(parent.newSpan, hops);
            r.Err? <==> |cands| >= 2 && !AllStarted(cands)
    ensures r.Err? ==> r.error == AbsentTimestamp
  {
    var cands := Candidates(parent.newSpan, hops);
    if |cands| < 2 then Ok(cands)
    else if !AllStarted(cands) then Err(AbsentTimestamp)
    else Ok(SortByStart(cands))
  }

  /**
   * The children are exactly the hops below the parent's new span, sorted by
   * start time, with hops that start together kept in input order.
   */
  lemma FindChildrenSpec(parent: Request, hops: seq<Request>)
    requires FindChildren(parent, hops).Ok?
    ensures var kids := FindChildren(parent, hops).value;
            var cands := Candidates(parent.newSpan, hops);
            && multiset(kids) == multiset(cands)
            && (forall x :: x in kids <==> x in hops && x.prevSpan == parent.newSpan)
            && (AllStarted(kids) ==> SortedByStart(kids))
            && (forall t :: WithStart(kids, t) == WithStart(cands, t))
  {
    var kids := FindChildren(parent, hops).value;
    var cands := Candidates(parent.newSpan, hops);
    CandidatesMembers(parent.newSpan, hops);
    if |cands| >= 2 {
      SortByStartSorted(cands);
      assert forall x :: x in kids <==> x in multiset(kids);
      forall t ensures WithStart(kids, t) == WithStart(cands, t) {
        SortByStartStable(cands, t);
      }
    } else if |cands| == 1 {
      assert AllStarted(kids) ==> SortedByStart(kids);
    }
  }
}
