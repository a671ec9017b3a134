/**
 * Grouping hops by trace id and merging the per-chunk groupings
 * (`groupByTraceId` and `mergeTraceIdGroups` in `BO/Utils.java`).
 */
module Grouping {
  import opened Requests
  import opened Seqs

  /** A `Map<String, List<Request>>` from trace id to hops. */
  type Groups = map<string, seq<Request>>

  /** The hops of trace `k`, in input order: the reference for a group. */
  function WithTrace(hops: seq<Request>, k: string): (r: seq<Request>)
    ensures |r| <= |hops|
    ensures forall i :: 0 <= i < |r| ==> r[i].traceId == k
    ensures forall x :: x in hops && x.traceId == k ==> x in r
    ensures forall x :: x in r ==> x in hops
  {
    if |hops| == 0 then []
    else
      var last := hops[|hops| - 1];
      var init := hops[..|hops| - 1];
      assert hops == init + [last];
      WithTrace(init, k) + (if last.traceId == k then [last] else [])
  }

  /** A key's list, or the empty list when the key is absent. */
  function Lookup(g: Groups, k: string): seq<Request> {
    if k in g then g[k] else []
  }

  /**
   * `groupByTraceId`: one group per trace id that occurs, holding exactly
   * that trace's hops in input order (`Collectors.groupingBy` into lists).
   */
  function GroupByTraceId(hops: seq<Request>): (g: Groups)
    ensures forall k :: k in g <==> |WithTrace(hops, k)| > 0
    ensures forall k :: k in g ==> g[k] == WithTrace(hops, k)
  {
    if |hops| == 0 then map[]
    else
      var h := hops[|hops| - 1];
      var g := GroupByTraceId(hops[..|hops| - 1]);
      g[h.traceId := Lookup(g, h.traceId) + [h]]
  }

  lemma LookupGroup(hops: seq<Request>, k: string)
    ensures Lookup(GroupByTraceId(hops), k) == WithTrace(hops, k)
  {
  }

  /** Every group is non-empty and holds only hops of its own trace id, all taken from the input. */
  lemma GroupsAreHomogeneous(hops: seq<Request>, k: string)
    requires k in GroupByTraceId(hops)
    ensures var grp := GroupByTraceId(hops)[k];
            && |grp| > 0
            && (forall i :: 0 <= i < |grp| ==> grp[i].traceId == k && grp[i] in hops)
  {
  }

  lemma {:induction false} WithTraceAppend(a: seq<Request>, b: seq<Request>, k: string)
    ensures WithTrace(a + b, k) == WithTrace(a, k) + WithTrace(b, k)
    decreases |b|
  {
    if |b| == 0 {
      assert a + b == a;
    } else {
      var init := b[..|b| - 1];
      assert a + b == (a + init) + [b[|b| - 1]];
      assert (a + b)[..|a + b| - 1] == a + init;
      WithTraceAppend(a, init, k);
    }
  }

  // ---------------------------------------------------------------------------
  // Group sizes add up to the input length.

  /** Sum of the list sizes under the keys `ks`. */
  ghost function SizeOver(g: Groups, ks: set<string>): nat
    requires ks <= g.Keys
    decreases ks
  {
    if ks == {} then 0
    else
      var k :| k in ks;
      |g[k]| + SizeOver(g, ks - {k})
  }

  ghost function TotalSize(g: Groups): nat {
    SizeOver(g, g.Keys)
  }

  lemma {:induction false} SizeOverPick(g: Groups, ks: set<string>, k: string)
    requires ks <= g.Keys && k in ks
    ensures SizeOver(g, ks) == |g[k]| + SizeOver(g, ks - {k})
    decreases ks
  {
    var j :| j in ks && SizeOver(g, ks) == |g[j]| + SizeOver(g, ks - {j});
    if j != k {
      SizeOverPick(g, ks - {j}, k);
      SizeOverPick(g, ks - {k}, j);
      assert ks - {j} - {k} == ks - {k} - {j};
    }
  }

  lemma {:induction false} SizeOverAgree(g: Groups, g': Groups, ks: set<string>)
    requires ks <= g.Keys && ks <= g'.Keys
    requires forall k :: k in ks ==> g[k] == g'[k]
    ensures SizeOver(g, ks) == SizeOver(g', ks)
    decreases ks
  {
    if ks != {} {
      var k :| k in ks;
      SizeOverPick(g, ks, k);
      SizeOverPick(g', ks, k);
      SizeOverAgree(g, g', ks - {k});
    }
  }

  lemma TotalSizeUpdate(g: Groups, k: string, v: seq<Request>)
    ensures TotalSize(g[k := v]) + |Lookup(g, k)| == TotalSize(g) + |v|
  {
    var g' := g[k := v];
    SizeOverPick(g', g'.Keys, k);
    SizeOverAgree(g, g', g.Keys - {k});
    if k in g {
      SizeOverPick(g, g.Keys, k);
      assert g'.Keys - {k} == g.Keys - {k};
    } else {
      assert g'.Keys - {k} == g.Keys;
      assert g.Keys - {k} == g.Keys;
    }
  }

  /** No hop is lost or duplicated: the group sizes sum to the number of hops. */
  lemma {:induction false} GroupSizesSum(hops: seq<Request>)
    ensures TotalSize(GroupByTraceId(hops)) == |hops|
    decreases |hops|
  {
    if |hops| > 0 {
      var h := hops[|hops| - 1];
      var g := GroupByTraceId(hops[..|hops| - 1]);
      GroupSizesSum(hops[..|hops| - 1]);
      TotalSizeUpdate(g, h.traceId, Lookup(g, h.traceId) + [h]);
    } else {
      assert GroupByTraceId(hops).Keys == {};
    }
  }

  // ---------------------------------------------------------------------------
  // Merging the per-chunk groupings.

  /** Union of two groupings, concatenating the lists of a shared key, left first. */
  function Combine(a: Groups, b: Groups): (r: Groups)
    ensures r.Keys == a.Keys + b.Keys
    ensures forall k :: Lookup(r, k) == Lookup(a, k) + Lookup(b, k)
  {
    map k | k in a.Keys + b.Keys :: Lookup(a, k) + Lookup(b, k)
  }

  /** Combining the groupings of two runs of hops groups the runs joined. */
  lemma CombineGroupings(x: seq<Request>, y: seq<Request>)
    ensures Combine(GroupByTraceId(x), GroupByTraceId(y)) == GroupByTraceId(x + y)
  {
    var r := Combine(GroupByTraceId(x), GroupByTraceId(y));
    forall k ensures Lookup(r, k) == Lookup(GroupByTraceId(x + y), k) {
      LookupGroup(x, k);
      LookupGroup(y, k);
      LookupGroup(x + y, k);
      WithTraceAppend(x, y, k);
    }
    forall k | k in r ensures |r[k]| > 0 {
      LookupGroup(x, k);
      LookupGroup(y, k);
    }
    forall k | k in GroupByTraceId(x + y) ensures |GroupByTraceId(x + y)[k]| > 0 {
      LookupGroup(x + y, k);
    }
    GroupsExt(r, GroupByTraceId(x + y));
  }

  /**
   * The combiner may join partial results in any grouping, as a parallel
   * collection does: combining is associative.
   */
  lemma CombineAssociative(a: Groups, b: Groups, c: Groups)
    ensures Combine(Combine(a, b), c) == Combine(a, Combine(b, c))
  {
    var l := Combine(Combine(a, b), c);
    var r := Combine(a, Combine(b, c));
    forall k ensures Lookup(l, k) == Lookup(r, k) {
      assert Lookup(l, k) == (Lookup(a, k) + Lookup(b, k)) + Lookup(c, k);
    }
    SameLookups(l, r);
  }

  /** Two maps with the same keys and the same lists are equal. */
  lemma SameLookups(x: Groups, y: Groups)
    requires x.Keys == y.Keys
    requires forall k :: Lookup(x, k) == Lookup(y, k)
    ensures x == y
  {
    forall k | k in x ensures x[k] == y[k] {
      assert Lookup(x, k) == Lookup(y, k);
    }
  }

  /** The empty map is the unit of combining: the supplier's empty list adds nothing. */
  lemma CombineUnit(a: Groups)
    ensures Combine(map[], a) == a && Combine(a, map[]) == a
  {
    forall k | k in a ensures Combine(map[], a)[k] == a[k] && Combine(a, map[])[k] == a[k] {
      assert Lookup(Combine(map[], a), k) == Lookup(a, k);
      assert Lookup(Combine(a, map[]), k) == Lookup(a, k);
    }
  }

  /** Key `k`'s list in each map, in map order. */
  function KeyParts(ms: seq<Groups>, k: string): (r: seq<seq<Request>>)
    ensures |r| == |ms|
    ensures forall i :: 0 <= i < |ms| ==> r[i] == Lookup(ms[i], k)
  {
    if |ms| == 0 then [] else [Lookup(ms[0], k)] + KeyParts(ms[1..], k)
  }

  /** Key `k`'s lists concatenated in map order: the reference for a merged list. */
  function Collect(ms: seq<Groups>, k: string): seq<Request> {
    Flatten(KeyParts(ms, k))
  }

  /** Keys of any of the maps. */
  function KeysOf(ms: seq<Groups>): set<string> {
    set i, k | 0 <= i < |ms| && k in ms[i] :: k
  }

  /**
   * `mergeTraceIdGroups`: the ordered stream of entries collected by key with
   * an `addAll` accumulator and combiner, i.e. a left fold of `Combine`.
   */
  function MergeTraceIdGroups(ms: seq<Groups>): (r: Groups)
    ensures r.Keys == KeysOf(ms)
    ensures forall k :: Lookup(r, k) == Collect(ms, k)
  {
    if |ms| == 0 then map[]
    else
      var init := ms[..|ms| - 1];
      KeysOfSnoc(ms);
      CollectSnoc(ms);
      Combine(MergeTraceIdGroups(init), ms[|ms| - 1])
  }

  lemma KeysOfSnoc(ms: seq<Groups>)
    requires |ms| > 0
    ensures KeysOf(ms) == KeysOf(ms[..|ms| - 1]) + ms[|ms| - 1].Keys
  {
    var init := ms[..|ms| - 1];
    forall k | k in KeysOf(ms) ensures k in KeysOf(init) + ms[|ms| - 1].Keys {
      var i :| 0 <= i < |ms| && k in ms[i];
      if i < |ms| - 1 { assert init[i] == ms[i]; }
    }
    forall k | k in KeysOf(init) ensures k in KeysOf(ms) {
      var i :| 0 <= i < |init| && k in init[i];
      assert ms[i] == init[i];
    }
  }

  lemma CollectSnoc(ms: seq<Groups>)
    requires |ms| > 0
    ensures forall k :: Collect(ms, k) == Collect(ms[..|ms| - 1], k) + Lookup(ms[|ms| - 1], k)
  {
    forall k ensures Collect(ms, k) == Collect(ms[..|ms| - 1], k) + Lookup(ms[|ms| - 1], k) {
      var init := ms[..|ms| - 1];
      assert KeyParts(ms, k) == KeyParts(init, k) + [Lookup(ms[|ms| - 1], k)];
      FlattenSnoc(KeyParts(init, k), Lookup(ms[|ms| - 1], k));
    }
  }

  // ---------------------------------------------------------------------------
  // Chunked grouping equals grouping the whole hop sequence.

  /** One grouping per chunk, in chunk order (the joined futures). */
  function GroupEach(chunks: seq<seq<Request>>): (ms: seq<Groups>)
    ensures |ms| == |chunks|
    ensures forall i, k :: 0 <= i < |chunks| ==> Lookup(ms[i], k) == WithTrace(chunks[i], k)
    ensures forall i, k :: 0 <= i < |chunks| ==> (k in ms[i] <==> WithTrace(chunks[i], k) != [])
  {
    seq(|chunks|, i requires 0 <= i < |chunks| => GroupByTraceId(chunks[i]))
  }

  /** Trace `k`'s hops of each chunk, in chunk order. */
  function TraceParts(cs: seq<seq<Request>>, k: string): (r: seq<seq<Request>>)
    ensures |r| == |cs|
    ensures forall i :: 0 <= i < |cs| ==> r[i] == WithTrace(cs[i], k)
  {
    if |cs| == 0 then [] else [WithTrace(cs[0], k)] + TraceParts(cs[1..], k)
  }

  lemma {:induction false} WithTraceFlatten(cs: seq<seq<Request>>, k: string)
    ensures WithTrace(Flatten(cs), k) == Flatten(TraceParts(cs, k))
    decreases |cs|
  {
    if |cs| > 0 {
      WithTraceFlatten(cs[1..], k);
      WithTraceAppend(cs[0], Flatten(cs[1..]), k);
    }
  }

  /** Two groupings agree when every key's list agrees and neither holds an empty list. */
  lemma GroupsExt(a: Groups, b: Groups)
    requires forall k :: Lookup(a, k) == Lookup(b, k)
    requires forall k :: k in a ==> |a[k]| > 0
    requires forall k :: k in b ==> |b[k]| > 0
    ensures a == b
  {
    assert forall k :: k in a <==> k in b by {
      forall k ensures k in a <==> k in b {
        assert Lookup(a, k) == Lookup(b, k);
      }
    }
    forall k | k in a ensures a[k] == b[k] {
      assert Lookup(a, k) == Lookup(b, k);
    }
  }

  lemma MergedLookup(chunks: seq<seq<Request>>, k: string)
    ensures Lookup(MergeTraceIdGroups(GroupEach(chunks)), k) == WithTrace(Flatten(chunks), k)
  {
    var ms := GroupEach(chunks);
    forall i | 0 <= i < |ms| ensures KeyParts(ms, k)[i] == TraceParts(chunks, k)[i] {
      assert Lookup(ms[i], k) == WithTrace(chunks[i], k);
    }
    assert KeyParts(ms, k) == TraceParts(chunks, k);
    WithTraceFlatten(chunks, k);
  }

  lemma MergedNonEmpty(ms: seq<Groups>, k: string)
    requires k in MergeTraceIdGroups(ms)
    requires forall i, j :: 0 <= i < |ms| && j in ms[i] ==> |ms[i][j]| > 0
    ensures |MergeTraceIdGroups(ms)[k]| > 0
  {
    assert k in KeysOf(ms);
    var i :| 0 <= i < |ms| && k in ms[i];
    var parts := KeyParts(ms, k);
    assert |parts[i]| > 0;
    FlattenNonEmpty(parts);
    assert Lookup(MergeTraceIdGroups(ms), k) == Collect(ms, k);
  }

  lemma GroupEachNonEmpty(chunks: seq<seq<Request>>)
    ensures var ms := GroupEach(chunks);
            forall i, j :: 0 <= i < |ms| && j in ms[i] ==> |ms[i][j]| > 0
  {
    var ms := GroupEach(chunks);
    forall i, j | 0 <= i < |ms| && j in ms[i] ensures |ms[i][j]| > 0 {
      assert Lookup(ms[i], j) == WithTrace(chunks[i], j);
    }
  }

  /**
   * Headline: merging the groupings of the chunks gives the grouping of all
   * hops, however the hop sequence was cut into chunks.
   */
  lemma MergeOfChunkGroups(chunks: seq<seq<Request>>)
    ensures MergeTraceIdGroups(GroupEach(chunks)) == GroupByTraceId(Flatten(chunks))
  {
    var ms := GroupEach(chunks);
    var merged := MergeTraceIdGroups(ms);
    var whole := GroupByTraceId(Flatten(chunks));
    forall k ensures Lookup(merged, k) == Lookup(whole, k) {
      MergedLookup(chunks, k);
      LookupGroup(Flatten(chunks), k);
    }
    GroupEachNonEmpty(chunks);
    forall k | k in merged ensures |merged[k]| > 0 {
      MergedNonEmpty(ms, k);
    }
    forall k | k in whole ensures |whole[k]| > 0 {
      LookupGroup(Flatten(chunks), k);
    }
    GroupsExt(merged, whole);
  }
}
