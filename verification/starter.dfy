/**
 * The driver of `app/Starter.java` after the file is read: the per-chunk
 * groupings are merged, the longest trace is picked, and one document is
 * built for every trace id.
 */
module Starter {
  import opened Wrappers
  import opened Requests
  import opened SpanSearch
  import opened Tree
  import opened Grouping
  import opened Chunking

  /** `k`'s list is at least as long as every other list of `g`. */
  predicate IsLongest(g: Groups, k: string) {
    k in g && forall j :: j in g ==> |g[j]| <= |g[k]|
  }

  /**
   * `Collections.max` over the entries by list size. It walks the entries in
   * the map's (unspecified) iteration order and keeps the first entry of
   * maximal size; on an empty map it throws, modelled as `None`.
   */
  method LongestTraceId(g: Groups) returns (r: Option<string>)
    ensures r.None? <==> |g| == 0
    ensures r.Some? ==> IsLongest(g, r.value)
  {
    var rest := g.Keys;
    r := None;
    while rest != {}
      invariant rest <= g.Keys
      invariant r.None? <==> rest == g.Keys
      invariant r.Some? ==> r.value in g && forall j :: j in g && j !in rest ==> |g[j]| <= |g[r.value]|
      decreases |rest|
    {
      var k :| k in rest;
      if r.None? || |g[k]| > |g[r.value]| {
        r := Some(k);
      }
      rest := rest - {k};
    }
    assert |g| == 0 <==> g.Keys == {};
  }

  /** All longest trace ids have traces of the same length: the pick only decides a tie. */
  lemma LongestIsUpToTies(g: Groups, a: string, b: string)
    requires IsLongest(g, a) && IsLongest(g, b)
    ensures |g[a]| == |g[b]|
  {
  }

  /** Every list under key `k` holds only hops of trace `k`, as a grouping by trace id does. */
  predicate KeyedByTrace(g: Groups) {
    forall k, i :: k in g && 0 <= i < |g[k]| ==> g[k][i].traceId == k
  }

  /** Some trace of `g` has no document: building it throws. */
  predicate SomeTraceFails(g: Groups) {
    exists k :: k in g && TraceMapToTraceObj(k, g[k]).Err?
  }

  /** The documents' trace ids are keys of `g`, each named once. */
  predicate NamesKeysOnce(g: Groups, docs: seq<Trace>) {
    && (forall i :: 0 <= i < |docs| ==> docs[i].traceId in g)
    && (forall i, j :: 0 <= i < j < |docs| ==> docs[i].traceId != docs[j].traceId)
  }

  /**
   * One document per key: as many documents as keys and, when every list
   * holds its own trace's hops, the documents' trace ids are keys, each
   * named once.
   */
  predicate OnePerKey(g: Groups, docs: seq<Trace>) {
    && |docs| == |g|
    && (KeyedByTrace(g) ==> NamesKeysOnce(g, docs))
  }

  /** Every key's document, as `traceMapToTraceObj` builds it, is among `docs`. */
  predicate DocumentsOf(g: Groups, docs: seq<Trace>) {
    forall k :: k in g ==> exists i :: 0 <= i < |docs| && Ok(docs[i]) == TraceMapToTraceObj(k, g[k])
  }

  /**
   * The write loop for any per-entry builder: one `build` per entry, in the
   * map's iteration order; the first entry that throws ends the run. `ks`
   * records the keys in the order they were visited.
   */
  method WriteAll(g: Groups, build: (string, seq<Request>) -> Result<Trace, BuildError>)
    returns (r: Result<seq<Trace>, BuildError>, ghost ks: seq<string>)
    ensures r.Err? <==> exists k :: k in g && build(k, g[k]).Err?
    ensures r.Ok? ==> |r.value| == |ks| == |g|
    ensures r.Ok? ==> forall i :: 0 <= i < |ks| ==> ks[i] in g && build(ks[i], g[ks[i]]) == Ok(r.value[i])
    ensures r.Ok? ==> forall i, j :: 0 <= i < j < |ks| ==> ks[i] != ks[j]
    ensures r.Ok? ==> forall k :: k in g ==> k in ks
    ensures r.Ok? ==> forall k :: k in g ==> exists i :: 0 <= i < |r.value| && Ok(r.value[i]) == build(k, g[k])
  {
    var rest := g.Keys;
    var docs: seq<Trace> := [];
    ks := [];
    while rest != {}
      invariant rest <= g.Keys
      invariant |docs| == |ks| == |g.Keys| - |rest|
      invariant forall i :: 0 <= i < |ks| ==> ks[i] in g && ks[i] !in rest && build(ks[i], g[ks[i]]) == Ok(docs[i])
      invariant forall i, j :: 0 <= i < j < |ks| ==> ks[i] != ks[j]
      invariant forall k :: k in g && k !in rest ==> k in ks
      decreases |rest|
    {
      var k :| k in rest;
      var doc := build(k, g[k]);
      if doc.Err? {
        return Err(doc.error), ks;
      }
      docs := docs + [doc.value];
      ks := ks + [k];
      rest := rest - {k};
    }
    r := Ok(docs);
    forall k | k in g ensures exists i :: 0 <= i < |docs| && Ok(docs[i]) == build(k, g[k]) {
      var i :| 0 <= i < |ks| && ks[i] == k;
    }
  }

  /**
   * The write loop of the driver: `traceMapToTraceObj` for every entry.
   * Exactly one document per key is written, and when every list holds its
   * own trace's hops the documents' trace ids are the keys, each once.
   */
  method WriteDocuments(g: Groups) returns (r: Result<seq<Trace>, BuildError>)
    ensures r.Err? <==> SomeTraceFails(g)
    ensures r.Ok? ==> OnePerKey(g, r.value)
    ensures r.Ok? ==> DocumentsOf(g, r.value)
  {
    ghost var ks;
    r, ks := WriteAll(g, TraceMapToTraceObj);
    if r.Ok? && KeyedByTrace(g) {
      NamedByKeys(g, r.value, ks);
    }
  }

  /** Documents built from pairwise different keys of a grouping by trace id carry those keys. */
  lemma NamedByKeys(g: Groups, docs: seq<Trace>, ks: seq<string>)
    requires KeyedByTrace(g) && |docs| == |ks|
    requires forall i :: 0 <= i < |ks| ==> ks[i] in g && TraceMapToTraceObj(ks[i], g[ks[i]]) == Ok(docs[i])
    requires forall i, j :: 0 <= i < j < |ks| ==> ks[i] != ks[j]
    ensures forall i :: 0 <= i < |docs| ==> docs[i].traceId in g
    ensures forall i, j :: 0 <= i < j < |docs| ==> docs[i].traceId != docs[j].traceId
  {
    forall i | 0 <= i < |docs| ensures docs[i].traceId == ks[i] {
      DocumentNamesItsTrace(g, ks[i], docs[i]);
    }
  }

  /** A document built from a key's list carries that key as its trace id. */
  lemma DocumentNamesItsTrace(g: Groups, k: string, doc: Trace)
    requires KeyedByTrace(g) && k in g
    requires TraceMapToTraceObj(k, g[k]) == Ok(doc)
    ensures doc.traceId == k
  {
    var hops := g[k];
    if |hops| != 1 {
      var r :| r in hops && r.prevSpan == NullSpan && doc.traceId == r.traceId
               && MakeRoot(|hops|, r, hops) == Ok(doc.root);
      var i :| 0 <= i < |hops| && hops[i] == r;
    }
  }

  lemma GroupingKeyedByTrace(hops: seq<Request>)
    ensures KeyedByTrace(GroupByTraceId(hops))
  {
    forall k | k in GroupByTraceId(hops) {
      GroupsAreHomogeneous(hops, k);
    }
  }

  /** Why a run of the driver ends without writing its output. */
  datatype RunError =
    | NoTraces              // `Collections.max` on an empty map
    | BadTrace(BuildError)  // a trace whose document cannot be built

  /** What a run reports and writes: the longest trace id and the documents. */
  datatype Report = Report(longest: string, documents: seq<Trace>)

  /**
   * What a run promises about the merged map `g`: no traces exactly when `g`
   * is empty, a report exactly when every trace builds, and then the longest
   * trace id and one document per key, each the key's `traceMapToTraceObj`.
   */
  predicate Summarizes(g: Groups, r: Result<Report, RunError>) {
    && (r == Err(NoTraces) <==> |g| == 0)
    && (r.Ok? <==> |g| > 0 && !SomeTraceFails(g))
    && (r.Ok? ==> IsLongest(g, r.value.longest))
    && (r.Ok? ==> OnePerKey(g, r.value.documents) && DocumentsOf(g, r.value.documents))
  }

  /**
   * A one-hop trace without timestamps is never reported: `timeStampToStr`
   * throws on its null start, so the run ends with a failed trace.
   */
  lemma UntimedTraceNotReported(hop: Request, r: Result<Report, RunError>)
    requires hop.startTime.None?
    requires Summarizes(map[hop.traceId := [hop]], r)
    ensures r.Err? && r != Err(NoTraces)
  {
    var g := map[hop.traceId := [hop]];
    assert hop.traceId in g && TraceMapToTraceObj(hop.traceId, g[hop.traceId]).Err?;
  }

  /**
   * The driver's work on the merged map: pick the longest trace (which
   * throws on an empty map), then build every document.
   */
  method Summarize(g: Groups) returns (r: Result<Report, RunError>)
    ensures Summarizes(g, r)
  {
    var longest := LongestTraceId(g);
    if longest.None? {
      return Err(NoTraces);
    }
    var docs := WriteDocuments(g);
    if docs.Err? {
      return Err(BadTrace(docs.error));
    }
    r := Ok(Report(longest.value, docs.value));
  }

  /**
   * The whole pipeline over the lines' parse results: cut into chunks, group
   * each chunk, merge, pick the longest trace, and build the documents. The
   * outcome depends only on the parsed hops, not on where the chunks were cut.
   */
  method Process(results: seq<Option<Request>>) returns (r: Result<Report, RunError>)
    ensures Summarizes(GroupByTraceId(Parsed(results)), r)
    ensures r == Err(NoTraces) <==> Parsed(results) == []
    ensures r.Ok? ==> NamesKeysOnce(GroupByTraceId(Parsed(results)), r.value.documents)
  {
    var merged := GroupChunks(results);
    r := Summarize(merged);
    GroupingKeyedByTrace(Parsed(results));
    NoHopsNoTraces(Parsed(results));
  }

  /**
   * The grouping half of the driver: cut the lines into chunks, group each
   * chunk, merge. The result groups all parsed hops, wherever the chunks
   * were cut.
   */
  method GroupChunks(results: seq<Option<Request>>) returns (merged: Groups)
    ensures merged == GroupByTraceId(Parsed(results))
  {
    var chunks := CutChunks(results);
    merged := MergeTraceIdGroups(GroupEach(chunks));
    MergeOfChunkGroups(chunks);
  }

  /** Grouping yields no trace exactly when there are no hops. */
  lemma NoHopsNoTraces(hops: seq<Request>)
    ensures |GroupByTraceId(hops)| == 0 <==> hops == []
  {
    var g := GroupByTraceId(hops);
    if hops != [] {
      assert hops[0] in WithTrace(hops, hops[0].traceId);
      assert hops[0].traceId in g;
    }
  }
}
