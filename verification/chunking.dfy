/**
 * The input loop of `app/Starter.java`: parse results are collected into
 * chunks of (nominally) 100 requests, and the remainder forms a last chunk.
 */
module Chunking {
  import opened Wrappers
  import opened Requests
  import opened Seqs

  /** `threshold` in the loop. */
  const Threshold: nat := 100

  /** Loop state: `counter`, the pending `requests`, and `masterList`. */
  datatype Reader = Reader(counter: int, pending: seq<Request>, chunks: seq<seq<Request>>)

  /** The successfully parsed requests, in line order. */
  function Parsed(results: seq<Option<Request>>): (r: seq<Request>)
    ensures |r| <= |results|
  {
    if |results| == 0 then []
    else
      var last := results[|results| - 1];
      Parsed(results[..|results| - 1]) + (if last.Some? then [last.value] else [])
  }

  /** A request is kept exactly when some line parsed to it: nothing is invented, no parse is lost. */
  lemma {:induction false} ParsedMembers(results: seq<Option<Request>>)
    ensures forall x :: x in Parsed(results) <==> Some(x) in results
    decreases |results|
  {
    if |results| > 0 {
      var init := results[..|results| - 1];
      ParsedMembers(init);
      assert results == init + [results[|results| - 1]];
    }
  }

  /**
   * One iteration of the loop. The counter advances on every line, parsed or
   * not; on the 100th line it resets to 1, and the pending chunk is flushed
   * only if that line parsed (a failed `get()` skips the flush).
   */
  function Step(st: Reader, parsed: Option<Request>): Reader {
    if st.counter <= Threshold - 1 then
      Reader(st.counter + 1, st.pending + (if parsed.Some? then [parsed.value] else []), st.chunks)
    else if parsed.None? then
      Reader(1, st.pending, st.chunks)
    else
      Reader(1, [], st.chunks + [st.pending + [parsed.value]])
  }

  /** The state after reading all lines, whatever their parse results. */
  function ReadAll(results: seq<Option<Request>>): (st: Reader)
    ensures st.counter == |results| % Threshold + 1
    ensures Flatten(st.chunks) + st.pending == Parsed(results)
  {
    if |results| == 0 then Reader(1, [], [])
    else
      var init := results[..|results| - 1];
      var st := ReadAll(init);
      var parsed := results[|results| - 1];
      FlattenSnoc(st.chunks, st.pending + (if parsed.Some? then [parsed.value] else []));
      Step(st, parsed)
  }

  /** `masterList` after the loop: the flushed chunks and then the remainder. */
  function CutChunks(results: seq<Option<Request>>): (chunks: seq<seq<Request>>)
    ensures |chunks| >= 1
    ensures Flatten(chunks) == Parsed(results)
  {
    var st := ReadAll(results);
    FlattenSnoc(st.chunks, st.pending);
    st.chunks + [st.pending]
  }

  /**
   * Reading one more line: the last (pending) chunk grows by the line's
   * request, and a new empty chunk opens exactly when the line is the 100th
   * since the last reset and it parsed.
   */
  lemma CutChunksSnoc(results: seq<Option<Request>>, parsed: Option<Request>)
    ensures var before := CutChunks(results);
            var after := CutChunks(results + [parsed]);
            var n := |before|;
            var grown := before[n - 1] + (if parsed.Some? then [parsed.value] else []);
            if |results| % Threshold == Threshold - 1 && parsed.Some? then
              after == before[..n - 1] + [grown, []]
            else
              after == before[..n - 1] + [grown]
  {
    var st := ReadAll(results);
    assert (results + [parsed])[..|results|] == results;
    assert ReadAll(results + [parsed]) == Step(st, parsed);
    var before := st.chunks + [st.pending];
    assert before[..|before| - 1] == st.chunks;
    if parsed.None? {
      assert st.pending + [] == st.pending;
    }
  }

  /** When every line parses, all chunks but the last hold exactly 100 requests and the last fewer. */
  lemma {:induction false} AllParsedChunkSizes(results: seq<Option<Request>>)
    requires forall i :: 0 <= i < |results| ==> results[i].Some?
    ensures var chunks := CutChunks(results);
            && |chunks| == |results| / Threshold + 1
            && (forall j :: 0 <= j < |chunks| - 1 ==> |chunks[j]| == Threshold)
            && |chunks[|chunks| - 1]| == |results| % Threshold
    decreases |results|
  {
    if |results| > 0 {
      var init := results[..|results| - 1];
      var parsed := results[|results| - 1];
      AllParsedChunkSizes(init);
      CutChunksSnoc(init, parsed);
      assert init + [parsed] == results;
    }
  }
}
