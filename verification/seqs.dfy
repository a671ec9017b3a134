/** Sequence helpers shared by the models. */
module Seqs {

  /** Concatenation is associative; stated once so that proofs need not re-derive it by extensionality. */
  lemma AppendAssoc<T>(a: seq<T>, b: seq<T>, c: seq<T>)
    ensures a + (b + c) == (a + b) + c
  {
  }

  /** Concatenation of a sequence of sequences, in order. */
  function Flatten<T>(ss: seq<seq<T>>): (r: seq<T>)
  {
    if |ss| == 0 then [] else ss[0] + Flatten(ss[1..])
  }

  lemma {:induction false} FlattenAppend<T>(ss: seq<seq<T>>, ts: seq<seq<T>>)
    ensures Flatten(ss + ts) == Flatten(ss) + Flatten(ts)
    decreases |ss|
  {
    if |ss| == 0 {
      assert ss + ts == ts;
    } else {
      assert (ss + ts)[1..] == ss[1..] + ts;
      FlattenAppend(ss[1..], ts);
    }
  }

  lemma FlattenSnoc<T>(ss: seq<seq<T>>, s: seq<T>)
    ensures Flatten(ss + [s]) == Flatten(ss) + s
  {
    FlattenAppend(ss, [s]);
    assert Flatten([s]) == s + Flatten([s][1..]);
  }

  /** A flattening is non-empty exactly when one of its parts is. */
  lemma {:induction false} FlattenNonEmpty<T>(ss: seq<seq<T>>)
    ensures |Flatten(ss)| > 0 <==> exists i :: 0 <= i < |ss| && |ss[i]| > 0
    decreases |ss|
  {
    if |ss| > 0 {
      FlattenNonEmpty(ss[1..]);
      if |ss[0]| == 0 {
        forall i | 1 <= i < |ss| ensures ss[i] == ss[1..][i - 1] { }
      } else {
        assert |ss[0]| > 0;
      }
      assert forall i :: 1 <= i < |ss| ==> ss[i] == ss[1..][i - 1];
    }
  }
}
