/**
 * The hop record: one log line's parent-to-child span transition
 * (`BO/Request.java`).
 */
module Requests {
  import opened Wrappers

  /**
   * A hop. The timestamps are instants in milliseconds; `None` stands for
   * the `null` that the date conversion yields for a date token it cannot read.
   * The datatype constructor and destructors are the Java constructor and getters.
   */
  datatype Request = Request(
    startTime: Option<int>,
    endTime: Option<int>,
    traceId: string,
    serviceName: string,
    prevSpan: string,
    newSpan: string)

  /** The three fields that `equals` and `hashCode` look at. */
  datatype Key = Key(traceId: string, serviceName: string, prevSpan: string)

  function KeyOf(r: Request): Key {
    Key(r.traceId, r.serviceName, r.prevSpan)
  }

  /** `Request.equals`: timestamps and the new span are ignored. */
  predicate SameRequest(a: Request, b: Request) {
    && a.traceId == b.traceId
    && a.serviceName == b.serviceName
    && a.prevSpan == b.prevSpan
  }

  /** Both timestamps are present, so the hop can be rendered as a tree node. */
  predicate Timed(r: Request) {
    r.startTime.Some? && r.endTime.Some?
  }

  /** Two requests are equal exactly when their keys coincide. */
  lemma SameRequestIffSameKey(a: Request, b: Request)
    ensures SameRequest(a, b) <==> KeyOf(a) == KeyOf(b)
  {
  }

  /** `equals` is an equivalence relation that ignores times and the new span. */
  lemma SameRequestIsEquivalence(a: Request, b: Request, c: Request)
    ensures SameRequest(a, a)
    ensures SameRequest(a, b) ==> SameRequest(b, a)
    ensures SameRequest(a, b) && SameRequest(b, c) ==> SameRequest(a, c)
    ensures SameRequest(a, a.(startTime := b.startTime, endTime := b.endTime, newSpan := b.newSpan))
  {
  }

  // ---------------------------------------------------------------------------
  // hashCode: Objects.hash over the three key fields, in Java's 32-bit arithmetic.

  const TwoTo32: int := 0x1_0000_0000
  const TwoTo31: int := 0x8000_0000

  predicate IsInt32(x: int) {
    -TwoTo31 <= x < TwoTo31
  }

  /** Java `int` wrap-around: the two's-complement value of `x` modulo 2^32. */
  function Wrap32(x: int): (r: int)
    ensures IsInt32(r)
    ensures (r - x) % TwoTo32 == 0
  {
    var m := x % TwoTo32;
    if m < TwoTo31 then m else m - TwoTo32
  }

  /** `String.hashCode`: s[0]*31^(n-1) + ... + s[n-1], each step wrapped to 32 bits. */
  function StringHash(s: string): (h: int)
    ensures IsInt32(h)
  {
    if |s| == 0 then 0 else Wrap32(31 * StringHash(s[..|s| - 1]) + s[|s| - 1] as int)
  }

  /** `Objects.hash(a, b, c)`, i.e. `Arrays.hashCode` of a three-element array. */
  function Hash3(a: int, b: int, c: int): (h: int)
    ensures IsInt32(h)
  {
    Wrap32(31 * Wrap32(31 * Wrap32(31 * 1 + a) + b) + c)
  }

  /** `Request.hashCode`. */
  function HashCode(r: Request): (h: int)
    ensures IsInt32(h)
  {
    Hash3(StringHash(r.traceId), StringHash(r.serviceName), StringHash(r.prevSpan))
  }

  /** The hash agrees with `equals`: equal requests hash alike. */
  lemma HashCodeRespectsEquals(a: Request, b: Request)
    requires SameRequest(a, b)
    ensures HashCode(a) == HashCode(b)
  {
  }
}
