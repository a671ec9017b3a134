/**
 * `Request.parseLine` on the well-formed log-line grammar
 *   <start> <end> <traceId> <serviceName> <prevSpan>-><newSpan>
 * (`BO/Request.java`, with the regular expressions of `BO/Utils.java`).
 */
module LineParser {
  import opened Wrappers
  import opened Requests

  // ---------------------------------------------------------------------------
  // Character classes of the regular expressions.

  predicate IsDigit(c: char) {
    '0' <= c <= '9'
  }

  /** `[a-zA-Z0-9]` */
  predicate IsAlnum(c: char) {
    IsDigit(c) || 'a' <= c <= 'z' || 'A' <= c <= 'Z'
  }

  predicate Alnum(s: string) {
    forall i :: 0 <= i < |s| ==> IsAlnum(s[i])
  }

  /** Characters that Java's `.` does not match. */
  predicate IsLineTerminator(c: char) {
    c == '\n' || c == '\r' || c == '\U{0085}' || c == '\U{2028}' || c == '\U{2029}'
  }

  predicate NoSpace(s: string) {
    forall i :: 0 <= i < |s| ==> s[i] != ' '
  }

  predicate DigitsAt(s: string, lo: nat, hi: nat)
    requires lo <= hi <= |s|
  {
    forall i :: lo <= i < hi ==> IsDigit(s[i])
  }

  /**
   * A token matched by the date group
   * `[0-9]{4}-[0-9]{2}-[0-9]{2}T[0-9]{2}:[0-9]{2}:[0-9]{2}.*?Z`
   * and delimited by single spaces.
   */
  predicate DateToken(s: string) {
    && |s| >= 20
    && DigitsAt(s, 0, 4) && s[4] == '-'
    && DigitsAt(s, 5, 7) && s[7] == '-'
    && DigitsAt(s, 8, 10) && s[10] == 'T'
    && DigitsAt(s, 11, 13) && s[13] == ':'
    && DigitsAt(s, 14, 16) && s[16] == ':'
    && DigitsAt(s, 17, 19)
    && s[|s| - 1] == 'Z'
    && NoSpace(s)
    && (forall i :: 19 <= i < |s| - 1 ==> !IsLineTerminator(s[i]))
  }

  // ---------------------------------------------------------------------------
  // Tokens separated by single spaces.

  /** The space-separated fields of a line; consecutive spaces give empty fields. */
  function Split(s: string): (r: seq<string>)
    ensures |r| >= 1
  {
    if |s| == 0 then [""]
    else
      var rest := Split(s[1..]);
      if s[0] == ' ' then [""] + rest else [[s[0]] + rest[0]] + rest[1..]
  }

  /** Fields joined with single spaces. */
  function Join(ts: seq<string>): string
    requires |ts| >= 1
  {
    if |ts| == 1 then ts[0] else ts[0] + " " + Join(ts[1..])
  }

  lemma {:induction false} SplitNoSpacePrefix(t: string, s: string)
    requires NoSpace(t)
    ensures Split(t + s) == [t + Split(s)[0]] + Split(s)[1..]
    decreases |t|
  {
    if |t| > 0 {
      assert (t + s)[1..] == t[1..] + s;
      SplitNoSpacePrefix(t[1..], s);
      assert [t[0]] + (t[1..] + Split(s)[0]) == t + Split(s)[0];
    } else {
      var r := Split(s);
      assert t + s == s;
      assert t + r[0] == r[0];
      assert r == [r[0]] + r[1..];
    }
  }

  /** Splitting undoes joining when no field contains a space. */
  lemma {:induction false} SplitJoin(ts: seq<string>)
    requires |ts| >= 1
    requires forall i :: 0 <= i < |ts| ==> NoSpace(ts[i])
    ensures Split(Join(ts)) == ts
    decreases |ts|
  {
    if |ts| == 1 {
      SplitNoSpacePrefix(ts[0], "");
      assert ts[0] + "" == ts[0];
    } else {
      var rest := Join(ts[1..]);
      SplitJoin(ts[1..]);
      assert ts[0] + " " + rest == ts[0] + (" " + rest);
      SplitNoSpacePrefix(ts[0], " " + rest);
      assert (" " + rest)[1..] == rest;
      assert Split(" " + rest) == [""] + ts[1..];
      assert ts[0] + "" == ts[0];
    }
  }

  /** Joining undoes splitting: no character of the line is lost. */
  lemma {:induction false} JoinSplit(s: string)
    ensures Join(Split(s)) == s
    decreases |s|
  {
    if |s| > 0 {
      var rest := Split(s[1..]);
      JoinSplit(s[1..]);
      if s[0] == ' ' {
        assert Split(s) == [""] + rest;
        assert ([""] + rest)[1..] == rest;
      } else {
        var r := [[s[0]] + rest[0]] + rest[1..];
        assert Split(s) == r;
        if |rest| == 1 {
          assert Join(r) == [s[0]] + rest[0];
        } else {
          assert r[1..] == rest[1..];
          assert Join(r) == [s[0]] + rest[0] + " " + Join(rest[1..]);
        }
        assert s == [s[0]] + s[1..];
      }
    }
  }

  // ---------------------------------------------------------------------------
  // The span pair `<prevSpan>-><newSpan>`.

  /** Index of the first '-' in `s`, or |s| when there is none. */
  function FirstDash(s: string): (i: nat)
    ensures i <= |s|
    ensures i < |s| ==> s[i] == '-'
    ensures forall j :: 0 <= j < i ==> s[j] != '-'
  {
    if |s| == 0 then 0
    else if s[0] == '-' then 0
    else 1 + FirstDash(s[1..])
  }

  /** Splits `prev->next` with both halves alphanumeric, as `([a-zA-Z0-9]*?)->([a-zA-Z0-9]*)` does. */
  function SplitArrow(s: string): (r: Option<(string, string)>)
    ensures r.Some? ==> Alnum(r.value.0) && Alnum(r.value.1) && s == r.value.0 + "->" + r.value.1
  {
    var i := FirstDash(s);
    if i + 1 < |s| && s[i + 1] == '>' && Alnum(s[..i]) && Alnum(s[i + 2..]) then
      assert s == s[..i] + "->" + s[i + 2..];
      Some((s[..i], s[i + 2..]))
    else None
  }

  lemma SplitArrowOfPair(p: string, n: string)
    requires Alnum(p) && Alnum(n)
    ensures SplitArrow(p + "->" + n) == Some((p, n))
  {
    var s := p + "->" + n;
    assert forall j :: 0 <= j < |p| ==> s[j] == p[j];
    FirstDashOfAlnum(p, "->" + n);
    assert s == p + ("->" + n);
    assert s[..|p|] == p;
    assert s[|p| + 2..] == n;
  }

  lemma {:induction false} FirstDashOfAlnum(p: string, rest: string)
    requires Alnum(p)
    requires |rest| > 0 && rest[0] == '-'
    ensures FirstDash(p + rest) == |p|
    decreases |p|
  {
    if |p| > 0 {
      assert (p + rest)[1..] == p[1..] + rest;
      FirstDashOfAlnum(p[1..], rest);
    } else {
      assert p + rest == rest;
    }
  }

  // ---------------------------------------------------------------------------
  // The line.

  /** The log line written by the producer of the input. */
  function LogLine(start: string, end: string, traceId: string, service: string, prev: string, next: string): string {
    Join([start, end, traceId, service, prev + "->" + next])
  }

  /**
   * `parseLine`: `stamp` stands for `stringToDateUTC`, which yields `None` when
   * a date token fails both accepted formats. `None` overall means the pattern
   * did not match.
   */
  function ParseLine(line: string, stamp: string -> Option<int>): (r: Option<Request>)
    ensures r.Some? ==> Alnum(r.value.traceId) && Alnum(r.value.serviceName)
    ensures r.Some? ==> Alnum(r.value.prevSpan) && Alnum(r.value.newSpan)
  {
    var ts := Split(line);
    if |ts| == 5 && DateToken(ts[0]) && DateToken(ts[1]) && Alnum(ts[2]) && Alnum(ts[3])
       && SplitArrow(ts[4]).Some?
    then
      var (prev, next) := SplitArrow(ts[4]).value;
      Some(Request(stamp(ts[0]), stamp(ts[1]), ts[2], ts[3], prev, next))
    else None
  }

  lemma AlnumNoSpace(s: string)
    requires Alnum(s)
    ensures NoSpace(s)
  {
    assert forall i :: 0 <= i < |s| ==> IsAlnum(s[i]);
  }

  /**
   * Parse round trip: a well-formed line yields the request whose ids are its
   * tokens and whose timestamps are what the date conversion makes of its dates.
   */
  lemma ParseLogLine(start: string, end: string, traceId: string, service: string, prev: string, next: string,
                     stamp: string -> Option<int>)
    requires DateToken(start) && DateToken(end)
    requires Alnum(traceId) && Alnum(service) && Alnum(prev) && Alnum(next)
    ensures ParseLine(LogLine(start, end, traceId, service, prev, next), stamp)
         == Some(Request(stamp(start), stamp(end), traceId, service, prev, next))
  {
    var pair := prev + "->" + next;
    var ts := [start, end, traceId, service, pair];
    AlnumNoSpace(traceId);
    AlnumNoSpace(service);
    AlnumNoSpace(prev);
    AlnumNoSpace(next);
    assert NoSpace(pair) by {
      forall i | 0 <= i < |pair| ensures pair[i] != ' ' {
        if i < |prev| {
          assert pair[i] == prev[i];
        } else if i >= |prev| + 2 {
          assert pair[i] == next[i - |prev| - 2];
        }
      }
    }
    SplitJoin(ts);
    SplitArrowOfPair(prev, next);
  }

  /** A date token that the date conversion rejects still gives a request, with no timestamp. */
  lemma UnreadableDateStillParses(start: string, end: string, traceId: string, service: string, prev: string, next: string,
                                  stamp: string -> Option<int>)
    requires DateToken(start) && DateToken(end)
    requires Alnum(traceId) && Alnum(service) && Alnum(prev) && Alnum(next)
    requires stamp(start).None?
    ensures var r := ParseLine(LogLine(start, end, traceId, service, prev, next), stamp);
            r.Some? && r.value.startTime.None? && r.value.traceId == traceId
  {
    ParseLogLine(start, end, traceId, service, prev, next, stamp);
  }

  /**
   * Parsing succeeds only on well-formed lines: a parsed line is exactly the
   * log line of the request's ids around two date tokens.
   */
  lemma ParseLineSound(line: string, stamp: string -> Option<int>)
    requires ParseLine(line, stamp).Some?
    ensures var r := ParseLine(line, stamp).value;
            exists start, end :: DateToken(start) && DateToken(end)
              && line == LogLine(start, end, r.traceId, r.serviceName, r.prevSpan, r.newSpan)
              && r.startTime == stamp(start) && r.endTime == stamp(end)
  {
    var ts := Split(line);
    var r := ParseLine(line, stamp).value;
    JoinSplit(line);
    assert ts == [ts[0], ts[1], r.traceId, r.serviceName, r.prevSpan + "->" + r.newSpan];
    assert line == LogLine(ts[0], ts[1], r.traceId, r.serviceName, r.prevSpan, r.newSpan);
  }
}
