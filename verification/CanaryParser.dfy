/**
  * The canary's own stream parser (src/canary.rs): events end at LF LF or CR LF CR LF, whichever
  * starts first. Events stay raw bytes; whether one parses is the abstract predicate `accepts`.
  */
module CanaryParser {
  import opened SseSpec
  import opened Wrappers

  const MAX_SSE_BUFFER_BYTES: nat := 128 * 1024

  // ---------- where events end ----------

  predicate LfLfAt(s: Bytes, i: nat) {
    i + 1 < |s| && s[i] == LF && s[i + 1] == LF
  }

  predicate CrLfCrLfAt(s: Bytes, i: nat) {
    i + 3 < |s| && s[i] == CR && s[i + 1] == LF && s[i + 2] == CR && s[i + 3] == LF
  }

  predicate EndsAt(s: Bytes, i: nat) {
    LfLfAt(s, i) || CrLfCrLfAt(s, i)
  }

  /** First position of the two-byte window, as a scan from `i`. */
  function FindLfLf(s: Bytes, i: nat): (r: Option<nat>)
    ensures r.Some? ==> r.value + 1 < |s|
    decreases |s| - i
  {
    if i + 1 >= |s| then None
    else if s[i] == LF && s[i + 1] == LF then Some(i)
    else FindLfLf(s, i + 1)
  }

  /** First position of the four-byte window, as a scan from `i`. */
  function FindCrLfCrLf(s: Bytes, i: nat): (r: Option<nat>)
    ensures r.Some? ==> r.value + 3 < |s|
    decreases |s| - i
  {
    if i + 3 >= |s| then None
    else if s[i] == CR && s[i + 1] == LF && s[i + 2] == CR && s[i + 3] == LF then Some(i)
    else FindCrLfCrLf(s, i + 1)
  }

  datatype Boundary = Boundary(end: nat, delimiter: nat)

  function EventBoundary(s: Bytes): (r: Option<Boundary>)
    ensures r.Some? ==> r.value.delimiter >= 2 && r.value.end + r.value.delimiter <= |s|
  {
    match (FindLfLf(s, 0), FindCrLfCrLf(s, 0))
    case (Some(lf), Some(crlf)) => if crlf < lf then Some(Boundary(crlf, 4)) else Some(Boundary(lf, 2))
    case (Some(lf), None) => Some(Boundary(lf, 2))
    case (None, Some(crlf)) => Some(Boundary(crlf, 4))
    case (None, None) => None
  }

  lemma {:induction false} FindLfLfIsFirst(s: Bytes, i: nat)
    ensures
      match FindLfLf(s, i)
      case Some(k) => i <= k && LfLfAt(s, k) && forall j | i <= j < k :: !LfLfAt(s, j)
      case None => forall j | i <= j :: !LfLfAt(s, j)
    decreases |s| - i
  {
    if i + 1 < |s| && !LfLfAt(s, i) { FindLfLfIsFirst(s, i + 1); }
  }

  lemma {:induction false} FindCrLfCrLfIsFirst(s: Bytes, i: nat)
    ensures
      match FindCrLfCrLf(s, i)
      case Some(k) => i <= k && CrLfCrLfAt(s, k) && forall j | i <= j < k :: !CrLfCrLfAt(s, j)
      case None => forall j | i <= j :: !CrLfCrLfAt(s, j)
    decreases |s| - i
  {
    if i + 3 < |s| && !CrLfCrLfAt(s, i) { FindCrLfCrLfIsFirst(s, i + 1); }
  }

  /** `b` is the earliest delimiter of either kind, with its own length. */
  ghost predicate Earliest(s: Bytes, b: Boundary) {
    && EndsAt(s, b.end) && (forall j | 0 <= j < b.end :: !EndsAt(s, j))
    && b.delimiter == if LfLfAt(s, b.end) then 2 else 4
  }

  ghost predicate NoEnd(s: Bytes) {
    forall j: nat :: !EndsAt(s, j)
  }

  /** The two searches together find exactly the earliest delimiter. */
  lemma BoundaryIsEarliest(s: Bytes, b: Boundary)
    ensures EventBoundary(s) == Some(b) <==> Earliest(s, b)
    ensures EventBoundary(s) == None <==> NoEnd(s)
  {
    FindLfLfIsFirst(s, 0);
    FindCrLfCrLfIsFirst(s, 0);
    if EventBoundary(s).Some? {
      assert EndsAt(s, EventBoundary(s).value.end);
    }
  }

  /** A delimiter that only more bytes complete cannot start before one already complete. */
  lemma BoundaryIsFinal(s: Bytes, more: Bytes)
    requires EventBoundary(s).Some?
    ensures EventBoundary(s + more) == EventBoundary(s)
  {
    var t, b := s + more, EventBoundary(s).value;
    BoundaryIsEarliest(s, b);
    BoundaryIsEarliest(t, b);
    forall k | 0 <= k < |s| ensures t[k] == s[k] {}
    forall j | 0 <= j < b.end ensures !EndsAt(t, j) {
      assert !EndsAt(s, j);
    }
  }

  // ---------- the whole string ----------

  datatype Parsed = Parsed(events: seq<Bytes>, rest: Bytes) {
    function Cons(event: Bytes): Parsed {
      Parsed([event] + events, rest)
    }

    function After(earlier: seq<Bytes>): Parsed {
      Parsed(earlier + events, rest)
    }
  }

  function Tail(s: Bytes, b: Boundary): Bytes
    requires b.end + b.delimiter <= |s|
  {
    s[b.end + b.delimiter..]
  }

  /** Cut at every earliest delimiter. */
  function Cut(s: Bytes): (r: Parsed)
    ensures |r.rest| <= |s|
    decreases |s|
  {
    match EventBoundary(s)
    case None => Parsed([], s)
    case Some(b) => Cut(Tail(s, b)).Cons(s[..b.end])
  }

  lemma CutHead(s: Bytes, more: Bytes, b: Boundary)
    requires EventBoundary(s) == Some(b)
    ensures Cut(s + more) == Cut(Tail(s, b) + more).Cons(s[..b.end])
  {
    BoundaryIsFinal(s, more);
    assert (s + more)[..b.end] == s[..b.end];
    assert Tail(s + more, b) == Tail(s, b) + more;
  }

  lemma AfterCons(p: Parsed, event: Bytes, earlier: seq<Bytes>)
    ensures p.After(earlier).Cons(event) == p.After([event] + earlier)
  {
    assert [event] + (earlier + p.events) == [event] + earlier + p.events;
  }

  /** Cutting what has arrived and then the rest with the next bytes loses and moves nothing. */
  lemma {:induction false} CutAppend(s: Bytes, more: Bytes)
    ensures Cut(s + more) == Cut(Cut(s).rest + more).After(Cut(s).events)
    decreases |s|
  {
    if EventBoundary(s).Some? {
      var b := EventBoundary(s).value;
      CutHead(s, more, b);
      CutAppend(Tail(s, b), more);
      AfterCons(Cut(Cut(s).rest + more), s[..b.end], Cut(Tail(s, b)).events);
    }
  }

  /** What follows the first `n` events. */
  ghost function Drop(s: Bytes, n: nat): Bytes {
    if n == 0 then s
    else
      var before := Drop(s, n - 1);
      match EventBoundary(before)
      case None => before
      case Some(b) => Tail(before, b)
  }

  // ---------- the parser ----------

  datatype Outcome = Ok(events: seq<Bytes>) | TooLarge | Malformed

  ghost predicate AllAccepted(accepts: Bytes -> bool, events: seq<Bytes>) {
    forall i | 0 <= i < |events| :: accepts(events[i])
  }

  /** Event `n` of `s` is the first that does not parse, and `rest` follows it. */
  ghost predicate StopsAt(accepts: Bytes -> bool, s: Bytes, rest: Bytes, n: nat) {
    var events := Cut(s).events;
    && n < |events| && !accepts(events[n]) && AllAccepted(accepts, events[..n])
    && rest == Drop(s, n + 1)
  }

  /** After draining `events` from `s`, `rest` is left. */
  ghost predicate Drained(s: Bytes, events: seq<Bytes>, rest: Bytes) {
    Cut(s) == Cut(rest).After(events) && rest == Drop(s, |events|)
  }

  lemma DrainNext(s: Bytes, events: seq<Bytes>, rest: Bytes, b: Boundary)
    requires Drained(s, events, rest) && EventBoundary(rest) == Some(b)
    ensures Drained(s, events + [rest[..b.end]], Tail(rest, b))
    ensures |events| < |Cut(s).events| && Cut(s).events[..|events|] == events && Cut(s).events[|events|] == rest[..b.end]
  {
    var event, later := rest[..b.end], Cut(Tail(rest, b)).events;
    assert events + ([event] + later) == events + [event] + later;
    assert Drop(s, |events| + 1) == Tail(rest, b);
  }

  class SseParser {
    const accepts: Bytes -> bool
    var buffer: Bytes

    constructor (accepts: Bytes -> bool)
      ensures this.accepts == accepts && buffer == []
    {
      this.accepts := accepts;
      buffer := [];
    }

    /** The events are the cut of the buffered and new bytes, and what remains is kept; the push
        fails exactly when the bytes do not fit or an event does not parse. A push that does not
        fit changes nothing; one that fails to parse has removed the events up to the bad one. */
    method Push(bytes: Bytes) returns (r: Outcome)
      modifies this
      ensures r == TooLarge <==> |old(buffer)| + |bytes| > MAX_SSE_BUFFER_BYTES
      ensures r.TooLarge? ==> buffer == old(buffer)
      ensures !r.TooLarge? ==> (r.Ok? <==> AllAccepted(accepts, Cut(old(buffer) + bytes).events))
      ensures r.Ok? ==> Parsed(r.events, buffer) == Cut(old(buffer) + bytes)
      ensures r.Malformed? ==> exists n: nat :: StopsAt(accepts, old(buffer) + bytes, buffer, n)
    {
      if |buffer| + |bytes| > MAX_SSE_BUFFER_BYTES { return TooLarge; }
      buffer := buffer + bytes;
      ghost var s := buffer;
      var events: seq<Bytes> := [];
      var boundary := EventBoundary(buffer);
      assert Drained(s, events, buffer) by { assert [] + Cut(s).events == Cut(s).events; }
      while boundary.Some?
        invariant boundary == EventBoundary(buffer)
        invariant Drained(s, events, buffer)
        invariant AllAccepted(accepts, events)
        decreases |buffer|
      {
        var b := boundary.value;
        var event := buffer[..b.end];
        DrainNext(s, events, buffer, b);
        ghost var tail := Tail(buffer, b);
        buffer := buffer[b.end..];
        buffer := buffer[b.delimiter..];
        assert buffer == tail;
        if !accepts(event) {
          assert StopsAt(accepts, s, buffer, |events|);
          return Malformed;
        }
        events := events + [event];
        boundary := EventBoundary(buffer);
      }
      assert events + [] == events;
      return Ok(events);
    }
  }

  // ---------- any chunking ----------

  /** What the first `k` chunks give. */
  ghost function Sofar(chunks: seq<Bytes>, k: nat): Parsed
    requires k <= |chunks|
  {
    Cut(Join(chunks[..k]))
  }

  ghost predicate FitsAt(chunks: seq<Bytes>, k: nat)
    requires k < |chunks|
  {
    |Sofar(chunks, k).rest| + |chunks[k]| <= MAX_SSE_BUFFER_BYTES
  }

  /** Every chunk fits with what the earlier ones left over. */
  ghost predicate Fits(chunks: seq<Bytes>) {
    forall k | 0 <= k < |chunks| :: FitsAt(chunks, k)
  }

  lemma {:induction false} JoinSnoc(chunks: seq<Bytes>, k: nat)
    requires k < |chunks|
    ensures Join(chunks[..k + 1]) == Join(chunks[..k]) + chunks[k]
    decreases k
  {
    if k > 0 {
      JoinSnoc(chunks[1..], k - 1);
      assert chunks[..k + 1][1..] == chunks[1..][..k] && chunks[..k][1..] == chunks[1..][..k - 1];
    }
  }

  lemma {:induction false} JoinPrefix(chunks: seq<Bytes>, k: nat)
    requires k <= |chunks|
    ensures Join(chunks[..k]) <= Join(chunks)
    decreases k
  {
    if k > 0 {
      JoinPrefix(chunks[1..], k - 1);
      assert chunks[..k][1..] == chunks[1..][..k - 1];
    }
  }

  /** Events already cut stay the first events of the whole. */
  lemma EventsArePrefix(s: Bytes, t: Bytes)
    requires s <= t
    ensures Cut(s).events <= Cut(t).events
  {
    CutAppend(s, t[|s|..]);
    assert s + t[|s|..] == t;
  }

  lemma AcceptedParts(accepts: Bytes -> bool, a: seq<Bytes>, b: seq<Bytes>)
    ensures AllAccepted(accepts, a + b) <==> AllAccepted(accepts, a) && AllAccepted(accepts, b)
  {
    if AllAccepted(accepts, a + b) {
      forall i | 0 <= i < |a| ensures accepts(a[i]) { assert (a + b)[i] == a[i]; }
      forall i | 0 <= i < |b| ensures accepts(b[i]) { assert (a + b)[|a| + i] == b[i]; }
    }
  }

  lemma AcceptedPrefix(accepts: Bytes -> bool, a: seq<Bytes>, b: seq<Bytes>)
    requires a <= b && AllAccepted(accepts, b)
    ensures AllAccepted(accepts, a)
  {
    forall i | 0 <= i < |a| ensures accepts(a[i]) { assert b[i] == a[i]; }
  }

  /** One more chunk, pushed on what the earlier ones left over. */
  lemma PushNext(accepts: Bytes -> bool, chunks: seq<Bytes>, k: nat, pushed: Parsed)
    requires k < |chunks| && pushed == Cut(Sofar(chunks, k).rest + chunks[k])
    requires AllAccepted(accepts, Sofar(chunks, k).events)
    ensures Sofar(chunks, k + 1) == pushed.After(Sofar(chunks, k).events)
    ensures AllAccepted(accepts, pushed.events) <==> AllAccepted(accepts, Sofar(chunks, k + 1).events)
    ensures AllAccepted(accepts, Cut(Join(chunks)).events) ==> AllAccepted(accepts, pushed.events)
  {
    JoinSnoc(chunks, k);
    CutAppend(Join(chunks[..k]), chunks[k]);
    AcceptedParts(accepts, Sofar(chunks, k).events, pushed.events);
    JoinPrefix(chunks, k + 1);
    EventsArePrefix(Join(chunks[..k + 1]), Join(chunks));
    if AllAccepted(accepts, Cut(Join(chunks)).events) {
      AcceptedPrefix(accepts, Sofar(chunks, k + 1).events, Cut(Join(chunks)).events);
    }
  }

  /** For every cutting into chunks: the run succeeds exactly when every chunk fits and every event
      of the whole parses, and then it yields the events and leftover of the whole. */
  method Feed(accepts: Bytes -> bool, chunks: seq<Bytes>) returns (r: Outcome, rest: Bytes)
    ensures r.Ok? <==> Fits(chunks) && AllAccepted(accepts, Cut(Join(chunks)).events)
    ensures r.Ok? ==> Parsed(r.events, rest) == Cut(Join(chunks))
  {
    var parser := new SseParser(accepts);
    var events: seq<Bytes> := [];
    for i := 0 to |chunks|
      invariant fresh(parser) && parser.accepts == accepts
      invariant Parsed(events, parser.buffer) == Sofar(chunks, i)
      invariant AllAccepted(accepts, events)
      invariant forall k | 0 <= k < i :: FitsAt(chunks, k)
    {
      PushNext(accepts, chunks, i, Cut(parser.buffer + chunks[i]));
      var pushed := parser.Push(chunks[i]);
      if !pushed.Ok? {
        assert pushed.TooLarge? ==> !FitsAt(chunks, i);
        return pushed, parser.buffer;
      }
      events := events + pushed.events;
    }
    assert chunks[..|chunks|] == chunks;
    return Ok(events), parser.buffer;
  }

  /** A string that one push would take is taken in any chunks. */
  lemma OnePushFits(chunks: seq<Bytes>)
    requires |Join(chunks)| <= MAX_SSE_BUFFER_BYTES
    ensures Fits(chunks)
  {
    forall k | 0 <= k < |chunks| ensures FitsAt(chunks, k) {
      JoinSnoc(chunks, k);
      JoinPrefix(chunks, k + 1);
    }
  }
}
