/** Chunk invariance for the client of an event stream: the texts it receives and the error event it
    is told, over idle timeout, framing and the response body together. */
module ClientAgreement {
  import opened SseSpec
  import opened Wrappers
  import opened SseFrameBuffer
  import opened SseChunking
  import opened SseFrameStream
  import opened SseStreamSafety
  import opened SseStreamAgreement
  import opened SseStreamCuts
  import opened ResponseStream

  // ---------- what the client is shown ----------

  datatype Told = Text(bytes: Bytes) | Error(cause: Cause)

  /** A client's reading of the body: the LF of a CRLF that ends an event is ignored, on its own or
      not. */
  function Reading(out: seq<ClientItem>, afterCr: bool): seq<Told> {
    if out == [] then []
    else match out[0]
      case Forwarded(event) =>
        if afterCr && event == [LF] then Reading(out[1..], false)
        else [Text(Trim(event))] + Reading(out[1..], EndsWithCr(event))
      case Synthesised(cause) => [Error(cause)] + Reading(out[1..], false)
      case TransportError => []
  }

  function Never(n: nat): (polls: seq<bool>)
    ensures |polls| == n
  {
    seq(n, i => false)
  }

  /** The body of an event stream read to its end, without an interrupt. */
  function FullBody(mode: Mode, trace: seq<Raw>): seq<ClientItem> {
    var upstream := Upstream(true, mode, trace);
    Body(true, upstream, Never(|upstream| + 1))
  }

  function CauseOfKind(kind: ErrorKind): Cause {
    match kind
    case TimedOut => IdleTimeout
    case UnexpectedEof => EndedEarly
    case Other => UpstreamLost
  }

  function TellOne(seen: Seen): Told {
    match seen
    case Event(text) => Text(text)
    case Ended(kind) => Error(CauseOfKind(kind))
  }

  function Tell(seen: seq<Seen>): (r: seq<Told>)
    ensures |r| == |seen|
  {
    seq(|seen|, i requires 0 <= i < |seen| => TellOne(seen[i]))
  }

  lemma TellCons(first: Seen, rest: seq<Seen>)
    ensures Tell([first] + rest) == [TellOne(first)] + Tell(rest)
  {
  }

  /** The client can tell apart whatever the stream's view tells apart. */
  lemma TellInjective(p: seq<Seen>, q: seq<Seen>)
    ensures Tell(p) == Tell(q) <==> p == q
  {
    if Tell(p) == Tell(q) {
      assert |p| == |q|;
      forall i | 0 <= i < |p| ensures p[i] == q[i] {
        assert Tell(p)[i] == Tell(q)[i];
      }
    }
  }

  lemma ReadingForwarded(event: Bytes, out: seq<ClientItem>, afterCr: bool)
    ensures
      Reading([Forwarded(event)] + out, afterCr) ==
      if afterCr && event == [LF] then Reading(out, false)
      else [Text(Trim(event))] + Reading(out, EndsWithCr(event))
  {
    assert ([Forwarded(event)] + out)[1..] == out;
  }

  /** The body shows the client what the stream's view says. */
  lemma {:induction false} ReadingIsView(upstream: seq<Item>, n: nat, afterCr: bool)
    requires |upstream| < n
    ensures Reading(Body(true, upstream, Never(n)), afterCr) == Tell(View(upstream, afterCr))
    decreases |upstream|
  {
    assert Never(n)[1..] == Never(n - 1);
    if upstream != [] {
      match upstream[0]
      case Ok(event) =>
        var rest := upstream[1..];
        assert upstream == [Ok(event)] + rest;
        ReadingIsView(rest, n - 1, if afterCr && event == [LF] then false else EndsWithCr(event));
        ViewOk(event, rest, afterCr);
        ReadingForwarded(event, Body(true, rest, Never(n - 1)), afterCr);
        TellCons(Event(Trim(event)), View(rest, EndsWithCr(event)));
      case Err(error) =>
        assert View(upstream, afterCr) == [Ended(error.Kind())];
        assert Body(true, upstream, Never(n)) == [Synthesised(CauseOf(error))];
    }
  }

  // ---------- traces ----------

  /** The bytes received before the upstream ended, broke off or fell silent. */
  function Received(trace: seq<Raw>): Bytes {
    Join(Chunks(WithIdleTimeout(trace)))
  }

  /** Whether it broke off or fell silent. */
  function Breakdown(trace: seq<Raw>): Option<ErrorKind> {
    Failure(WithIdleTimeout(trace))
  }

  function EndTrace(failure: Option<ErrorKind>): seq<Raw> {
    match failure
    case None => []
    case Some(TimedOut) => [Idle]
    case Some(_) => [Broken]
  }

  lemma TraceCons(p: Bytes, trace: seq<Raw>)
    ensures WithIdleTimeout([Data(p)] + trace) == [Chunk(p)] + WithIdleTimeout(trace)
  {
    assert ([Data(p)] + trace)[1..] == trace;
  }

  lemma EndTraceIs(failure: Option<ErrorKind>)
    requires failure != Some(UnexpectedEof)
    ensures WithIdleTimeout(EndTrace(failure)) == Ending(failure)
  {
  }

  /** The bytes in one piece. */
  function OnePiece(s: Bytes, failure: Option<ErrorKind>): seq<Raw> {
    [Data(s)] + EndTrace(failure)
  }

  /** The client reads the trace as if its bytes had come in one piece. */
  ghost predicate ReadsWhole(mode: Mode, trace: seq<Raw>) {
    Reading(FullBody(mode, trace), false) ==
    Reading(FullBody(mode, OnePiece(Received(trace), Breakdown(trace))), false)
  }

  lemma {:induction false} BreakdownKinds(trace: seq<Raw>)
    ensures Breakdown(trace) != Some(UnexpectedEof)
    decreases |trace|
  {
    if trace != [] && trace[0].Data? {
      BreakdownKinds(trace[1..]);
      assert trace == [Data(trace[0].bytes)] + trace[1..];
      TraceCons(trace[0].bytes, trace[1..]);
      ChunkFirst(trace[0].bytes, WithIdleTimeout(trace[1..]));
    }
  }

  lemma OnePieceIs(mode: Mode, s: Bytes, failure: Option<ErrorKind>)
    requires failure != Some(UnexpectedEof)
    ensures Upstream(true, mode, OnePiece(s, failure)) == Reference(mode, s, failure)
  {
    EndTraceIs(failure);
    TraceCons(s, EndTrace(failure));
    OneChunkIsReference(mode, s, failure);
  }

  /** Reading whole is looking whole. */
  lemma ReadsAsLooks(mode: Mode, trace: seq<Raw>)
    ensures ReadsWhole(mode, trace) <==> LooksWhole(mode, WithIdleTimeout(trace))
  {
    var s, failure := Received(trace), Breakdown(trace);
    var a, b := Upstream(true, mode, trace), Upstream(true, mode, OnePiece(s, failure));
    BreakdownKinds(trace);
    OnePieceIs(mode, s, failure);
    ReadingIsView(a, |a| + 1, false);
    ReadingIsView(b, |b| + 1, false);
    TellInjective(View(a, false), View(b, false));
  }

  /** The two pieces of the telling cut. */
  lemma CutTrace(mode: Mode, s: Bytes, failure: Option<ErrorKind>) returns (trace: seq<Raw>)
    requires ReachesFragile(mode, s) && failure != Some(UnexpectedEof)
    ensures Received(trace) == s && Breakdown(trace) == failure && !ReadsWhole(mode, trace)
  {
    var p := CutFront(mode, s);
    var rest := [Data(s[|p|..])] + EndTrace(failure);
    trace := [Data(p)] + rest;
    EndTraceIs(failure);
    TraceCons(s[|p|..], EndTrace(failure));
    TraceCons(p, rest);
    assert WithIdleTimeout(trace) == CutSource(mode, s, failure);
    CutDiffers(mode, s, failure);
    ReadsAsLooks(mode, trace);
  }

  /** For every byte string and every way the upstream can end: a client that reads to the end is
      given the same texts and the same error for all cuttings of the string into pieces if and
      only if no fragile event is reached. */
  lemma ClientChunkInvariance(mode: Mode, s: Bytes, failure: Option<ErrorKind>)
    requires mode.Valid() && failure != Some(UnexpectedEof)
    ensures
      (forall trace | Received(trace) == s && Breakdown(trace) == failure :: ReadsWhole(mode, trace))
      <==> !ReachesFragile(mode, s)
  {
    if ReachesFragile(mode, s) {
      var trace := CutTrace(mode, s, failure);
    } else {
      forall trace | Received(trace) == s && Breakdown(trace) == failure ensures ReadsWhole(mode, trace) {
        AgreementHolds(mode, WithIdleTimeout(trace));
        ReadsAsLooks(mode, trace);
      }
    }
  }
}
