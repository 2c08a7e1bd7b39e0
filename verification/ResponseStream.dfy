/** The response body sent to the client: the upstream stream with an idle timeout, framed when it
    is an event stream, and ended by a synthesised error event when something goes wrong. */
module ResponseStream {
  import opened SseSpec
  import opened Wrappers
  import opened SseFrameBuffer
  import opened SseChunking
  import opened SseFrameStream
  import opened SseStreamSafety
  import opened SseStreamExact

  /** What waiting for the upstream can bring. */
  datatype Raw = Data(bytes: Bytes) | Broken | Idle

  /** Items until the upstream ends; an idle period ends the stream with a timeout. */
  function WithIdleTimeout(trace: seq<Raw>): seq<SourceItem> {
    if trace == [] then []
    else match trace[0]
      case Data(bytes) => [Chunk(bytes)] + WithIdleTimeout(trace[1..])
      case Broken => [Failed(Other)] + WithIdleTimeout(trace[1..])
      case Idle => [Failed(TimedOut)]
  }

  /** Without framing, items pass through. */
  function Unframed(source: seq<SourceItem>): seq<Item> {
    if source == [] then []
    else match source[0]
      case Chunk(bytes) => [Ok(bytes)] + Unframed(source[1..])
      case Failed(kind) => [Err(Transport(kind))] + Unframed(source[1..])
  }

  function Upstream(isSse: bool, mode: Mode, trace: seq<Raw>): seq<Item> {
    var source := WithIdleTimeout(trace);
    if isSse then Outputs(mode, Initial(source)) else Unframed(source)
  }

  datatype Cause = RuntimeRestart | IdleTimeout | EndedEarly | UpstreamLost
  datatype ClientItem = Forwarded(bytes: Bytes) | Synthesised(cause: Cause) | TransportError

  function CauseOf(error: IoError): Cause {
    match error.Kind()
    case TimedOut => IdleTimeout
    case UnexpectedEof => EndedEarly
    case Other => UpstreamLost
  }

  /** A failure becomes an event for an event-stream client and a broken body for any other. */
  function Report(isSse: bool, cause: Cause): ClientItem {
    if isSse then Synthesised(cause) else TransportError
  }

  /** What the client receives, one item per poll; `polls[i]` says that the runtime restart
      interrupts poll `i`. The client may stop polling at any time. */
  function Body(isSse: bool, upstream: seq<Item>, polls: seq<bool>): seq<ClientItem> {
    if polls == [] then []
    else if polls[0] then [Report(isSse, RuntimeRestart)]
    else if upstream == [] then []
    else match upstream[0]
      case Ok(bytes) => [Forwarded(bytes)] + Body(isSse, upstream[1..], polls[1..])
      case Err(error) => [Report(isSse, CauseOf(error))]
  }

  class ResponseStream {
    const isSse: bool
    var upstream: seq<Item>
    var permit: bool
    var done: bool

    ghost predicate Valid()
      reads this
    {
      permit == !done
    }

    /** What further polls bring. */
    ghost function Rest(polls: seq<bool>): seq<ClientItem>
      reads this
    {
      if done then [] else Body(isSse, upstream, polls)
    }

    constructor (isSse: bool, upstream: seq<Item>)
      ensures Valid() && permit
      ensures this.isSse == isSse && this.upstream == upstream
    {
      this.isSse := isSse;
      this.upstream := upstream;
      permit, done := true, false;
    }

    /** One poll by the client. The admission permit is held exactly as long as items of the
        upstream are forwarded: it is given up in the step that reports a failure, and at the end. */
    method Next(interrupted: bool) returns (item: Option<ClientItem>)
      requires Valid()
      modifies `upstream, `permit, `done
      ensures Valid()
      ensures permit <==> item.Some? && item.value.Forwarded?
      ensures forall polls :: old(Rest([interrupted] + polls)) ==
                              (if item.Some? then [item.value] else []) + Rest(polls)
    {
      assert forall polls: seq<bool> :: ([interrupted] + polls)[1..] == polls;
      if done {
        return None;
      }
      if interrupted {
        upstream, permit, done := [], false, true;
        return Some(Report(isSse, RuntimeRestart));
      }
      if upstream == [] {
        permit, done := false, true;
        return None;
      }
      var next := upstream[0];
      match next {
        case Ok(bytes) =>
          upstream := upstream[1..];
          return Some(Forwarded(bytes));
        case Err(error) =>
          upstream, permit, done := [], false, true;
          return Some(Report(isSse, CauseOf(error)));
      }
    }
  }

  // ---------- the composed response of an event stream ----------

  /** Items of the upstream in order, then possibly one report, and nothing after it. */
  lemma {:induction false} BodyShape(isSse: bool, upstream: seq<Item>, polls: seq<bool>)
    ensures
      var out := Body(isSse, upstream, polls);
      && (forall i | 0 <= i < |out| - 1 :: out[i].Forwarded?)
      && (forall i | 0 <= i < |out| && out[i].Forwarded? ::
            i < |upstream| && upstream[i] == Ok(out[i].bytes))
      && (isSse ==> forall i | 0 <= i < |out| :: !out[i].TransportError?)
    decreases |polls|
  {
    if polls != [] && !polls[0] && upstream != [] && upstream[0].Ok? {
      BodyShape(isSse, upstream[1..], polls[1..]);
      var tail := Body(isSse, upstream[1..], polls[1..]);
      var out := Body(isSse, upstream, polls);
      assert forall i | 1 <= i < |out| :: out[i] == tail[i - 1];
    }
  }

  predicate Uninterrupted(polls: seq<bool>) {
    forall i | 0 <= i < |polls| :: !polls[i]
  }

  predicate AllOk(upstream: seq<Item>) {
    forall i | 0 <= i < |upstream| :: upstream[i].Ok?
  }

  function Forwards(pieces: seq<Bytes>): (out: seq<ClientItem>)
    ensures |out| == |pieces|
  {
    seq(|pieces|, i requires 0 <= i < |pieces| => Forwarded(pieces[i]))
  }

  lemma ForwardsCons(piece: Bytes, pieces: seq<Bytes>, last: seq<ClientItem>)
    ensures Forwards([piece] + pieces) + last == [Forwarded(piece)] + (Forwards(pieces) + last)
  {
  }

  /** What follows the forwarded items: nothing when the client stops reading or the upstream ends,
      one report when the runtime restarts or the upstream fails. */
  ghost predicate EndsAt(isSse: bool, upstream: seq<Item>, polls: seq<bool>, last: seq<ClientItem>) {
    if polls == [] then last == []
    else if polls[0] then last == [if isSse then Synthesised(RuntimeRestart) else TransportError]
    else if upstream == [] then last == []
    else
      upstream[0].Err? && |last| == 1
      && if !isSse then last[0] == TransportError
         else last[0] == Synthesised(
           match upstream[0].error
           case Transport(TimedOut) => IdleTimeout
           case Transport(UnexpectedEof) => EndedEarly
           case Transport(Other) => UpstreamLost
           case EventTooLarge => UpstreamLost
           case IncompleteEvent => EndedEarly
           case CompletionMissing => EndedEarly)
  }

  /** For event streams and other bodies alike: items are forwarded one per poll, until the client
      stops, the runtime restarts, or the upstream ends or fails. */
  lemma {:induction false} BodyExactly(
    isSse: bool, pieces: seq<Bytes>, rest: seq<Item>, polls: seq<bool>, last: seq<ClientItem>)
    requires |pieces| <= |polls| && Uninterrupted(polls[..|pieces|]) && EndsAt(isSse, rest, polls[|pieces|..], last)
    ensures Body(isSse, AsOks(pieces) + rest, polls) == Forwards(pieces) + last
    decreases |pieces|
  {
    if pieces == [] {
      assert AsOks(pieces) + rest == rest && Forwards(pieces) + last == last && polls[0..] == polls;
    } else {
      var later := pieces[1..];
      assert !polls[0] by { assert polls[0] == polls[..|pieces|][0]; }
      assert polls[1..][|later|..] == polls[|pieces|..];
      forall i | 0 <= i < |later| ensures !polls[1..][..|later|][i] {
        assert polls[1..][..|later|][i] == polls[..|pieces|][i + 1];
      }
      BodyExactly(isSse, later, rest, polls[1..], last);
      assert pieces == [pieces[0]] + later;
      AsOksCons(pieces[0], later, rest);
      assert ([Ok(pieces[0])] + (AsOks(later) + rest))[1..] == AsOks(later) + rest;
      ForwardsCons(pieces[0], later, last);
    }
  }

  function BytesOf(item: Item): Bytes {
    if item.Ok? then item.bytes else []
  }

  function Contents(upstream: seq<Item>): (pieces: seq<Bytes>)
    ensures |pieces| == |upstream|
  {
    seq(|upstream|, i requires 0 <= i < |upstream| => BytesOf(upstream[i]))
  }

  lemma ContentsAreOks(upstream: seq<Item>)
    requires AllOk(upstream)
    ensures AsOks(Contents(upstream)) == upstream
  {
  }

  /** An interrupt after `k` forwarded items is reported at once, in whatever state the upstream is. */
  lemma BodyInterrupted(isSse: bool, upstream: seq<Item>, polls: seq<bool>, k: nat)
    requires k <= |upstream| && k < |polls| && AllOk(upstream[..k]) && Uninterrupted(polls[..k]) && polls[k]
    ensures
      Body(isSse, upstream, polls) ==
      Forwards(Contents(upstream[..k])) + [if isSse then Synthesised(RuntimeRestart) else TransportError]
  {
    ContentsAreOks(upstream[..k]);
    assert upstream == upstream[..k] + upstream[k..];
    BodyExactly(isSse, Contents(upstream[..k]), upstream[k..], polls,
                [if isSse then Synthesised(RuntimeRestart) else TransportError]);
  }

  /** A body read to its end without an interrupt: the upstream's items, and a report if it failed. */
  lemma BodyReadToEnd(isSse: bool, pieces: seq<Bytes>, rest: seq<Item>, polls: seq<bool>, last: seq<ClientItem>)
    requires Uninterrupted(polls) && |pieces| < |polls| && (rest == [] || rest[0].Err?)
    requires EndsAt(isSse, rest, [false], last)
    ensures Body(isSse, AsOks(pieces) + rest, polls) == Forwards(pieces) + last
  {
    assert !polls[|pieces|..][0];
    BodyExactly(isSse, pieces, rest, polls, last);
  }

  // ---------- below the body ----------

  /** The idle timeout passes items on until a period without any, and ends with that failure. */
  lemma {:induction false} TimeoutExactly(trace: seq<Raw>, n: nat)
    requires n <= |trace| && (forall i | 0 <= i < n :: !trace[i].Idle?) && (n < |trace| ==> trace[n].Idle?)
    ensures |WithIdleTimeout(trace)| == if n < |trace| then n + 1 else n
    ensures forall i | 0 <= i < n ::
      WithIdleTimeout(trace)[i] == if trace[i].Data? then Chunk(trace[i].bytes) else Failed(Other)
    ensures n < |trace| ==> WithIdleTimeout(trace)[n] == Failed(TimedOut)
    decreases n
  {
    if n > 0 {
      TimeoutExactly(trace[1..], n - 1);
      var tail := WithIdleTimeout(trace[1..]);
      assert forall i | 1 <= i < |WithIdleTimeout(trace)| :: WithIdleTimeout(trace)[i] == tail[i - 1];
    }
  }

  /** Without framing every item is passed on as it is. */
  lemma {:induction false} UnframedExactly(source: seq<SourceItem>)
    ensures |Unframed(source)| == |source|
    ensures forall i | 0 <= i < |source| ::
      Unframed(source)[i] == if source[i].Chunk? then Ok(source[i].bytes) else Err(Transport(source[i].kind))
    decreases |source|
  {
    if source != [] {
      var rest := source[1..];
      UnframedExactly(rest);
      forall i | 0 < i < |source|
        ensures Unframed(source)[i] == if source[i].Chunk? then Ok(source[i].bytes) else Err(Transport(source[i].kind))
      {
        assert source[i] == rest[i - 1] && Unframed(source)[i] == Unframed(rest)[i - 1];
      }
    }
  }

  predicate Terminal(mode: Mode, item: ClientItem) {
    item.Forwarded? && mode.requireTerminal && mode.terminalText(Normalise(item.bytes))
  }

  lemma UpstreamIsFramed(mode: Mode, trace: seq<Raw>)
    ensures Framed(mode, Upstream(true, mode, trace))
  {
    StreamShape(mode, WithIdleTimeout(trace));
  }

  /** Forwarded items, only the last but one of them terminal, and possibly one report at the end. */
  ghost predicate OneReport(mode: Mode, out: seq<ClientItem>) {
    && (forall i | 0 <= i < |out| - 1 :: out[i].Forwarded? && (Terminal(mode, out[i]) ==> i == |out| - 2))
    && (forall i | 0 <= i < |out| :: !out[i].TransportError?)
  }

  lemma FramedShowsOneReport(mode: Mode, upstream: seq<Item>, polls: seq<bool>)
    requires Framed(mode, upstream)
    ensures OneReport(mode, Body(true, upstream, polls))
  {
    BodyShape(true, upstream, polls);
    TerminalNearEnd(mode, upstream, Body(true, upstream, polls));
  }

  /** For every upstream trace, every point where the client stops reading and every interrupt: an
      event-stream client never sees a transport error, and a synthesised error event is the only
      one and the last item. At most one item follows a terminal event. */
  lemma ClientSeesAtMostOneError(mode: Mode, trace: seq<Raw>, polls: seq<bool>)
    ensures OneReport(mode, Body(true, Upstream(true, mode, trace), polls))
  {
    UpstreamIsFramed(mode, trace);
    FramedShowsOneReport(mode, Upstream(true, mode, trace), polls);
  }

  /** In a prefix of a framed stream with one more item, only the last two items can matter. */
  lemma TerminalNearEnd(mode: Mode, upstream: seq<Item>, out: seq<ClientItem>)
    requires Framed(mode, upstream)
    requires forall i | 0 <= i < |out| - 1 :: out[i].Forwarded?
    requires forall i | 0 <= i < |out| && out[i].Forwarded? :: i < |upstream| && upstream[i] == Ok(out[i].bytes)
    ensures forall i | 0 <= i < |out| - 1 :: Terminal(mode, out[i]) ==> i == |upstream| - 1 == |out| - 2
  {
    forall i | 0 <= i < |out| - 2 ensures !Terminal(mode, out[i]) {
      assert out[i].Forwarded? && out[i + 1].Forwarded?;
    }
  }

  /** A report or a terminal event at the end, not both, and neither before. */
  ghost predicate EndsOnce(mode: Mode, out: seq<ClientItem>) {
    && out != []
    && (out[|out| - 1].Synthesised? <==> !Terminal(mode, out[|out| - 1]))
    && forall i | 0 <= i < |out| - 1 :: out[i].Forwarded? && !Terminal(mode, out[i])
  }

  lemma FramedEndsOnce(mode: Mode, upstream: seq<Item>, polls: seq<bool>)
    requires mode.requireTerminal && Framed(mode, upstream) && Uninterrupted(polls) && |upstream| < |polls|
    ensures EndsOnce(mode, Body(true, upstream, polls))
  {
    var n := |upstream| - 1;
    var pieces, rest := if upstream[n].Ok? then Contents(upstream) else Contents(upstream[..n]), if upstream[n].Ok? then [] else [upstream[n]];
    if upstream[n].Ok? {
      ContentsAreOks(upstream);
      assert AsOks(pieces) + rest == upstream;
      BodyReadToEnd(true, pieces, rest, polls, []);
    } else {
      ContentsAreOks(upstream[..n]);
      assert AsOks(pieces) + rest == upstream;
      BodyReadToEnd(true, pieces, rest, polls, [Synthesised(CauseOf(upstream[n].error))]);
    }
  }

  /** Without an interrupt, a completion stream read to its end finishes with exactly one of an
      upstream terminal event and a synthesised error, and has neither before. */
  lemma CompletionEndsOnce(mode: Mode, trace: seq<Raw>, polls: seq<bool>)
    requires mode.requireTerminal && Uninterrupted(polls)
    requires |Upstream(true, mode, trace)| < |polls|
    ensures EndsOnce(mode, Body(true, Upstream(true, mode, trace), polls))
  {
    UpstreamIsFramed(mode, trace);
    FramedEndsOnce(mode, Upstream(true, mode, trace), polls);
  }

  /** Both a terminal event and a synthesised error. */
  predicate EndsTwice(mode: Mode, out: seq<ClientItem>) {
    |out| >= 2 && Terminal(mode, out[|out| - 2]) && out[|out| - 1].Synthesised?
  }

  /** The upstream ended with a terminal event and the first interrupt comes in the poll right after
      it. */
  ghost predicate InterruptedAfterTerminal(mode: Mode, upstream: seq<Item>, polls: seq<bool>) {
    var n := |upstream|;
    && n > 0 && upstream[n - 1].Ok?
    && mode.requireTerminal && mode.terminalText(Normalise(upstream[n - 1].bytes))
    && n < |polls| && Uninterrupted(polls[..n]) && polls[n]
  }

  lemma TwiceNeedsInterrupt(mode: Mode, upstream: seq<Item>, polls: seq<bool>)
    requires Framed(mode, upstream) && EndsTwice(mode, Body(true, upstream, polls))
    ensures InterruptedAfterTerminal(mode, upstream, polls)
  {
    var out := Body(true, upstream, polls);
    BodyShape(true, upstream, polls);
    TerminalNearEnd(mode, upstream, out);
    BodyLength(upstream, polls);
  }

  lemma InterruptEndsTwice(mode: Mode, upstream: seq<Item>, polls: seq<bool>)
    requires Framed(mode, upstream) && InterruptedAfterTerminal(mode, upstream, polls)
    ensures EndsTwice(mode, Body(true, upstream, polls))
  {
    var n := |upstream|;
    assert upstream[..n] == upstream;
    assert AllOk(upstream);
    BodyInterrupted(true, upstream, polls, n);
  }

  /** With interrupts a completion can end twice, and does so exactly when the upstream ended with a
      terminal event and the first interrupt comes in the poll right after it. */
  lemma EndsTwiceExactly(mode: Mode, trace: seq<Raw>, polls: seq<bool>)
    ensures
      EndsTwice(mode, Body(true, Upstream(true, mode, trace), polls)) <==>
      InterruptedAfterTerminal(mode, Upstream(true, mode, trace), polls)
  {
    var upstream := Upstream(true, mode, trace);
    UpstreamIsFramed(mode, trace);
    if EndsTwice(mode, Body(true, upstream, polls)) {
      TwiceNeedsInterrupt(mode, upstream, polls);
    } else if InterruptedAfterTerminal(mode, upstream, polls) {
      InterruptEndsTwice(mode, upstream, polls);
    }
  }

  /** More items than the upstream has means that an interrupt came just after its end. */
  lemma {:induction false} BodyLength(upstream: seq<Item>, polls: seq<bool>)
    requires |Body(true, upstream, polls)| > |upstream|
    ensures |upstream| < |polls| && Uninterrupted(polls[..|upstream|]) && polls[|upstream|]
    decreases |polls|
  {
    if upstream != [] {
      BodyLength(upstream[1..], polls[1..]);
      forall i | 0 <= i < |upstream| ensures !polls[..|upstream|][i] {
        if i > 0 { assert polls[i] == polls[1..][..|upstream| - 1][i - 1]; }
      }
    }
  }

  // ---------- the whole response ----------

  /** What an event-stream client is told at the end of a stream whose pieces before `i` are clear. */
  ghost predicate Concludes(
    mode: Mode, out: seq<ClientItem>, d: Drained, failure: Option<ErrorKind>, i: nat)
    requires i <= |d.pieces|
  {
    var first := Forwards(d.pieces[..i]);
    if i < |d.pieces| then
      if |d.pieces[i]| > MAX_SSE_EVENT_BYTES then
        out == first + [Synthesised(UpstreamLost)] || out == first + [Synthesised(EndedEarly)]
      else
        mode.requireTerminal && mode.terminalText(Normalise(d.pieces[i])) ==> out == first + [Forwarded(d.pieces[i])]
    else if |d.bytes| > MAX_SSE_EVENT_BYTES then out == first + [Synthesised(EndedEarly)]
    else if failure == Some(TimedOut) then out == first + [Synthesised(IdleTimeout)]
    else if failure == Some(Other) then out == first + [Synthesised(UpstreamLost)]
    else if failure.Some? || d.bytes != [] || mode.requireTerminal then out == first + [Synthesised(EndedEarly)]
    else out == first
  }

  lemma ConcludesFrom(mode: Mode, items: seq<Item>, d: Drained, failure: Option<ErrorKind>, i: nat, polls: seq<bool>)
    requires i <= |d.pieces| && Comes(mode, items, d, failure, i)
    requires Uninterrupted(polls) && |items| < |polls|
    ensures Concludes(mode, Body(true, items, polls), d, failure, i)
  {
    var pieces := d.pieces[..i];
    if i < |d.pieces| && |d.pieces[i]| <= MAX_SSE_EVENT_BYTES {
      if mode.requireTerminal && mode.terminalText(Normalise(d.pieces[i])) {
        TerminalForwarded(pieces, d.pieces[i], polls);
      }
    } else if items == AsOks(pieces) {
      assert AsOks(pieces) + [] == AsOks(pieces) && Forwards(pieces) + [] == Forwards(pieces);
      BodyReadToEnd(true, pieces, [], polls, []);
    } else {
      var error := items[i];
      assert items == AsOks(pieces) + [error];
      BodyReadToEnd(true, pieces, [error], polls, [Synthesised(CauseOf(error.error))]);
    }
  }

  lemma TerminalForwarded(pieces: seq<Bytes>, piece: Bytes, polls: seq<bool>)
    requires Uninterrupted(polls) && |pieces| + 1 < |polls|
    ensures Body(true, AsOks(pieces) + [Ok(piece)], polls) == Forwards(pieces) + [Forwarded(piece)]
  {
    var all := pieces + [piece];
    assert AsOks(all) + [] == AsOks(pieces) + [Ok(piece)] && Forwards(all) + [] == Forwards(pieces) + [Forwarded(piece)];
    BodyReadToEnd(true, all, [], polls, []);
  }

  /** For every upstream trace, read to the end without an interrupt: the client is forwarded the
      scanner's pieces as far as they are clear, and then told, in words that fit the reason, why the
      stream ends, unless it ends with a terminal piece or needs none. */
  lemma ResponseConcludes(mode: Mode, trace: seq<Raw>, i: nat, polls: seq<bool>)
    requires
      var run := Run(Chunks(WithIdleTimeout(trace)));
      i <= |run.pieces| && ClearUpTo(mode, run.pieces, i)
    requires Uninterrupted(polls) && |Upstream(true, mode, trace)| < |polls|
    ensures
      var source := WithIdleTimeout(trace);
      Concludes(mode, Body(true, Upstream(true, mode, trace), polls), Run(Chunks(source)), Failure(source), i)
  {
    var source := WithIdleTimeout(trace);
    StreamComes(mode, source, i);
    ConcludesFrom(mode, Outputs(mode, Initial(source)), Run(Chunks(source)), Failure(source), i, polls);
  }
}
