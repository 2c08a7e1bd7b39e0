/** What every run of the framing stream keeps, for every upstream trace. */
module SseStreamSafety {
  import opened SseSpec
  import opened Wrappers
  import opened SseFrameBuffer
  import opened SseChunking
  import opened SseFrameStream

  /** The chunks received before the upstream ended or failed. */
  function Chunks(source: seq<SourceItem>): seq<Bytes> {
    if source == [] || source[0].Failed? then [] else [source[0].bytes] + Chunks(source[1..])
  }

  /** The failure that ended the upstream, if one did. */
  function Failure(source: seq<SourceItem>): Option<ErrorKind> {
    if source == [] then None
    else match source[0]
      case Failed(kind) => Some(kind)
      case Chunk(_) => Failure(source[1..])
  }

  function Oks(items: seq<Item>): seq<Bytes> {
    if items == [] then []
    else if items[0].Ok? then [items[0].bytes] + Oks(items[1..])
    else Oks(items[1..])
  }

  // ---------- shape ----------

  /** Events within the size limit, the first terminal one being the last item, then possibly one
      error; a required terminal event is not silently missing. */
  predicate WellShaped(mode: Mode, items: seq<Item>) {
    if items == [] then !mode.requireTerminal
    else match items[0]
      case Err(_) => |items| == 1
      case Ok(event) =>
        && |event| <= MAX_SSE_EVENT_BYTES
        && if mode.Stops(event) then |items| == 1 else WellShaped(mode, items[1..])
  }

  lemma WellShapedCons(mode: Mode, event: Bytes, items: seq<Item>)
    requires |event| <= MAX_SSE_EVENT_BYTES && !mode.Stops(event)
    ensures WellShaped(mode, [Ok(event)] + items) == WellShaped(mode, items)
  {
    assert ([Ok(event)] + items)[1..] == items;
  }

  lemma {:induction false} OutputsWellShaped(mode: Mode, st: State)
    ensures WellShaped(mode, Outputs(mode, st))
    decreases |st.source|, if st.eof then 0 else 1, |st.bytes|
  {
    var t := Take(st.bytes, st.pendingLf, st.eof);
    match t.piece
    case Some(event) =>
      if |event| <= MAX_SSE_EVENT_BYTES && !mode.Stops(event) {
        var st' := st.(bytes := t.bytes, pendingLf := t.pendingLf);
        OutputsWellShaped(mode, st');
        WellShapedCons(mode, event, Outputs(mode, st'));
      }
    case None =>
      if Conclusion(mode, st).None? {
        OutputsWellShaped(mode, Poll(st.(pendingLf := t.pendingLf)));
      }
  }

  /** Only the last item can be an error or terminal, and a required terminal event leaves one of
      the two there. */
  ghost predicate Framed(mode: Mode, items: seq<Item>) {
    && (forall i | 0 <= i < |items| - 1 ::
          items[i].Ok? && !(mode.requireTerminal && mode.terminalText(Normalise(items[i].bytes))))
    && (mode.requireTerminal ==>
          items != [] && (items[|items| - 1].Err? || mode.terminalText(Normalise(items[|items| - 1].bytes))))
  }

  ghost predicate WithinSize(items: seq<Item>) {
    forall i | 0 <= i < |items| && items[i].Ok? :: |items[i].bytes| <= MAX_SSE_EVENT_BYTES
  }

  lemma {:induction false} WellShapedMeans(mode: Mode, items: seq<Item>)
    requires WellShaped(mode, items)
    ensures Framed(mode, items) && WithinSize(items)
    decreases |items|
  {
    if items != [] && items[0].Ok? && !mode.Stops(items[0].bytes) {
      WellShapedMeans(mode, items[1..]);
      assert forall i | 1 <= i < |items| :: items[i] == items[1..][i - 1];
    }
  }

  /** For every upstream trace: only the last item can be an error or a terminal event, every event
      is at most 1 MiB, and when a terminal event is required the last item is exactly one of a
      terminal event and an error. */
  lemma StreamShape(mode: Mode, source: seq<SourceItem>)
    ensures Framed(mode, Outputs(mode, Initial(source))) && WithinSize(Outputs(mode, Initial(source)))
  {
    OutputsWellShaped(mode, Initial(source));
    WellShapedMeans(mode, Outputs(mode, Initial(source)));
  }

  // ---------- what is handed out ----------

  lemma {:induction false} FeedAfter(chunks: seq<Bytes>, d: Drained, earlier: seq<Bytes>)
    ensures Feed(chunks, d.After(earlier)) == Feed(chunks, d).After(earlier)
    decreases |chunks|
  {
    if chunks != [] {
      var next := Drain(d.bytes + chunks[0], d.pendingLf, false);
      FeedAfter(chunks[1..], next.After(d.pieces), earlier);
      ConcatAssoc(earlier, d.pieces, next.pieces);
    }
  }

  /** What the scanner makes of everything received from a state on. */
  function AllDrained(st: State): Drained {
    Feed(Chunks(st.source), Drain(st.bytes, st.pendingLf, false))
  }

  lemma AllDrainedTake(st: State, piece: Bytes)
    requires !st.eof && Take(st.bytes, st.pendingLf, false).piece == Some(piece)
    ensures
      var t := Take(st.bytes, st.pendingLf, false);
      AllDrained(st) == AllDrained(st.(bytes := t.bytes, pendingLf := t.pendingLf)).After([piece])
  {
    var t := Take(st.bytes, st.pendingLf, false);
    FeedAfter(Chunks(st.source), Drain(t.bytes, t.pendingLf, false), [piece]);
  }

  lemma AllDrainedPoll(st: State)
    requires !st.eof && Take(st.bytes, st.pendingLf, false).piece.None?
    requires st.source != [] && st.source[0].Chunk?
    ensures AllDrained(st) == AllDrained(Poll(st.(pendingLf := Take(st.bytes, st.pendingLf, false).pendingLf)))
  {
    var d := Drain(st.bytes, st.pendingLf, false);
    var chunks := Chunks(st.source);
    assert chunks[0] == st.source[0].bytes && chunks[1..] == Chunks(st.source[1..]);
    var next := Drain(d.bytes + chunks[0], d.pendingLf, false);
    assert next.After([]) == next;
  }

  lemma OksCons(event: Bytes, items: seq<Item>)
    ensures Oks([Ok(event)] + items) == [event] + Oks(items)
  {
    assert ([Ok(event)] + items)[1..] == items;
  }

  /** A transport error is the last item only after every piece. */
  predicate CompleteBeforeFailure(items: seq<Item>, pieces: seq<Bytes>, failure: Option<ErrorKind>) {
    items != [] && items[|items| - 1].Err? && items[|items| - 1].error.Transport? ==>
      Oks(items) == pieces && failure == Some(items[|items| - 1].error.kind)
  }

  /** At end of file nothing is left to take from a drained state. */
  lemma {:induction false} OutputsAtEof(mode: Mode, st: State)
    requires st.eof && (st.pendingLf ==> st.bytes == []) && EventEnd(st.bytes, 0) == None
    ensures Conclusion(mode, st).Some? && Outputs(mode, st) == Conclusion(mode, st).value
  {
  }

  lemma {:induction false} QuietState(bytes: Bytes, pendingLf: bool)
    requires Take(bytes, pendingLf, false).piece.None?
    ensures EventEnd(bytes, 0) == None
    ensures Take(bytes, pendingLf, false).pendingLf ==> bytes == []
    ensures Drain(bytes, pendingLf, false) == Drained([], bytes, Take(bytes, pendingLf, false).pendingLf)
  {
  }

  lemma {:induction false} OutputsArePieces(mode: Mode, st: State)
    requires !st.eof && st.pendingError.None?
    ensures Oks(Outputs(mode, st)) <= AllDrained(st).pieces
    ensures CompleteBeforeFailure(Outputs(mode, st), AllDrained(st).pieces, Failure(st.source))
    decreases |st.source|, |st.bytes|, 1
  {
    var t := Take(st.bytes, st.pendingLf, false);
    match t.piece
    case Some(event) =>
      var st' := st.(bytes := t.bytes, pendingLf := t.pendingLf);
      AllDrainedTake(st, event);
      if |event| <= MAX_SSE_EVENT_BYTES {
        OksCons(event, []);
        if !mode.Stops(event) {
          OutputsArePieces(mode, st');
          PiecesCons(event, Outputs(mode, st'), AllDrained(st').pieces, Failure(st.source));
        }
      }
    case None => QuietPieces(mode, st);
  }

  lemma PiecesCons(event: Bytes, items: seq<Item>, pieces: seq<Bytes>, failure: Option<ErrorKind>)
    requires Oks(items) <= pieces && CompleteBeforeFailure(items, pieces, failure)
    ensures Oks([Ok(event)] + items) <= [event] + pieces
    ensures CompleteBeforeFailure([Ok(event)] + items, [event] + pieces, failure)
  {
    OksCons(event, items);
    LastCons(event, items);
  }

  lemma {:induction false} QuietPieces(mode: Mode, st: State)
    requires !st.eof && st.pendingError.None? && Take(st.bytes, st.pendingLf, false).piece.None?
    ensures Oks(Outputs(mode, st)) <= AllDrained(st).pieces
    ensures CompleteBeforeFailure(Outputs(mode, st), AllDrained(st).pieces, Failure(st.source))
    decreases |st.source|, |st.bytes|, 0
  {
    var t := Take(st.bytes, st.pendingLf, false);
    QuietState(st.bytes, st.pendingLf);
    if Conclusion(mode, st).None? {
      var st' := Poll(st.(pendingLf := t.pendingLf));
      if st.source != [] && st.source[0].Chunk? {
        AllDrainedPoll(st);
        OutputsArePieces(mode, st');
      } else {
        OutputsAtEof(mode, st');
        assert Chunks(st.source) == [];
      }
    }
  }

  lemma LastCons(event: Bytes, items: seq<Item>)
    ensures items != [] ==> ([Ok(event)] + items)[|items|] == items[|items| - 1]
  {
  }

  // ---------- when a transport error comes out ----------

  predicate Passes(mode: Mode, piece: Bytes) {
    |piece| <= MAX_SSE_EVENT_BYTES && !(mode.requireTerminal && mode.terminalText(Normalise(piece)))
  }

  /** No piece is too large or terminal, and neither is the incomplete rest too large. */
  ghost predicate Unobstructed(mode: Mode, d: Drained) {
    (forall i | 0 <= i < |d.pieces| :: Passes(mode, d.pieces[i])) && |d.bytes| <= MAX_SSE_EVENT_BYTES
  }

  predicate EndsInFailure(items: seq<Item>, kind: ErrorKind) {
    items != [] && items[|items| - 1] == Err(Transport(kind))
  }

  /** Bytes over the limit without an event stay in the way. */
  lemma {:induction false} LongTail(mode: Mode, bytes: Bytes, chunks: seq<Bytes>)
    requires EventEnd(bytes, 0) == None && |bytes| > MAX_SSE_EVENT_BYTES
    ensures
      var d := Feed(chunks, Drained([], bytes, false));
      if d.pieces == [] then |d.bytes| > MAX_SSE_EVENT_BYTES else |d.pieces[0]| > MAX_SSE_EVENT_BYTES
    ensures !Unobstructed(mode, Feed(chunks, Drained([], bytes, false)))
    decreases |chunks|
  {
    if chunks != [] {
      var next := Drain(bytes + chunks[0], false, false);
      NoEarlierEvent(bytes, chunks[0], 0);
      if EventEnd(bytes + chunks[0], 0) == None {
        LongTail(mode, bytes + chunks[0], chunks[1..]);
      } else {
        FeedPieces(chunks[1..], next);
        assert !Passes(mode, next.pieces[0]);
      }
      assert next.After([]) == next;
    }
  }

  lemma {:induction false} FeedPieces(chunks: seq<Bytes>, d: Drained)
    ensures d.pieces <= Feed(chunks, d).pieces
    decreases |chunks|
  {
    if chunks != [] {
      FeedPieces(chunks[1..], Drain(d.bytes + chunks[0], d.pendingLf, false).After(d.pieces));
    }
  }

  lemma UnobstructedCons(mode: Mode, piece: Bytes, d: Drained)
    ensures Unobstructed(mode, d.After([piece])) <==> Passes(mode, piece) && Unobstructed(mode, d)
  {
    var all := d.After([piece]).pieces;
    assert all[0] == piece;
    forall i | 0 <= i < |d.pieces| ensures all[i + 1] == d.pieces[i] {}
    if Unobstructed(mode, d.After([piece])) {
      forall i | 0 <= i < |d.pieces| ensures Passes(mode, d.pieces[i]) { assert Passes(mode, all[i + 1]); }
    }
  }

  /** What `FailsExactly` says of items, pieces and how the upstream ended. */
  ghost predicate FailsAsItShould(
    mode: Mode, items: seq<Item>, d: Drained, failure: Option<ErrorKind>, kind: ErrorKind)
  {
    EndsInFailure(items, kind) <==> failure == Some(kind) && Unobstructed(mode, d)
  }

  lemma FailsCons(mode: Mode, event: Bytes, items: seq<Item>, d: Drained, failure: Option<ErrorKind>, kind: ErrorKind)
    requires Passes(mode, event) && FailsAsItShould(mode, items, d, failure, kind)
    ensures FailsAsItShould(mode, [Ok(event)] + items, d.After([event]), failure, kind)
  {
    UnobstructedCons(mode, event, d);
    LastCons(event, items);
  }

  lemma FailsStopped(mode: Mode, event: Bytes, items: seq<Item>, d: Drained, failure: Option<ErrorKind>, kind: ErrorKind)
    requires !Passes(mode, event) && (items == [Err(EventTooLarge)] || items == [Ok(event)])
    ensures FailsAsItShould(mode, items, d.After([event]), failure, kind)
  {
    UnobstructedCons(mode, event, d);
  }

  lemma {:induction false} FailsExactly(mode: Mode, st: State, kind: ErrorKind)
    requires !st.eof && st.pendingError.None?
    ensures FailsAsItShould(mode, Outputs(mode, st), AllDrained(st), Failure(st.source), kind)
    decreases |st.source|, |st.bytes|, 1
  {
    var t := Take(st.bytes, st.pendingLf, false);
    match t.piece
    case Some(event) =>
      var st' := st.(bytes := t.bytes, pendingLf := t.pendingLf);
      AllDrainedTake(st, event);
      if Passes(mode, event) {
        FailsExactly(mode, st', kind);
        FailsCons(mode, event, Outputs(mode, st'), AllDrained(st'), Failure(st.source), kind);
      } else {
        FailsStopped(mode, event, Outputs(mode, st), AllDrained(st'), Failure(st.source), kind);
      }
    case None => QuietFails(mode, st, kind);
  }

  lemma {:induction false} QuietFails(mode: Mode, st: State, kind: ErrorKind)
    requires !st.eof && st.pendingError.None? && Take(st.bytes, st.pendingLf, false).piece.None?
    ensures FailsAsItShould(mode, Outputs(mode, st), AllDrained(st), Failure(st.source), kind)
    decreases |st.source|, |st.bytes|, 0
  {
    var st' := Poll(st.(pendingLf := Take(st.bytes, st.pendingLf, false).pendingLf));
    QuietState(st.bytes, st.pendingLf);
    if |st.bytes| > MAX_SSE_EVENT_BYTES {
      LongTail(mode, st.bytes, Chunks(st.source));
    } else if st.source != [] && st.source[0].Chunk? {
      AllDrainedPoll(st);
      FailsExactly(mode, st', kind);
    } else {
      OutputsAtEof(mode, st');
      assert Chunks(st.source) == [];
    }
  }

  /** For every upstream trace the events handed out are, in order, the first pieces the scanner
      cuts from the chunks received. By `ChunkInvariance` those are the events of the whole byte
      string, split only at the CR of a CRLF. A transport error comes out, after all of them, if
      and only if the upstream failed that way and no piece was terminal or too large and the
      incomplete rest was not too large either. */
  lemma StreamHandsOutPieces(mode: Mode, source: seq<SourceItem>, kind: ErrorKind)
    ensures
      var items := Outputs(mode, Initial(source));
      var run := Run(Chunks(source));
      && Oks(items) <= run.pieces
      && Glue(run.pieces) == Frame(Join(Chunks(source))).events
      && CompleteBeforeFailure(items, run.pieces, Failure(source))
      && (EndsInFailure(items, kind) <==> Failure(source) == Some(kind) && Unobstructed(mode, run))
  {
    ChunkInvariance(Chunks(source));
    RunIsFeed(Chunks(source));
    OutputsArePieces(mode, Initial(source));
    FailsExactly(mode, Initial(source), kind);
  }

  lemma RunIsFeed(chunks: seq<Bytes>)
    ensures Run(chunks).pieces == Feed(chunks, EMPTY).pieces && Run(chunks).bytes == Feed(chunks, EMPTY).bytes
  {
    ChunkInvariance(chunks);
  }

  // ---------- bytes ----------

  lemma PrefixCons(a: Bytes, b: Bytes, c: Bytes, d: Bytes)
    requires b <= c + d
    ensures a + b <= a + c + d
  {
    BytesAssoc(a, c, d);
  }

  lemma PrefixEvent(event: Bytes, items: seq<Item>, rest: Bytes, later: Bytes)
    requires Join(Oks(items)) <= rest + later
    ensures Join(Oks([Ok(event)] + items)) <= event + rest + later
  {
    OksCons(event, items);
    JoinCons(event, Oks(items));
    PrefixCons(event, Join(Oks(items)), rest, later);
  }

  lemma PrefixLast(event: Bytes, rest: Bytes, later: Bytes)
    ensures Join(Oks([Ok(event)])) <= event + rest + later
  {
    OksCons(event, []);
    JoinCons(event, []);
    assert [Ok(event)] + [] == [Ok(event)];
    BytesAssoc(event, rest, later);
  }

  /** What is still to come in, one chunk later. */
  lemma ChunksAhead(st: State)
    requires st.source != [] && st.source[0].Chunk?
    ensures st.bytes + Join(Chunks(st.source)) == st.bytes + st.source[0].bytes + Join(Chunks(st.source[1..]))
  {
    JoinCons(st.source[0].bytes, Chunks(st.source[1..]));
    BytesAssoc(st.bytes, st.source[0].bytes, Join(Chunks(st.source[1..])));
  }

  lemma {:induction false} OutputsPrefix(mode: Mode, st: State)
    requires !st.eof && st.pendingError.None?
    ensures Join(Oks(Outputs(mode, st))) <= st.bytes + Join(Chunks(st.source))
    decreases |st.source|, |st.bytes|, 1
  {
    var t := Take(st.bytes, st.pendingLf, false);
    var later := Join(Chunks(st.source));
    match t.piece
    case Some(event) =>
      if |event| <= MAX_SSE_EVENT_BYTES {
        PrefixLast(event, t.bytes, later);
        if !mode.Stops(event) {
          var st' := st.(bytes := t.bytes, pendingLf := t.pendingLf);
          OutputsPrefix(mode, st');
          PrefixEvent(event, Outputs(mode, st'), t.bytes, later);
        }
      }
    case None => QuietPrefix(mode, st);
  }

  lemma {:induction false} QuietPrefix(mode: Mode, st: State)
    requires !st.eof && st.pendingError.None? && Take(st.bytes, st.pendingLf, false).piece.None?
    ensures Join(Oks(Outputs(mode, st))) <= st.bytes + Join(Chunks(st.source))
    decreases |st.source|, |st.bytes|, 0
  {
    var t := Take(st.bytes, st.pendingLf, false);
    QuietState(st.bytes, st.pendingLf);
    if Conclusion(mode, st).None? {
      var st' := Poll(st.(pendingLf := t.pendingLf));
      if st.source != [] && st.source[0].Chunk? {
        OutputsPrefix(mode, st');
        ChunksAhead(st);
      } else {
        OutputsAtEof(mode, st');
      }
    }
  }

  /** The bytes handed out are a prefix of the bytes received. */
  lemma StreamPrefix(mode: Mode, source: seq<SourceItem>)
    ensures Join(Oks(Outputs(mode, Initial(source)))) <= Join(Chunks(source))
  {
    OutputsPrefix(mode, Initial(source));
    assert [] + Join(Chunks(source)) == Join(Chunks(source));
  }
}
