/** The other half of chunk invariance: a cut inside a fragile event makes a difference. */
module SseStreamCuts {
  import opened SseSpec
  import opened Wrappers
  import opened SseFrameBuffer
  import opened SseChunking
  import opened SseFrameStream
  import opened SseStreamSafety
  import opened SseStreamAgreement

  // ---------- up to the fragile event ----------

  function Ending(failure: Option<ErrorKind>): seq<SourceItem> {
    match failure
    case None => []
    case Some(kind) => [Failed(kind)]
  }

  /** A cut inside a fragile event that makes a difference: after the CR of its final CRLF, or as
      soon as it is over the limit. */
  function CutInside(event: Bytes): (k: nat)
    requires Fragile(event)
    ensures MAX_SSE_EVENT_BYTES <= k < |event|
  {
    if OverByLf(event) then |event| - 1 else MAX_SSE_EVENT_BYTES + 1
  }

  /** The bytes before the cut. */
  function CutFront(mode: Mode, s: Bytes): (p: Bytes)
    requires ReachesFragile(mode, s)
    ensures p != [] && p <= s
    decreases |s|
  {
    var e := EventEnd(s, 0).value;
    if Fragile(s[..e]) then s[..CutInside(s[..e])] else s[..e] + CutFront(mode, s[e..])
  }

  /** What is handed out before the fragile event. */
  function Before(mode: Mode, s: Bytes): seq<Item>
    requires ReachesFragile(mode, s)
    decreases |s|
  {
    var e := EventEnd(s, 0).value;
    if Fragile(s[..e]) then [] else [Ok(s[..e])] + Before(mode, s[e..])
  }

  lemma {:induction false} BeforeIsOk(mode: Mode, s: Bytes)
    requires ReachesFragile(mode, s)
    ensures forall i | 0 <= i < |Before(mode, s)| :: Before(mode, s)[i].Ok?
    decreases |s|
  {
    var e := EventEnd(s, 0).value;
    if !Fragile(s[..e]) { BeforeIsOk(mode, s[e..]); }
  }

  lemma ItemsCons(item: Item, items: seq<Item>, more: seq<Item>)
    ensures [item] + (items + more) == [item] + items + more
  {
  }

  lemma {:induction false} WholeBefore(mode: Mode, s: Bytes, failure: Option<ErrorKind>)
    requires ReachesFragile(mode, s)
    ensures Whole(mode, s, failure) == Before(mode, s) + [Err(EventTooLarge)]
    decreases |s|
  {
    var e := EventEnd(s, 0).value;
    if !Fragile(s[..e]) {
      WholeBefore(mode, s[e..], failure);
      ItemsCons(Ok(s[..e]), Before(mode, s[e..]), [Err(EventTooLarge)]);
    }
  }

  // ---------- the first of two chunks ----------

  /** The first chunk has arrived. */
  function HalfWay(p: Bytes, later: seq<SourceItem>): State {
    State(p, false, false, None, later)
  }

  lemma FrontSlices(s: Bytes, e: nat, p: Bytes)
    requires e <= |s| && p <= s[e..]
    ensures (s[..e] + p)[..e] == s[..e] && (s[..e] + p)[e..] == p && s[..e + |p|] == s[..e] + p
  {
  }

  /** An event before the cut is handed out. */
  lemma {:induction false} FrontStep(mode: Mode, s: Bytes, e: nat, p: Bytes, later: seq<SourceItem>)
    requires EventEnd(s, 0) == Some(e) && e <= MAX_SSE_EVENT_BYTES && !mode.Stops(s[..e])
    requires p != [] && p <= s[e..]
    ensures Outputs(mode, HalfWay(s[..e] + p, later)) == [Ok(s[..e])] + Outputs(mode, HalfWay(p, later))
  {
    FrontSlices(s, e, p);
    EventOfPrefix(s, e, e + |p|);
    OutputsEvent(mode, HalfWay(s[..e] + p, later), e);
  }

  /** Something else than an error about an oversized event. */
  predicate NotTooLarge(items: seq<Item>) {
    items != [] && if items[0].Ok? then items[0].bytes != [LF] else items[0].error.Kind() != Other
  }

  /** Without its LF the event is handed out. */
  lemma {:induction false} CutAfterCr(mode: Mode, s: Bytes, e: nat, later: seq<SourceItem>)
    requires EventEnd(s, 0) == Some(e) && OverByLf(s[..e])
    ensures NotTooLarge(Outputs(mode, HalfWay(s[..e - 1], later)))
  {
    var st := HalfWay(s[..e - 1], later);
    EventWithoutLf(s, e, 0);
    OutputsEvent(mode, st, e - 1);
    assert |st.bytes[..e - 1]| == e - 1 > 1;
  }

  /** A part over the limit is reported as incomplete. */
  lemma {:induction false} CutTooLong(mode: Mode, s: Bytes, e: nat, later: seq<SourceItem>)
    requires EventEnd(s, 0) == Some(e) && |Trim(s[..e])| > MAX_SSE_EVENT_BYTES + 1
    ensures NotTooLarge(Outputs(mode, HalfWay(s[..MAX_SSE_EVENT_BYTES + 1], later)))
  {
    NoEventInside(s, e, MAX_SSE_EVENT_BYTES + 1);
    OutputsQuiet(mode, HalfWay(s[..MAX_SSE_EVENT_BYTES + 1], later));
  }

  lemma CutInsideMatters(mode: Mode, s: Bytes, e: nat, later: seq<SourceItem>)
    requires EventEnd(s, 0) == Some(e) && Fragile(s[..e])
    ensures NotTooLarge(Outputs(mode, HalfWay(s[..CutInside(s[..e])], later)))
  {
    if OverByLf(s[..e]) { CutAfterCr(mode, s, e, later); } else { CutTooLong(mode, s, e, later); }
  }

  lemma {:induction false} CutBefore(mode: Mode, s: Bytes, later: seq<SourceItem>) returns (items: seq<Item>)
    requires ReachesFragile(mode, s)
    ensures NotTooLarge(items) && Outputs(mode, HalfWay(CutFront(mode, s), later)) == Before(mode, s) + items
    decreases |s|
  {
    var e := EventEnd(s, 0).value;
    if Fragile(s[..e]) {
      CutInsideMatters(mode, s, e, later);
      items := Outputs(mode, HalfWay(CutFront(mode, s), later));
    } else {
      items := CutBefore(mode, s[e..], later);
      FrontStep(mode, s, e, CutFront(mode, s[e..]), later);
      ItemsCons(Ok(s[..e]), Before(mode, s[e..]), items);
    }
  }

  // ---------- what is seen ----------

  lemma SeenCons(first: Seen, p: seq<Seen>, q: seq<Seen>)
    requires p != q
    ensures [first] + p != [first] + q
  {
    assert ([first] + p)[1..] == p && ([first] + q)[1..] == q;
  }

  lemma ViewFirst(items: seq<Item>, afterCr: bool)
    requires NotTooLarge(items)
    ensures View(items, afterCr) != [Ended(Other)]
  {
    if items[0].Ok? {
      assert items == [Ok(items[0].bytes)] + items[1..];
      ViewOk(items[0].bytes, items[1..], afterCr);
      assert View(items, afterCr)[0].Event?;
    } else {
      assert View(items, afterCr)[0] == Ended(items[0].error.Kind());
    }
  }

  /** After the same items, anything else than that error is seen differently. */
  lemma {:induction false} ViewsDiffer(first: seq<Item>, items: seq<Item>, afterCr: bool)
    requires NotTooLarge(items) && forall i | 0 <= i < |first| :: first[i].Ok?
    ensures View(first + items, afterCr) != View(first + [Err(EventTooLarge)], afterCr)
    decreases |first|
  {
    var last := [Err(EventTooLarge)];
    if first == [] {
      assert first + items == items && first + last == last;
      ViewFirst(items, afterCr);
    } else {
      var event, rest := first[0].bytes, first[1..];
      assert first + items == [Ok(event)] + (rest + items) && first + last == [Ok(event)] + (rest + last);
      ViewOk(event, rest + items, afterCr);
      ViewOk(event, rest + last, afterCr);
      if afterCr && event == [LF] {
        ViewsDiffer(rest, items, false);
      } else {
        ViewsDiffer(rest, items, EndsWithCr(event));
        SeenCons(Event(Trim(event)), View(rest + items, EndsWithCr(event)), View(rest + last, EndsWithCr(event)));
      }
    }
  }

  // ---------- the cut ----------

  /** Two chunks, cut inside the fragile event. */
  function CutSource(mode: Mode, s: Bytes, failure: Option<ErrorKind>): seq<SourceItem>
    requires ReachesFragile(mode, s)
  {
    var p := CutFront(mode, s);
    [Chunk(p)] + ([Chunk(s[|p|..])] + Ending(failure))
  }

  lemma EndingIs(failure: Option<ErrorKind>)
    ensures Chunks(Ending(failure)) == [] && Failure(Ending(failure)) == failure
  {
  }

  lemma ChunkFirst(p: Bytes, source: seq<SourceItem>)
    ensures ([Chunk(p)] + source)[1..] == source
    ensures Chunks([Chunk(p)] + source) == [p] + Chunks(source)
    ensures Failure([Chunk(p)] + source) == Failure(source)
    ensures Join(Chunks([Chunk(p)] + source)) == p + Join(Chunks(source))
  {
    assert ([Chunk(p)] + source)[1..] == source;
    JoinCons(p, Chunks(source));
  }

  lemma TwoChunks(s: Bytes, p: Bytes, failure: Option<ErrorKind>)
    requires p <= s
    ensures
      var source := [Chunk(p)] + ([Chunk(s[|p|..])] + Ending(failure));
      Join(Chunks(source)) == s && Failure(source) == failure
  {
    EndingIs(failure);
    ChunkFirst(s[|p|..], Ending(failure));
    ChunkFirst(p, [Chunk(s[|p|..])] + Ending(failure));
    assert p + (s[|p|..] + []) == s;
  }

  lemma {:induction false} FirstPoll(mode: Mode, p: Bytes, later: seq<SourceItem>)
    ensures Outputs(mode, Initial([Chunk(p)] + later)) == Outputs(mode, HalfWay(p, later))
  {
    ChunkFirst(p, later);
    OutputsQuiet(mode, Initial([Chunk(p)] + later));
    EmptyConcat(p);
  }

  /** If a fragile event is reached, the cut inside it changes what is seen. */
  lemma CutDiffers(mode: Mode, s: Bytes, failure: Option<ErrorKind>)
    requires ReachesFragile(mode, s)
    ensures
      var source := CutSource(mode, s, failure);
      Join(Chunks(source)) == s && Failure(source) == failure && !LooksWhole(mode, source)
  {
    var p := CutFront(mode, s);
    var later := [Chunk(s[|p|..])] + Ending(failure);
    TwoChunks(s, p, failure);
    FirstPoll(mode, p, later);
    var items := CutBefore(mode, s, later);
    BeforeIsOk(mode, s);
    ViewsDiffer(Before(mode, s), items, false);
    WholeBefore(mode, s, failure);
    WholeIsReference(mode, s, failure);
  }

  /** For every byte string and every way the upstream can end: what comes out is seen the same for
      all cuttings of the string into chunks if and only if no fragile event is reached. */
  lemma StreamChunkInvariance(mode: Mode, s: Bytes, failure: Option<ErrorKind>)
    requires mode.Valid()
    ensures
      (forall source | Join(Chunks(source)) == s && Failure(source) == failure :: LooksWhole(mode, source))
      <==> !ReachesFragile(mode, s)
  {
    if ReachesFragile(mode, s) {
      CutDiffers(mode, s, failure);
    } else {
      forall source | Join(Chunks(source)) == s && Failure(source) == failure ensures LooksWhole(mode, source) {
        AgreementHolds(mode, source);
      }
    }
  }

  // ---------- one chunk ----------

  lemma {:induction false} OneChunkLeft(mode: Mode, st: State, failure: Option<ErrorKind>)
    requires !st.eof && st.pendingError.None? && (st.pendingLf ==> st.bytes == [])
    requires st.source == Ending(failure)
    ensures Outputs(mode, st) == Whole(mode, st.bytes, failure)
    decreases |st.bytes|
  {
    match EventEnd(st.bytes, 0)
    case Some(e) =>
      OutputsEvent(mode, st, e);
      if e <= MAX_SSE_EVENT_BYTES && !mode.Stops(st.bytes[..e]) {
        OneChunkLeft(mode, st.(bytes := st.bytes[e..], pendingLf := e == |st.bytes| && st.bytes[e - 1] == CR), failure);
      }
    case None =>
      OutputsQuiet(mode, st);
      var st' := st.(pendingLf := Take(st.bytes, st.pendingLf, false).pendingLf);
      if Conclusion(mode, st').None? {
        OutputsAtEof(mode, Poll(st'));
      }
  }

  /** A string received as one chunk gives its framed events up to the first one that is too large
      or terminal, and then the ending. */
  lemma OneChunkIsReference(mode: Mode, s: Bytes, failure: Option<ErrorKind>)
    ensures Outputs(mode, Initial([Chunk(s)] + Ending(failure))) == Reference(mode, s, failure)
  {
    FirstPoll(mode, s, Ending(failure));
    OneChunkLeft(mode, HalfWay(s, Ending(failure)), failure);
    WholeIsReference(mode, s, failure);
  }

  // ---------- witnesses ----------

  /** Text, an LF and an empty line ended by CRLF: over the limit by its last byte. */
  function OverLimit(): Bytes {
    seq(MAX_SSE_EVENT_BYTES - 2, i => 120) + [LF, CR, LF]
  }

  /** Text over the limit, and two LF. */
  function TooLong(): Bytes {
    seq(MAX_SSE_EVENT_BYTES + 1, i => 120) + [LF, LF]
  }

  lemma OverLimitIsFragile(mode: Mode)
    ensures ReachesFragile(mode, OverLimit())
  {
    var s := OverLimit();
    var n := MAX_SSE_EVENT_BYTES - 2;
    TextEndIs(s, 0, n);
    TextEndIs(s, n + 1, n + 1);
    assert EventEnd(s, n + 1) == Some(n + 3);
    assert EventEnd(s, 0) == Some(n + 3);
    assert s[..n + 3] == s;
  }

  lemma TooLongIsFragile(mode: Mode)
    ensures ReachesFragile(mode, TooLong())
  {
    var s := TooLong();
    var n := MAX_SSE_EVENT_BYTES + 1;
    TextEndIs(s, 0, n);
    TextEndIs(s, n + 1, n + 1);
    assert EventEnd(s, n + 1) == Some(n + 2);
    assert EventEnd(s, 0) == Some(n + 2);
    assert s[..n + 2] == s;
  }

  /** Two sources with the same bytes that come out differently, for each kind of fragile event. */
  lemma FragileDepends(mode: Mode, s: Bytes)
    requires s == OverLimit() || s == TooLong()
    ensures ReachesFragile(mode, s)
    ensures
      var cut, whole := CutSource(mode, s, None), [Chunk(s)] + Ending(None);
      && Join(Chunks(cut)) == s == Join(Chunks(whole))
      && View(Outputs(mode, Initial(cut)), false) != View(Outputs(mode, Initial(whole)), false)
  {
    OverLimitIsFragile(mode);
    TooLongIsFragile(mode);
    SourcesDiffer(mode, s, None);
  }

  lemma SourcesDiffer(mode: Mode, s: Bytes, failure: Option<ErrorKind>)
    requires ReachesFragile(mode, s)
    ensures
      var cut, whole := CutSource(mode, s, failure), [Chunk(s)] + Ending(failure);
      && Join(Chunks(cut)) == s == Join(Chunks(whole)) && Failure(cut) == failure == Failure(whole)
      && View(Outputs(mode, Initial(cut)), false) != View(Outputs(mode, Initial(whole)), false)
  {
    CutDiffers(mode, s, failure);
    OneChunkIsReference(mode, s, failure);
    EndingIs(failure);
    ChunkFirst(s, Ending(failure));
    assert s + [] == s;
  }
}
