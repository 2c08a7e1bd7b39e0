/** Chunk invariance of the whole stream: which events come out, and which kind of error ends it,
    depends only on the bytes received and on how the upstream ended, not on how the bytes were
    cut -- exactly when no event that is reached is over the size limit by just the LF of its CRLF
    or so long that a part of it without its end is already over the limit. */
module SseStreamAgreement {
  import opened SseSpec
  import opened Wrappers
  import opened SseFrameBuffer
  import opened SseChunking
  import opened SseFrameStream
  import opened SseStreamSafety

  // ---------- the reference ----------

  /** Hand out events until one is too large or terminal. */
  function Emit(mode: Mode, events: seq<Bytes>, final: seq<Item>): seq<Item> {
    if events == [] then final
    else if |events[0]| > MAX_SSE_EVENT_BYTES then [Err(EventTooLarge)]
    else if mode.Stops(events[0]) then [Ok(events[0])]
    else [Ok(events[0])] + Emit(mode, events[1..], final)
  }

  function Final(mode: Mode, rest: Bytes, failure: Option<ErrorKind>): seq<Item> {
    if |rest| > MAX_SSE_EVENT_BYTES then [Err(IncompleteEvent)]
    else if failure.Some? then [Err(Transport(failure.value))]
    else if rest != [] then [Err(IncompleteEvent)]
    else if mode.requireTerminal then [Err(CompletionMissing)]
    else []
  }

  /** The stream of a byte string received whole. */
  function Reference(mode: Mode, s: Bytes, failure: Option<ErrorKind>): seq<Item> {
    Emit(mode, Frame(s).events, Final(mode, Frame(s).rest, failure))
  }

  /** The same, taking one event at a time. */
  function Whole(mode: Mode, s: Bytes, failure: Option<ErrorKind>): seq<Item>
    decreases |s|
  {
    match EventEnd(s, 0)
    case None => Final(mode, s, failure)
    case Some(e) =>
      if e > MAX_SSE_EVENT_BYTES then [Err(EventTooLarge)]
      else if mode.Stops(s[..e]) then [Ok(s[..e])]
      else [Ok(s[..e])] + Whole(mode, s[e..], failure)
  }

  lemma EmitCons(mode: Mode, event: Bytes, events: seq<Bytes>, final: seq<Item>)
    ensures
      Emit(mode, [event] + events, final) ==
      if |event| > MAX_SSE_EVENT_BYTES then [Err(EventTooLarge)]
      else if mode.Stops(event) then [Ok(event)]
      else [Ok(event)] + Emit(mode, events, final)
  {
    assert ([event] + events)[1..] == events;
  }

  lemma {:induction false} WholeIsEmit(mode: Mode, s: Bytes, failure: Option<ErrorKind>)
    ensures Whole(mode, s, failure) == Emit(mode, Split(s).events, Final(mode, Split(s).rest, failure))
    decreases |s|
  {
    match EventEnd(s, 0)
    case None =>
    case Some(e) =>
      var f := Split(s[e..]);
      WholeIsEmit(mode, s[e..], failure);
      EmitCons(mode, s[..e], f.events, Final(mode, f.rest, failure));
  }

  lemma WholeIsReference(mode: Mode, s: Bytes, failure: Option<ErrorKind>)
    ensures Whole(mode, s, failure) == Reference(mode, s, failure)
  {
    SplitIsFrame(s);
    WholeIsEmit(mode, s, failure);
  }

  // ---------- what a client sees ----------

  /** Errors are told apart by their kind, which decides what the client is told. */
  datatype Seen = Event(text: Bytes) | Ended(kind: ErrorKind)

  /** An event without the LF of the CRLF that ends it. */
  function Trim(event: Bytes): Bytes {
    if |event| >= 2 && event[|event| - 2] == CR && event[|event| - 1] == LF
    then event[..|event| - 1] else event
  }

  /** A client's view: the LF of a CRLF that ends an event is ignored, on its own or not. */
  function View(items: seq<Item>, afterCr: bool): seq<Seen> {
    if items == [] then []
    else match items[0]
      case Err(error) => [Ended(error.Kind())]
      case Ok(event) =>
        if afterCr && event == [LF] then View(items[1..], false)
        else [Event(Trim(event))] + View(items[1..], EndsWithCr(event))
  }

  lemma ViewOk(event: Bytes, items: seq<Item>, afterCr: bool)
    ensures
      View([Ok(event)] + items, afterCr) ==
      if afterCr && event == [LF] then View(items, false)
      else [Event(Trim(event))] + View(items, EndsWithCr(event))
  {
    assert ([Ok(event)] + items)[1..] == items;
  }

  // ---------- the LF of a split CRLF ----------

  lemma {:induction false} NormaliseDropsLf(s: Bytes)
    requires EndsWithCr(s)
    ensures Normalise(s + [LF]) == Normalise(s)
    decreases |s|
  {
    var u := s + [LF];
    assert |s| >= 2 ==> u[1] == s[1];
    if s[0] == CR && |s| >= 2 && s[1] == LF {
      assert u[2..] == s[2..] + [LF];
      NormaliseDropsLf(s[2..]);
    } else if |s| == 1 {
      assert u[2..] == [] && s[1..] == [];
    } else {
      assert u[1..] == s[1..] + [LF];
      NormaliseDropsLf(s[1..]);
    }
  }

  lemma StopsDropsLf(mode: Mode, event: Bytes)
    requires EndsWithCr(event)
    ensures mode.Stops(event + [LF]) == mode.Stops(event)
    ensures Trim(event + [LF]) == Trim(event) == event
  {
    NormaliseDropsLf(event);
  }

  lemma LoneLf(mode: Mode)
    requires mode.Valid()
    ensures !mode.Stops([LF])
  {
    assert Normalise([LF]) == [LF];
  }

  // ---------- agreement ----------

  /** The event is over the limit only by the LF of its CRLF. */
  predicate OverByLf(event: Bytes) {
    |event| == MAX_SSE_EVENT_BYTES + 1 && event[|event| - 2] == CR && event[|event| - 1] == LF
  }

  /** Whether a cut inside the event can change how it is treated: without its LF it may fit, or a
      part of it without its end may already be too long. */
  predicate Fragile(event: Bytes) {
    OverByLf(event) || |Trim(event)| > MAX_SSE_EVENT_BYTES + 1
  }

  /** A fragile event is reached. */
  predicate ReachesFragile(mode: Mode, s: Bytes)
    decreases |s|
  {
    match EventEnd(s, 0)
    case None => false
    case Some(e) =>
      || Fragile(s[..e])
      || (e <= MAX_SSE_EVENT_BYTES && !mode.Stops(s[..e]) && ReachesFragile(mode, s[e..]))
  }

  /** The bytes still to be framed, when an LF may belong to an event already handed out. */
  function Pending(pendingLf: bool, s: Bytes): Bytes {
    if pendingLf && StartsWithLf(s) then s[1..] else s
  }

  // ---------- prefixes of an event ----------

  lemma {:induction false} TextEndOfPrefix(s: Bytes, k: nat, from: nat)
    requires from <= k <= |s| && TextEnd(s, from) < k
    ensures TextEnd(s[..k], from) == TextEnd(s, from)
  {
    var n := TextEnd(s, from);
    forall i | from <= i < n ensures !IsTerminator(s[..k][i]) {
      TextBeforeEnd(s, from, i);
    }
    TextEndIs(s[..k], from, n);
  }

  /** Cutting off the LF of an event's final CRLF leaves a complete event. */
  lemma {:induction false} EventWithoutLf(s: Bytes, e: nat, lineStart: nat)
    requires lineStart <= |s| && EventEnd(s, lineStart) == Some(e)
    requires lineStart + 2 <= e && s[e - 2] == CR && s[e - 1] == LF
    ensures EventEnd(s[..e - 1], lineStart) == Some(e - 1)
    decreases |s| - lineStart
  {
    var n := TextEnd(s, lineStart);
    var a := AfterEnding(s, n);
    if n != lineStart {
      CrlfNotSplit(s, e, a);
      EventWithoutLf(s, e, a);
    }
    TextEndOfPrefix(s, e - 1, lineStart);
    EndingOfPrefix(s, e - 1, n);
  }

  lemma EndingOfPrefix(s: Bytes, k: nat, n: nat)
    requires n < k <= |s| && IsTerminator(s[n])
    ensures AfterEnding(s[..k], n) == if AfterEnding(s, n) <= k then AfterEnding(s, n) else k
  {
  }

  /** The line that closes an event holds the whole of its ending. */
  lemma {:induction false} CrlfNotSplit(s: Bytes, e: nat, lineStart: nat)
    requires 0 < lineStart <= |s| && EventEnd(s, lineStart) == Some(e)
    requires s[e - 2] == CR && s[e - 1] == LF
    requires s[lineStart - 1] == CR ==> lineStart == |s| || s[lineStart] != LF
    ensures lineStart + 2 <= e
  {
  }

  lemma {:induction false} EventOfPrefix(s: Bytes, e: nat, k: nat)
    requires EventEnd(s, 0) == Some(e) && e <= k <= |s|
    ensures EventEnd(s[..k], 0) == Some(e)
  {
    assert s[..k] + s[k..] == s;
    if EventEnd(s[..k], 0) == None {
      NoEarlierEvent(s[..k], s[k..], 0);
    } else {
      EventEndExtends(s[..k], s[k..], 0);
    }
  }

  /** A part of an event that does not hold its end is not an event. */
  lemma NoEventInside(s: Bytes, e: nat, k: nat)
    requires EventEnd(s, 0) == Some(e) && k < |Trim(s[..e])|
    ensures EventEnd(s[..k], 0) == None
  {
    assert s[..k] + s[k..] == s;
    if EventEnd(s[..k], 0).Some? {
      EventEndExtends(s[..k], s[k..], 0);
    }
  }

  /** Without an event, more bytes than the limit end in an incomplete event whatever follows,
      unless the event they belong to is fragile. */
  lemma {:induction false} TooLongAlready(mode: Mode, s: Bytes, t: Bytes)
    requires EventEnd(s, 0) == None && |s| > MAX_SSE_EVENT_BYTES && !ReachesFragile(mode, s + t)
    ensures EventEnd(s + t, 0) == None
  {
    assert (s + t)[..|s|] == s;
    if EventEnd(s + t, 0).Some? {
      var e := EventEnd(s + t, 0).value;
      NoEarlierEvent(s, t, 0);
      var event := (s + t)[..e];
      if Trim(event) != event && e - 1 == |s| {
        EventWithoutLf(s + t, e, 0);
      }
    }
  }

  // ---------- one event ----------

  /** Bytes that do not start with LF look the same whether or not a CR came before them. */
  lemma {:induction false} ViewWhole(mode: Mode, s: Bytes, failure: Option<ErrorKind>, afterCr: bool)
    requires !StartsWithLf(s)
    ensures View(Whole(mode, s, failure), afterCr) == View(Whole(mode, s, failure), false)
  {
    match EventEnd(s, 0)
    case None =>
    case Some(e) =>
      assert s[..e] != [LF];
      if e <= MAX_SSE_EVENT_BYTES {
        if mode.Stops(s[..e]) {
          assert [Ok(s[..e])] == [Ok(s[..e])] + [];
          ViewOk(s[..e], [], afterCr);
          ViewOk(s[..e], [], false);
        } else {
          ViewOk(s[..e], Whole(mode, s[e..], failure), afterCr);
          ViewOk(s[..e], Whole(mode, s[e..], failure), false);
        }
      }
  }

  lemma ViewOnly(event: Bytes, afterCr: bool)
    requires !(afterCr && event == [LF])
    ensures View([Ok(event)], afterCr) == [Event(Trim(event))]
  {
    assert [Ok(event)] == [Ok(event)] + [];
    ViewOk(event, [], afterCr);
  }

  /** `event` was cut from the bytes so far where the whole string has the event `whole`. */
  ghost predicate SameEvent(mode: Mode, event: Bytes, whole: Bytes) {
    && Trim(whole) == Trim(event)
    && mode.Stops(whole) == mode.Stops(event)
    && (|whole| > MAX_SSE_EVENT_BYTES <==> |event| > MAX_SSE_EVENT_BYTES)
  }

  lemma SameEventSplit(mode: Mode, event: Bytes)
    requires EndsWithCr(event) && !OverByLf(event + [LF])
    ensures SameEvent(mode, event, event + [LF])
  {
    StopsDropsLf(mode, event);
  }

  lemma {:induction false} ReachesFirst(mode: Mode, s: Bytes, e: nat)
    requires EventEnd(s, 0) == Some(e) && !ReachesFragile(mode, s)
    ensures !Fragile(s[..e])
    ensures e <= MAX_SSE_EVENT_BYTES && !mode.Stops(s[..e]) ==> !ReachesFragile(mode, s[e..])
  {
  }

  /** Where the event at the front of `s` ends once `t` has followed, and what comes after it. */
  lemma {:induction false} FrontEvent(mode: Mode, s: Bytes, t: Bytes, e: nat) returns (e': nat)
    requires EventEnd(s, 0) == Some(e)
    requires !ReachesFragile(mode, s + t)
    ensures EventEnd(s + t, 0) == Some(e')
    ensures SameEvent(mode, s[..e], (s + t)[..e'])
    ensures (s + t)[e'..] == Pending(e == |s| && s[e - 1] == CR, s[e..] + t)
  {
    EventEndExtends(s, t, 0);
    if e == |s| && SplitsCrlf(s, t) {
      e' := e + 1;
      SplitLfSlices(s, t);
      ReachesFirst(mode, s + t, e');
      SameEventSplit(mode, s);
      EmptyConcat(t);
    } else {
      e' := e;
      PrefixSlices(s, t, e);
      if e == |s| {
        EmptyConcat(t);
        assert s[e..] == [];
      }
    }
  }

  lemma EmptyConcat(t: Bytes)
    ensures [] + t == t
  {
  }

  lemma {:induction false} WholeStep(mode: Mode, s: Bytes, e: nat, failure: Option<ErrorKind>)
    requires EventEnd(s, 0) == Some(e) && e <= MAX_SSE_EVENT_BYTES && !mode.Stops(s[..e])
    ensures View(Whole(mode, s, failure), false) ==
            [Event(Trim(s[..e]))] + View(Whole(mode, s[e..], failure), false)
  {
    EventEndsWith(s, e);
    ViewOk(s[..e], Whole(mode, s[e..], failure), false);
    if EndsWithCr(s[..e]) {
      ViewWhole(mode, s[e..], failure, true);
    }
  }

  /** Bytes received and to come, as far as they are not part of an event handed out. */
  function Unframed(st: State): Bytes {
    Pending(st.pendingLf, st.bytes + Join(Chunks(st.source)))
  }

  /** Whether an LF at the front would be seen as the end of a CRLF. */
  predicate FlagFits(st: State, afterCr: bool) {
    && (st.pendingLf ==> afterCr)
    && (afterCr && !st.pendingLf ==> st.bytes != [] && !StartsWithLf(st.bytes))
  }

  lemma {:induction false} Agree(mode: Mode, st: State, afterCr: bool)
    requires mode.Valid() && !st.eof && st.pendingError.None? && FlagFits(st, afterCr)
    requires !ReachesFragile(mode, Unframed(st))
    ensures
      View(Outputs(mode, st), afterCr) ==
      View(Whole(mode, Unframed(st), Failure(st.source)), false)
    decreases |st.source|, |st.bytes|, 1
  {
    var t := Take(st.bytes, st.pendingLf, false);
    match t.piece
    case Some(event) =>
      if st.pendingLf && StartsWithLf(st.bytes) {
        AgreeLoneLf(mode, st, afterCr);
      } else {
        AgreeEvent(mode, st, afterCr, |event|);
      }
    case None => AgreeQuiet(mode, st, afterCr);
  }

  lemma {:induction false} AgreeLoneLf(mode: Mode, st: State, afterCr: bool)
    requires mode.Valid() && !st.eof && st.pendingError.None? && FlagFits(st, afterCr)
    requires !ReachesFragile(mode, Unframed(st))
    requires st.pendingLf && StartsWithLf(st.bytes)
    ensures
      View(Outputs(mode, st), afterCr) ==
      View(Whole(mode, Unframed(st), Failure(st.source)), false)
    decreases |st.source|, |st.bytes|, 0
  {
    var st' := st.(bytes := st.bytes[1..], pendingLf := false);
    LoneLf(mode);
    ViewOk([LF], Outputs(mode, st'), afterCr);
    PrefixSlices(st.bytes, Join(Chunks(st.source)), 1);
    Agree(mode, st', false);
  }

  lemma {:induction false} AgreeEvent(mode: Mode, st: State, afterCr: bool, e: nat)
    requires mode.Valid() && !st.eof && st.pendingError.None? && FlagFits(st, afterCr)
    requires !ReachesFragile(mode, Unframed(st))
    requires st.pendingLf ==> !StartsWithLf(st.bytes)
    requires EventEnd(st.bytes, 0) == Some(e)
    ensures
      View(Outputs(mode, st), afterCr) ==
      View(Whole(mode, Unframed(st), Failure(st.source)), false)
    decreases |st.source|, |st.bytes|, 0
  {
    var s, t := st.bytes, Join(Chunks(st.source));
    var e' := FrontEvent(mode, s, t, e);
    EventEndsWith(s, e);
    assert Unframed(st) == s + t;
    var st' := st.(bytes := s[e..], pendingLf := e == |s| && s[e - 1] == CR);
    OutputsEvent(mode, st, e);
    if e > MAX_SSE_EVENT_BYTES {
      assert Whole(mode, s + t, Failure(st.source)) == [Err(EventTooLarge)];
    } else if mode.Stops(s[..e]) {
      ViewOnly(s[..e], afterCr);
      ViewOnly((s + t)[..e'], false);
      assert Whole(mode, s + t, Failure(st.source)) == [Ok((s + t)[..e'])];
    } else {
      ReachesFirst(mode, s + t, e');
      AgreeAfterEvent(mode, st', s[..e], afterCr, s + t, e');
    }
  }

  lemma {:induction false} OutputsEvent(mode: Mode, st: State, e: nat)
    requires !st.eof && (st.pendingLf ==> !StartsWithLf(st.bytes))
    requires EventEnd(st.bytes, 0) == Some(e)
    ensures
      var st' := st.(bytes := st.bytes[e..], pendingLf := e == |st.bytes| && st.bytes[e - 1] == CR);
      Outputs(mode, st) ==
      if e > MAX_SSE_EVENT_BYTES then [Err(EventTooLarge)]
      else if mode.Stops(st.bytes[..e]) then [Ok(st.bytes[..e])]
      else [Ok(st.bytes[..e])] + Outputs(mode, st')
  {
  }

  lemma {:induction false} AgreeAfterEvent(
    mode: Mode, st: State, event: Bytes, afterCr: bool, whole: Bytes, e: nat)
    requires mode.Valid() && !st.eof && st.pendingError.None? && FlagFits(st, EndsWithCr(event))
    requires !(afterCr && event == [LF])
    requires EventEnd(whole, 0) == Some(e) && e <= MAX_SSE_EVENT_BYTES && !mode.Stops(whole[..e])
    requires SameEvent(mode, event, whole[..e]) && whole[e..] == Unframed(st)
    requires !ReachesFragile(mode, whole[e..])
    ensures
      View([Ok(event)] + Outputs(mode, st), afterCr) ==
      View(Whole(mode, whole, Failure(st.source)), false)
    decreases |st.source|, |st.bytes|, 2
  {
    ViewOk(event, Outputs(mode, st), afterCr);
    WholeStep(mode, whole, e, Failure(st.source));
    Agree(mode, st, EndsWithCr(event));
  }

  lemma {:induction false} AgreeQuiet(mode: Mode, st: State, afterCr: bool)
    requires mode.Valid() && !st.eof && st.pendingError.None? && FlagFits(st, afterCr)
    requires !ReachesFragile(mode, Unframed(st))
    requires Take(st.bytes, st.pendingLf, false).piece.None?
    ensures
      View(Outputs(mode, st), afterCr) ==
      View(Whole(mode, Unframed(st), Failure(st.source)), false)
    decreases |st.source|, |st.bytes|, 0
  {
    var t := Take(st.bytes, st.pendingLf, false);
    var st' := Poll(st.(pendingLf := t.pendingLf));
    QuietState(st.bytes, st.pendingLf);
    if |st.bytes| > MAX_SSE_EVENT_BYTES {
      TooLongAlready(mode, st.bytes, Join(Chunks(st.source)));
    } else if st.source != [] && st.source[0].Chunk? {
      UnframedPoll(st);
      Agree(mode, st', afterCr);
    } else {
      OutputsAtEof(mode, st');
      assert st.bytes + [] == st.bytes;
    }
  }

  lemma UnframedPoll(st: State)
    requires !st.eof && Take(st.bytes, st.pendingLf, false).piece.None?
    requires st.source != [] && st.source[0].Chunk?
    ensures Unframed(Poll(st.(pendingLf := Take(st.bytes, st.pendingLf, false).pendingLf))) == Unframed(st)
  {
    JoinCons(st.source[0].bytes, Chunks(st.source[1..]));
    BytesAssoc(st.bytes, st.source[0].bytes, Join(Chunks(st.source[1..])));
  }

  /** The stream of a trace looks like the stream of the whole byte string. */
  ghost predicate LooksWhole(mode: Mode, source: seq<SourceItem>) {
    View(Outputs(mode, Initial(source)), false) ==
    View(Reference(mode, Join(Chunks(source)), Failure(source)), false)
  }

  lemma AgreementHolds(mode: Mode, source: seq<SourceItem>)
    requires mode.Valid() && !ReachesFragile(mode, Join(Chunks(source)))
    ensures LooksWhole(mode, source)
  {
    assert [] + Join(Chunks(source)) == Join(Chunks(source));
    Agree(mode, Initial(source), false);
    WholeIsReference(mode, Join(Chunks(source)), Failure(source));
  }
}
