/** What the framing stream hands out, item by item, for every upstream trace; and what reaches the
    check for terminal events. */
module SseStreamExact {
  import opened SseSpec
  import opened Wrappers
  import opened SseFrameBuffer
  import opened SseChunking
  import opened SseFrameStream
  import opened SseStreamSafety
  import opened SseStreamAgreement

  // ---------- normalised text ----------

  /** The lines of a text, each ended by LF, and the unterminated tail. */
  function Flat(lines: seq<Line>, tail: Bytes): Bytes {
    if lines == [] then tail else lines[0].text + [LF] + Flat(lines[1..], tail)
  }

  lemma {:induction false} NormaliseText(s: Bytes, n: nat)
    requires n <= |s| && forall i | 0 <= i < n :: !IsTerminator(s[i])
    ensures Normalise(s) == s[..n] + Normalise(s[n..])
    decreases n
  {
    if n == 0 {
      assert s[0..] == s;
    } else {
      NormaliseText(s[1..], n - 1);
      assert s[1..][n - 1..] == s[n..] && [s[0]] + s[1..][..n - 1] == s[..n];
      TextCons(s[0], s[1..][..n - 1], Normalise(s[n..]));
    }
  }

  lemma TextCons(b: byte, text: Bytes, rest: Bytes)
    ensures [b] + (text + rest) == [b] + text + rest
  {
  }

  lemma NormaliseEnding(s: Bytes, n: nat, e: nat)
    requires n < |s| && IsTerminator(s[n]) && e == AfterEnding(s, n)
    ensures Normalise(s[n..]) == [LF] + Normalise(s[e..])
  {
    var u := s[n..];
    assert u[1..] == s[n + 1..];
    if e == n + 2 { assert u[2..] == s[e..]; }
  }

  /** Before an event is inspected, its lines are ended by LF whatever ended them. */
  lemma {:induction false} NormaliseIsLines(s: Bytes)
    ensures Normalise(s) == Flat(Lines(s).lines, Lines(s).tail)
    ensures CR !in Normalise(s)
    decreases |s|
  {
    var n := TextEnd(s, 0);
    forall i | 0 <= i < n ensures !IsTerminator(s[i]) { TextBeforeEnd(s, 0, i); }
    NormaliseText(s, n);
    if n < |s| {
      var e := AfterEnding(s, n);
      NormaliseEnding(s, n, e);
      NormaliseIsLines(s[e..]);
      LinesUnfold(s, n, e);
      var line, rest := Line(s[..n], s[n..e]), Lines(s[e..]);
      assert ([line] + rest.lines)[1..] == rest.lines;
      assert s[..n] + ([LF] + Normalise(s[e..])) == s[..n] + [LF] + Normalise(s[e..]);
    } else {
      assert s[n..] == [] && s[..n] == s;
    }
  }

  // ---------- item by item ----------

  function AsOks(pieces: seq<Bytes>): (items: seq<Item>)
    ensures |items| == |pieces|
  {
    seq(|pieces|, i requires 0 <= i < |pieces| => Ok(pieces[i]))
  }

  lemma AsOksCons(piece: Bytes, pieces: seq<Bytes>, last: seq<Item>)
    ensures AsOks([piece] + pieces) + last == [Ok(piece)] + (AsOks(pieces) + last)
  {
  }

  /** The pieces before `i` are neither too large nor terminal. */
  ghost predicate ClearUpTo(mode: Mode, pieces: seq<Bytes>, i: nat)
    requires i <= |pieces|
  {
    forall j | 0 <= j < i :: Passes(mode, pieces[j])
  }

  /** The items of a stream whose scanner cuts `d.pieces`, of which the first `i` are clear. */
  ghost predicate Comes(mode: Mode, items: seq<Item>, d: Drained, failure: Option<ErrorKind>, i: nat)
    requires i <= |d.pieces|
  {
    var first := AsOks(d.pieces[..i]);
    if i < |d.pieces| then
      if |d.pieces[i]| > MAX_SSE_EVENT_BYTES then
        items == first + [Err(EventTooLarge)] || items == first + [Err(IncompleteEvent)]
      else
        mode.requireTerminal && mode.terminalText(Normalise(d.pieces[i])) ==> items == first + [Ok(d.pieces[i])]
    else if |d.bytes| > MAX_SSE_EVENT_BYTES then items == first + [Err(IncompleteEvent)]
    else if failure.Some? then items == first + [Err(Transport(failure.value))]
    else if d.bytes != [] then items == first + [Err(IncompleteEvent)]
    else if mode.requireTerminal then items == first + [Err(CompletionMissing)]
    else items == first
  }

  lemma ComesCons(mode: Mode, piece: Bytes, items: seq<Item>, d: Drained, failure: Option<ErrorKind>, i: nat)
    requires i <= |d.pieces| && Comes(mode, items, d, failure, i)
    ensures Comes(mode, [Ok(piece)] + items, d.After([piece]), failure, i + 1)
  {
    var all := d.After([piece]).pieces;
    assert all[..i + 1] == [piece] + d.pieces[..i];
    if i < |d.pieces| { assert all[i + 1] == d.pieces[i]; }
    var first := AsOks(d.pieces[..i]);
    forall last: seq<Item> ensures AsOks(all[..i + 1]) + last == [Ok(piece)] + (first + last) {
      AsOksCons(piece, d.pieces[..i], last);
    }
    assert first + [] == first;
    assert AsOks(all[..i + 1]) + [] == AsOks(all[..i + 1]);
  }

  lemma ClearCons(mode: Mode, piece: Bytes, pieces: seq<Bytes>, i: nat)
    requires 0 < i <= |pieces| + 1 && ClearUpTo(mode, [piece] + pieces, i)
    ensures Passes(mode, piece) && ClearUpTo(mode, pieces, i - 1)
  {
    var all := [piece] + pieces;
    assert all[0] == piece;
    forall j | 0 <= j < i - 1 ensures Passes(mode, pieces[j]) { assert all[j + 1] == pieces[j]; }
  }

  lemma {:induction false} OutputsCome(mode: Mode, st: State, i: nat)
    requires !st.eof && st.pendingError.None?
    requires i <= |AllDrained(st).pieces| && ClearUpTo(mode, AllDrained(st).pieces, i)
    ensures Comes(mode, Outputs(mode, st), AllDrained(st), Failure(st.source), i)
    decreases |st.source|, |st.bytes|, 1
  {
    var t := Take(st.bytes, st.pendingLf, false);
    match t.piece
    case Some(event) =>
      var st' := st.(bytes := t.bytes, pendingLf := t.pendingLf);
      AllDrainedTake(st, event);
      if i == 0 {
        FirstComes(mode, event, Outputs(mode, st), AllDrained(st'), Failure(st.source));
      } else {
        ClearCons(mode, event, AllDrained(st').pieces, i);
        OutputsCome(mode, st', i - 1);
        ComesCons(mode, event, Outputs(mode, st'), AllDrained(st'), Failure(st.source), i - 1);
      }
    case None => QuietCome(mode, st, i);
  }

  lemma FirstComes(mode: Mode, event: Bytes, items: seq<Item>, d: Drained, failure: Option<ErrorKind>)
    requires |event| > MAX_SSE_EVENT_BYTES ==> items == [Err(EventTooLarge)]
    requires
      |event| <= MAX_SSE_EVENT_BYTES && mode.requireTerminal && mode.terminalText(Normalise(event)) ==> items == [Ok(event)]
    ensures Comes(mode, items, d.After([event]), failure, 0)
  {
    var all := d.After([event]).pieces;
    assert all[0] == event && all[..0] == [];
  }

  lemma {:induction false} QuietCome(mode: Mode, st: State, i: nat)
    requires !st.eof && st.pendingError.None? && Take(st.bytes, st.pendingLf, false).piece.None?
    requires i <= |AllDrained(st).pieces| && ClearUpTo(mode, AllDrained(st).pieces, i)
    ensures Comes(mode, Outputs(mode, st), AllDrained(st), Failure(st.source), i)
    decreases |st.source|, |st.bytes|, 0
  {
    var st' := Poll(st.(pendingLf := Take(st.bytes, st.pendingLf, false).pendingLf));
    QuietState(st.bytes, st.pendingLf);
    if |st.bytes| > MAX_SSE_EVENT_BYTES {
      LongTail(mode, st.bytes, Chunks(st.source));
    } else if st.source != [] && st.source[0].Chunk? {
      AllDrainedPoll(st);
      OutputsCome(mode, st', i);
    } else {
      OutputsAtEof(mode, st');
      assert Chunks(st.source) == [];
    }
  }

  /** For every upstream trace, as far as the scanner's pieces are clear: the stream hands them out;
      then it ends with the first terminal piece, or with an error for a piece that is too large. If
      all pieces are clear it ends with an error for an oversized rest, with the upstream's own
      failure, with an error for an incomplete rest or a missing terminal event, or cleanly, in this
      order. */
  lemma StreamComes(mode: Mode, source: seq<SourceItem>, i: nat)
    requires i <= |Run(Chunks(source)).pieces| && ClearUpTo(mode, Run(Chunks(source)).pieces, i)
    ensures Comes(mode, Outputs(mode, Initial(source)), Run(Chunks(source)), Failure(source), i)
  {
    RunIsFeed(Chunks(source));
    OutputsCome(mode, Initial(source), i);
  }

  // ---------- terminal events of the whole string ----------

  /** The event is within the limit and has the text of a terminal one. */
  predicate EndsStream(mode: Mode, event: Bytes) {
    |event| <= MAX_SSE_EVENT_BYTES && mode.requireTerminal && mode.terminalText(Normalise(event))
  }

  lemma {:induction false} TerminalReached(mode: Mode, s: Bytes, failure: Option<ErrorKind>, i: nat)
    requires i < |Split(s).events| && ClearUpTo(mode, Split(s).events, i) && EndsStream(mode, Split(s).events[i])
    ensures !ReachesFragile(mode, s)
    ensures Whole(mode, s, failure) == AsOks(Split(s).events[..i + 1])
    decreases |s|
  {
    var e := EventEnd(s, 0).value;
    var events, rest := Split(s).events, Split(s[e..]).events;
    assert events == [s[..e]] + rest && events[0] == s[..e];
    if i == 0 {
      assert events[..1] == [s[..e]];
    } else {
      ClearCons(mode, s[..e], rest, i);
      TerminalReached(mode, s[e..], failure, i - 1);
      assert events[..i + 1] == [s[..e]] + rest[..i];
      AsOksCons(s[..e], rest[..i], []);
      assert AsOks(rest[..i]) + [] == AsOks(rest[..i]) && AsOks(events[..i + 1]) + [] == AsOks(events[..i + 1]);
    }
  }

  /** What is seen shows whether an error came. */
  lemma {:induction false} ViewShowsErrors(items: seq<Item>, afterCr: bool)
    ensures
      (forall i | 0 <= i < |items| :: items[i].Ok?) <==>
      (forall i | 0 <= i < |View(items, afterCr)| :: View(items, afterCr)[i].Event?)
    decreases |items|
  {
    if items != [] {
      var rest := items[1..];
      match items[0]
      case Err(error) =>
        assert View(items, afterCr)[0].Ended?;
      case Ok(event) =>
        assert items == [Ok(event)] + rest;
        ViewOk(event, rest, afterCr);
        if afterCr && event == [LF] {
          ViewShowsErrors(rest, false);
        } else {
          ViewShowsErrors(rest, EndsWithCr(event));
          EventsCons(Event(Trim(event)), View(rest, EndsWithCr(event)));
        }
        OksOnlyCons(items);
    }
  }

  lemma EventsCons(first: Seen, rest: seq<Seen>)
    requires first.Event?
    ensures
      (forall i | 0 <= i < |[first] + rest| :: ([first] + rest)[i].Event?) <==> forall i | 0 <= i < |rest| :: rest[i].Event?
  {
    forall i | 0 <= i < |rest| ensures ([first] + rest)[i + 1] == rest[i] {}
  }

  lemma OksOnlyCons(items: seq<Item>)
    requires items != [] && items[0].Ok?
    ensures (forall i | 0 <= i < |items| :: items[i].Ok?) <==> forall i | 0 <= i < |items[1..]| :: items[1..][i].Ok?
  {
    assert forall i | 1 <= i < |items| :: items[i] == items[1..][i - 1];
  }

  lemma {:induction false} ViewLast(items: seq<Item>, afterCr: bool)
    requires items != [] && (forall i | 0 <= i < |items| :: items[i].Ok?) && items[|items| - 1].bytes != [LF]
    ensures
      var view := View(items, afterCr);
      view != [] && view[|view| - 1] == Event(Trim(items[|items| - 1].bytes))
    decreases |items|
  {
    var event, rest := items[0].bytes, items[1..];
    assert items == [Ok(event)] + rest;
    ViewOk(event, rest, afterCr);
    if rest == [] {
      assert View(rest, EndsWithCr(event)) == [];
    } else {
      assert rest[|rest| - 1] == items[|items| - 1];
      ViewLast(rest, if afterCr && event == [LF] then false else EndsWithCr(event));
    }
  }

  lemma {:induction false} TerminalSeen(mode: Mode, items: seq<Item>, events: seq<Bytes>)
    requires mode.Valid() && mode.requireTerminal && events != []
    requires mode.terminalText(Normalise(events[|events| - 1]))
    requires Framed(mode, items) && View(items, false) == View(AsOks(events), false)
    ensures items != [] && forall k | 0 <= k < |items| :: items[k].Ok?
    ensures
      var last := items[|items| - 1].bytes;
      mode.terminalText(Normalise(last)) && Trim(last) == Trim(events[|events| - 1])
  {
    ViewShowsErrors(AsOks(events), false);
    ViewShowsErrors(items, false);
    LoneLf(mode);
    ViewLast(AsOks(events), false);
    ViewLast(items, false);
  }

  /** For every upstream trace: if the first framed event that is too large or terminal is a terminal
      one within the limit, the stream ends with it and without an error. */
  lemma TerminalEndsStream(mode: Mode, source: seq<SourceItem>, i: nat)
    requires mode.Valid()
    requires
      var events := Frame(Join(Chunks(source))).events;
      i < |events| && ClearUpTo(mode, events, i) && EndsStream(mode, events[i])
    ensures
      var items := Outputs(mode, Initial(source));
      && items != [] && (forall k | 0 <= k < |items| :: items[k].Ok?)
      && var last := items[|items| - 1].bytes;
         mode.terminalText(Normalise(last)) && Trim(last) == Trim(Frame(Join(Chunks(source))).events[i])
  {
    var s, failure := Join(Chunks(source)), Failure(source);
    SplitIsFrame(s);
    TerminalReached(mode, s, failure, i);
    AgreementHolds(mode, source);
    WholeIsReference(mode, s, failure);
    StreamShape(mode, source);
    TerminalSeen(mode, Outputs(mode, Initial(source)), Frame(s).events[..i + 1]);
  }
}
