/** Chunk invariance: however the stream is cut, the scanner hands out the events of the
    whole-string specification, once the LF of a split CRLF is glued back. */
module SseChunking {
  import opened SseSpec
  import opened Wrappers
  import opened SseFrameBuffer

  datatype Drained = Drained(pieces: seq<Bytes>, bytes: Bytes, pendingLf: bool) {
    function After(earlier: seq<Bytes>): Drained {
      Drained(earlier + pieces, bytes, pendingLf)
    }
  }

  /** Call `TakeEvent` until it returns nothing. */
  function Drain(bytes: Bytes, pendingLf: bool, eof: bool): (d: Drained)
    decreases |bytes|
  {
    var t := Take(bytes, pendingLf, eof);
    match t.piece
    case None => Drained([], t.bytes, t.pendingLf)
    case Some(piece) => Drain(t.bytes, t.pendingLf, eof).After([piece])
  }

  /** Append each chunk and drain, from a given state. */
  function Feed(chunks: seq<Bytes>, d: Drained): Drained
    decreases |chunks|
  {
    if chunks == [] then d
    else Feed(chunks[1..], Drain(d.bytes + chunks[0], d.pendingLf, false).After(d.pieces))
  }

  const EMPTY := Drained([], [], false)

  /** A whole run: feed every chunk, then drain once more at end of file. */
  function Run(chunks: seq<Bytes>): Drained {
    var d := Feed(chunks, EMPTY);
    Drain(d.bytes, d.pendingLf, true).After(d.pieces)
  }

  predicate EndsWithCr(s: Bytes) {
    s != [] && s[|s| - 1] == CR
  }

  predicate StartsWithLf(s: Bytes) {
    s != [] && s[0] == LF
  }

  /** The latest piece ended with CR. */
  predicate AfterCr(pieces: seq<Bytes>) {
    pieces != [] && EndsWithCr(pieces[|pieces| - 1])
  }

  /** Append LF to the latest piece. */
  function AddLf(pieces: seq<Bytes>): seq<Bytes>
    requires pieces != []
  {
    pieces[..|pieces| - 1] + [pieces[|pieces| - 1] + [LF]]
  }

  /** Glue a lone LF to a piece that ended with CR. */
  function GlueOne(pieces: seq<Bytes>, piece: Bytes): seq<Bytes> {
    if AfterCr(pieces) && piece == [LF] then AddLf(pieces) else pieces + [piece]
  }

  function GlueAll(glued: seq<Bytes>, pieces: seq<Bytes>): seq<Bytes>
    decreases |pieces|
  {
    if pieces == [] then glued else GlueAll(GlueOne(glued, pieces[0]), pieces[1..])
  }

  function Glue(pieces: seq<Bytes>): seq<Bytes> {
    GlueAll([], pieces)
  }

  // ---------- lists of pieces ----------

  lemma GlueCons(glued: seq<Bytes>, piece: Bytes, pieces: seq<Bytes>)
    ensures GlueAll(glued, [piece] + pieces) == GlueAll(GlueOne(glued, piece), pieces)
  {
    assert ([piece] + pieces)[1..] == pieces;
  }

  lemma SnocCons(p: seq<Bytes>, x: Bytes, q: seq<Bytes>)
    ensures p + [x] + q == p + ([x] + q)
  {
  }

  lemma {:induction false} GlueConcat(glued: seq<Bytes>, p: seq<Bytes>, q: seq<Bytes>)
    ensures GlueAll(glued, p + q) == GlueAll(GlueAll(glued, p), q)
    decreases |p|
  {
    if p == [] {
      assert p + q == q;
    } else {
      assert (p + q)[1..] == p[1..] + q;
      GlueConcat(GlueOne(glued, p[0]), p[1..], q);
    }
  }

  // ---------- one drain ----------

  /** The last event ended with a CR that is also the last byte seen. */
  predicate OpenCr(f: Framing) {
    f.rest == [] && AfterCr(f.events)
  }

  lemma OpenCrCons(event: Bytes, f: Framing)
    ensures OpenCr(f.Cons(event)) == if f.events == [] then f.rest == [] && EndsWithCr(event) else OpenCr(f)
  {
    var events := f.Cons(event).events;
    assert events[|events| - 1] == if f.events == [] then event else f.events[|f.events| - 1];
  }

  lemma SplitEmpty()
    ensures Split([]) == Framing([], [])
  {
  }

  lemma {:induction false} EventEndsWith(s: Bytes, e: nat)
    requires EventEnd(s, 0) == Some(e)
    ensures EndsWithCr(s[..e]) <==> s[e - 1] == CR
    ensures EndsWithCr(s[..e]) ==> !StartsWithLf(s[e..])
  {
  }

  /** Without a pending LF, a drain takes exactly the events of the whole string. */
  lemma {:induction false} DrainFresh(s: Bytes, eof: bool)
    ensures Drain(s, false, eof) == Drained(Split(s).events, Split(s).rest, !eof && OpenCr(Split(s)))
    decreases |s|
  {
    match EventEnd(s, 0)
    case None =>
    case Some(e) =>
      EventEndsWith(s, e);
      OpenCrCons(s[..e], Split(s[e..]));
      if !eof && e == |s| && s[e - 1] == CR {
        SplitEmpty();
      } else {
        DrainFresh(s[e..], eof);
        if Split(s[e..]).events == [] && !eof {
          assert Split(s[e..]).rest == s[e..];
        }
      }
  }

  // ---------- appending to a framed string ----------

  /** The framing of a string after `t` is appended, from the framing before. */
  function Absorb(f: Framing, t: Bytes): Framing {
    if OpenCr(f) && StartsWithLf(t)
    then Framing(AddLf(f.events) + Split(t[1..]).events, Split(t[1..]).rest)
    else Framing(f.events + Split(f.rest + t).events, Split(f.rest + t).rest)
  }

  lemma AbsorbCons(event: Bytes, f: Framing, t: Bytes)
    requires f.events == [] && f.rest == [] ==> !EndsWithCr(event) || !StartsWithLf(t)
    ensures Absorb(f.Cons(event), t) == Absorb(f, t).Cons(event)
  {
    OpenCrCons(event, f);
    if OpenCr(f) && StartsWithLf(t) {
      AddLfCons(event, f.events);
      SnocCons([], event, AddLf(f.events) + Split(t[1..]).events);
      ConcatAssoc([event], AddLf(f.events), Split(t[1..]).events);
    } else {
      ConcatAssoc([event], f.events, Split(f.rest + t).events);
    }
  }

  lemma AddLfCons(event: Bytes, events: seq<Bytes>)
    requires events != []
    ensures AddLf([event] + events) == [event] + AddLf(events)
  {
  }

  lemma ConcatAssoc(p: seq<Bytes>, q: seq<Bytes>, r: seq<Bytes>)
    ensures p + q + r == p + (q + r)
  {
  }

  lemma AbsorbSplit(event: Bytes, t: Bytes)
    requires EndsWithCr(event) && StartsWithLf(t)
    ensures Absorb(Framing([event], []), t) == Split(t[1..]).Cons(event + [LF])
  {
    assert AddLf([event]) == [event + [LF]];
  }

  lemma AbsorbNone(t: Bytes, s: Bytes)
    ensures Absorb(Framing([], s), t) == Split(s + t)
  {
    assert [] + Split(s + t).events == Split(s + t).events;
  }

  lemma PrefixSlices(s: Bytes, t: Bytes, e: nat)
    requires e <= |s|
    ensures (s + t)[..e] == s[..e] && (s + t)[e..] == s[e..] + t
  {
  }

  lemma SplitLfSlices(s: Bytes, t: Bytes)
    requires StartsWithLf(t)
    ensures (s + t)[..|s| + 1] == s + [LF] && (s + t)[|s| + 1..] == t[1..]
    ensures s[..|s|] == s && s[|s|..] == []
  {
  }

  lemma {:induction false} SplitAppend(s: Bytes, t: Bytes)
    ensures Split(s + t) == Absorb(Split(s), t)
    decreases |s|
  {
    match EventEnd(s, 0)
    case None => AbsorbNone(t, s);
    case Some(e) =>
      EventEndExtends(s, t, 0);
      EventEndsWith(s, e);
      if e == |s| && SplitsCrlf(s, t) {
        SplitLfSlices(s, t);
        SplitEmpty();
        AbsorbSplit(s, t);
      } else {
        PrefixSlices(s, t, e);
        SplitAppend(s[e..], t);
        AbsorbCons(s[..e], Split(s[e..]), t);
      }
  }

  // ---------- gluing ----------

  /** The events of one string never need gluing to each other. */
  lemma {:induction false} GlueEvents(glued: seq<Bytes>, s: Bytes)
    requires AfterCr(glued) ==> !StartsWithLf(s)
    ensures GlueAll(glued, Split(s).events) == glued + Split(s).events
    decreases |s|
  {
    match EventEnd(s, 0)
    case None =>
    case Some(e) =>
      EventEndsWith(s, e);
      var events := Split(s[e..]).events;
      assert s[..e] == [LF] ==> StartsWithLf(s);
      GlueCons(glued, s[..e], events);
      GlueEvents(glued + [s[..e]], s[e..]);
      SnocCons(glued, s[..e], events);
  }

  // ---------- whole runs ----------

  /** What holds between chunks: gluing the pieces so far gives the events of the bytes so far. */
  ghost predicate Tracks(fed: Bytes, d: Drained) {
    && Split(fed) == Framing(Glue(d.pieces), d.bytes)
    && d.pendingLf == OpenCr(Framing(Glue(d.pieces), d.bytes))
  }

  /** A drain after more bytes `t` arrived, on the framing `f` of the bytes before them. */
  lemma {:induction false} DrainAbsorbs(f: Framing, t: Bytes)
    requires AfterCr(f.events) ==> !StartsWithLf(f.rest)
    ensures
      var next := Drain(f.rest + t, OpenCr(f), false);
      && Absorb(f, t) == Framing(GlueAll(f.events, next.pieces), next.bytes)
      && next.pendingLf == OpenCr(Absorb(f, t))
  {
    if OpenCr(f) {
      assert f.rest + t == t;
      if StartsWithLf(t) {
        DrainPendingLf(f.events, t);
      } else if t == [] {
        SplitEmpty();
        assert f.events + [] == f.events;
      } else {
        DrainNoLf(f, t);
      }
    } else {
      DrainNoLf(f, t);
    }
  }

  lemma {:induction false} DrainNoLf(f: Framing, t: Bytes)
    requires AfterCr(f.events) ==> !StartsWithLf(f.rest + t) && f.rest + t != []
    ensures
      var g := Split(f.rest + t);
      && GlueAll(f.events, g.events) == f.events + g.events
      && OpenCr(Framing(f.events + g.events, g.rest)) == OpenCr(g)
      && Drain(f.rest + t, false, false) == Drained(g.events, g.rest, OpenCr(g))
  {
    var g := Split(f.rest + t);
    GlueEvents(f.events, f.rest + t);
    DrainFresh(f.rest + t, false);
    AfterCrConcat(f.events, g.events);
    if g.events == [] {
      NoEvents(f.rest + t);
    }
  }

  lemma NoEvents(s: Bytes)
    requires Split(s).events == []
    ensures Split(s).rest == s
  {
  }

  lemma AfterCrConcat(p: seq<Bytes>, q: seq<Bytes>)
    ensures AfterCr(p + q) == if q == [] then AfterCr(p) else AfterCr(q)
  {
    assert q == [] ==> p + q == p;
  }

  lemma {:induction false} DrainPendingLf(events: seq<Bytes>, t: Bytes)
    requires AfterCr(events) && StartsWithLf(t)
    ensures
      var next := Drain(t, true, false);
      var g := Split(t[1..]);
      && AddLf(events) + g.events == GlueAll(events, next.pieces) && g.rest == next.bytes
      && next.pendingLf == OpenCr(Framing(AddLf(events) + g.events, g.rest))
  {
    var g := Split(t[1..]);
    DrainFresh(t[1..], false);
    GlueCons(events, [LF], g.events);
    GlueEvents(AddLf(events), t[1..]);
    AfterCrConcat(AddLf(events), g.events);
  }

  /** After an event that ended with CR, the unread bytes do not start with LF. */
  lemma {:induction false} RestAfterCr(s: Bytes)
    ensures AfterCr(Split(s).events) ==> !StartsWithLf(Split(s).rest)
    decreases |s|
  {
    match EventEnd(s, 0)
    case None =>
    case Some(e) =>
      EventEndsWith(s, e);
      var f := Split(s[e..]);
      RestAfterCr(s[e..]);
      AfterCrConcat([s[..e]], f.events);
      if f.events == [] {
        NoEvents(s[e..]);
      }
  }

  lemma {:induction false} FeedTracks(fed: Bytes, chunks: seq<Bytes>, d: Drained)
    requires Tracks(fed, d)
    ensures Tracks(fed + Join(chunks), Feed(chunks, d))
    decreases |chunks|
  {
    if chunks == [] {
      assert fed + [] == fed;
    } else {
      var next := Drain(d.bytes + chunks[0], d.pendingLf, false);
      FeedOne(fed, chunks[0], d);
      FeedTracks(fed + chunks[0], chunks[1..], next.After(d.pieces));
      BytesAssoc(fed, chunks[0], Join(chunks[1..]));
    }
  }

  lemma BytesAssoc(p: Bytes, q: Bytes, r: Bytes)
    ensures p + q + r == p + (q + r)
  {
  }

  lemma FeedOne(fed: Bytes, chunk: Bytes, d: Drained)
    requires Tracks(fed, d)
    ensures Tracks(fed + chunk, Drain(d.bytes + chunk, d.pendingLf, false).After(d.pieces))
  {
    SplitAppend(fed, chunk);
    RestAfterCr(fed);
    DrainAbsorbs(Split(fed), chunk);
    GlueConcat([], d.pieces, Drain(d.bytes + chunk, d.pendingLf, false).pieces);
  }

  /** What framing leaves over contains no complete event. */
  lemma {:induction false} RestIsIncomplete(s: Bytes)
    ensures EventEnd(Split(s).rest, 0) == None
    decreases |s|
  {
    match EventEnd(s, 0)
    case None =>
    case Some(e) => RestIsIncomplete(s[e..]);
  }

  /** For every cutting of every byte string: the glued pieces are the events of the whole string,
      the bytes never handed out are its incomplete tail, and end of file releases nothing more. */
  lemma ChunkInvariance(chunks: seq<Bytes>)
    ensures Glue(Run(chunks).pieces) == Frame(Join(chunks)).events
    ensures Run(chunks).bytes == Frame(Join(chunks)).rest
    ensures Run(chunks).pieces == Feed(chunks, EMPTY).pieces
  {
    var d := Feed(chunks, EMPTY);
    SplitEmpty();
    FeedTracks([], chunks, EMPTY);
    assert [] + Join(chunks) == Join(chunks);
    SplitIsFrame(Join(chunks));
    RestIsIncomplete(Join(chunks));
    assert Drain(d.bytes, d.pendingLf, true) == Drained([], d.bytes, false);
    assert d.pieces + [] == d.pieces;
  }

  // ---------- the same, by the scanner itself ----------

  lemma AfterSnoc(earlier: seq<Bytes>, piece: Bytes, d: Drained)
    ensures d.After([piece]).After(earlier) == d.After(earlier + [piece])
  {
    SnocCons(earlier, piece, d.pieces);
  }

  /** Drain a scanner. */
  method DrainBuffer(buffer: SseFrameBuffer, eof: bool) returns (pieces: seq<Bytes>)
    requires buffer.Valid() && (!eof ==> buffer.Open())
    modifies buffer
    ensures buffer.Valid() && (!eof ==> buffer.Open())
    ensures Drained(pieces, buffer.bytes, buffer.pendingLf) == Drain(old(buffer.bytes), old(buffer.pendingLf), eof)
    ensures buffer.released + |buffer.bytes| == old(buffer.released + |buffer.bytes|)
  {
    pieces := [];
    ghost var whole := Drain(buffer.bytes, buffer.pendingLf, eof);
    assert whole.After([]) == whole;
    while true
      invariant buffer.Valid() && (!eof ==> buffer.Open())
      invariant buffer.released + |buffer.bytes| == old(buffer.released + |buffer.bytes|)
      invariant whole == Drain(buffer.bytes, buffer.pendingLf, eof).After(pieces)
      decreases |buffer.bytes|
    {
      ghost var before := Drain(buffer.bytes, buffer.pendingLf, eof);
      var event := buffer.TakeEvent(eof);
      match event {
        case None =>
          assert before.pieces == [] && pieces + [] == pieces;
          return;
        case Some(piece) =>
          AfterSnoc(pieces, piece, Drain(buffer.bytes, buffer.pendingLf, eof));
          pieces := pieces + [piece];
      }
    }
  }

  lemma FeedStep(chunks: seq<Bytes>, i: nat, d: Drained)
    requires i < |chunks|
    ensures
      Feed(chunks[i..], d) ==
      Feed(chunks[i + 1..], Drain(d.bytes + chunks[i], d.pendingLf, false).After(d.pieces))
    ensures |Join(chunks[i..])| == |chunks[i]| + |Join(chunks[i + 1..])|
  {
    assert chunks[i..][1..] == chunks[i + 1..];
  }

  /** Append one chunk and drain. */
  method FeedBuffer(buffer: SseFrameBuffer, chunk: Bytes, earlier: seq<Bytes>) returns (pieces: seq<Bytes>)
    requires buffer.Open()
    modifies buffer
    ensures buffer.Open()
    ensures
      Drained(pieces, buffer.bytes, buffer.pendingLf) ==
      Drain(old(buffer.bytes) + chunk, old(buffer.pendingLf), false).After(earlier)
    ensures buffer.released + |buffer.bytes| == old(buffer.released + |buffer.bytes|) + |chunk|
  {
    buffer.Extend(chunk);
    var drained := DrainBuffer(buffer, false);
    pieces := earlier + drained;
  }

  /** Frame a stream that arrives in the given chunks. The scanner's total work is linear: at most
      one loop iteration per byte and one per call. */
  method FrameChunks(chunks: seq<Bytes>)
    returns (pieces: seq<Bytes>, rest: Bytes, ghost iterations: nat, ghost calls: nat)
    ensures Glue(pieces) == Frame(Join(chunks)).events
    ensures rest == Frame(Join(chunks)).rest
    ensures iterations <= |Join(chunks)| + calls
  {
    var buffer := new SseFrameBuffer();
    pieces := [];
    var i := 0;
    assert chunks[0..] == chunks;
    while i < |chunks|
      invariant 0 <= i <= |chunks|
      invariant fresh(buffer) && buffer.Open()
      invariant Feed(chunks[i..], Drained(pieces, buffer.bytes, buffer.pendingLf)) == Feed(chunks, EMPTY)
      invariant buffer.released + |buffer.bytes| + |Join(chunks[i..])| == |Join(chunks)|
    {
      FeedStep(chunks, i, Drained(pieces, buffer.bytes, buffer.pendingLf));
      pieces := FeedBuffer(buffer, chunks[i], pieces);
      i := i + 1;
    }
    ghost var d := Drained(pieces, buffer.bytes, buffer.pendingLf);
    assert d == Feed(chunks, EMPTY) by { assert chunks[i..] == []; }
    var drained := DrainBuffer(buffer, true);
    pieces := pieces + drained;
    assert Drained(pieces, buffer.bytes, buffer.pendingLf) == Run(chunks);
    rest := buffer.bytes;
    iterations, calls := buffer.iterations, buffer.calls;
    ChunkInvariance(chunks);
  }
}
