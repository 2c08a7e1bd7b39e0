/** Whole-string specification of event-stream framing.

    Sections 9.2.5 and 9.2.6 of the WHATWG HTML Living Standard: a stream is a sequence of
    lines ended by CRLF, LF or CR (the longest ending wins), and an empty line closes an event.
    Nothing here knows about chunks, cursors or end of file. */
module SseSpec {
  import opened Wrappers

  newtype byte = b: int | 0 <= b < 256
  type Bytes = seq<byte>

  const LF: byte := 10
  const CR: byte := 13

  predicate IsTerminator(b: byte) {
    b == LF || b == CR
  }

  /** Position of the first line terminator at or after `from`, or the end of the string. */
  function TextEnd(s: Bytes, from: nat): (n: nat)
    requires from <= |s|
    ensures from <= n <= |s|
    ensures n < |s| ==> IsTerminator(s[n])
    decreases |s| - from
  {
    if from == |s| || IsTerminator(s[from]) then from else TextEnd(s, from + 1)
  }

  /** Position after the line ending at `i`; CR LF is one ending. */
  function AfterEnding(s: Bytes, i: nat): (e: nat)
    requires i < |s| && IsTerminator(s[i])
    ensures i < e <= |s|
    ensures e == if s[i] == CR && i + 1 < |s| && s[i + 1] == LF then i + 2 else i + 1
  {
    if s[i] == CR && i + 1 < |s| && s[i + 1] == LF then i + 2 else i + 1
  }

  datatype Line = Line(text: Bytes, ending: Bytes)
  datatype Document = Document(lines: seq<Line>, tail: Bytes)
  datatype Framing = Framing(events: seq<Bytes>, rest: Bytes) {
    function Cons(event: Bytes): Framing {
      Framing([event] + events, rest)
    }
  }

  /** Every complete line, and the unterminated text after the last one. */
  function Lines(s: Bytes): Document
    decreases |s|
  {
    var n := TextEnd(s, 0);
    if n == |s| then Document([], s)
    else
      var e := AfterEnding(s, n);
      var d := Lines(s[e..]);
      Document([Line(s[..n], s[n..e])] + d.lines, d.tail)
  }

  /** Cut a sequence of lines into events: each empty line closes the event that `open` began. */
  function Group(lines: seq<Line>, open: Bytes): Framing {
    if lines == [] then Framing([], open)
    else
      var open' := open + lines[0].text + lines[0].ending;
      if lines[0].text == [] then
        var f := Group(lines[1..], []);
        f.Cons(open')
      else
        Group(lines[1..], open')
  }

  function FrameDocument(d: Document, open: Bytes): Framing {
    var f := Group(d.lines, open);
    Framing(f.events, f.rest + d.tail)
  }

  /** The events of a whole stream and the incomplete event left at its end. */
  function Frame(s: Bytes): Framing {
    FrameDocument(Lines(s), [])
  }

  function Join(pieces: seq<Bytes>): Bytes {
    if pieces == [] then [] else pieces[0] + Join(pieces[1..])
  }

  // ---------- the first event, by position ----------

  /** End of the first empty line at or after the line that starts at `lineStart`. */
  function EventEnd(s: Bytes, lineStart: nat): (r: Option<nat>)
    requires lineStart <= |s|
    ensures r.Some? ==> lineStart < r.value <= |s| && IsTerminator(s[r.value - 1])
    ensures r.Some? && s[r.value - 1] == CR && r.value < |s| ==> s[r.value] != LF
    decreases |s| - lineStart
  {
    var n := TextEnd(s, lineStart);
    if n == |s| then None
    else if n == lineStart then Some(AfterEnding(s, n))
    else EventEnd(s, AfterEnding(s, n))
  }

  lemma {:induction false} TextBeforeEnd(s: Bytes, from: nat, i: nat)
    requires from <= |s| && from <= i < TextEnd(s, from)
    ensures !IsTerminator(s[i])
    decreases i - from
  {
    if from < i { TextBeforeEnd(s, from + 1, i); }
  }

  lemma TextEndIs(s: Bytes, from: nat, n: nat)
    requires from <= n <= |s|
    requires forall i | from <= i < n :: !IsTerminator(s[i])
    requires n < |s| ==> IsTerminator(s[n])
    ensures TextEnd(s, from) == n
    decreases n - from
  {
    if from < n { TextEndIs(s, from + 1, n); }
  }

  lemma FrameDocumentCons(line: Line, d: Document, open: Bytes)
    ensures
      FrameDocument(Document([line] + d.lines, d.tail), open) ==
      if line.text == [] then
        FrameDocument(d, []).Cons(open + line.ending)
      else
        FrameDocument(d, open + line.text + line.ending)
  {
    var ls := [line] + d.lines;
    assert ls[1..] == d.lines;
    assert open + [] == open;
  }

  /** Events taken one at a time from the front; the form the scanner's proofs follow. */
  function Split(s: Bytes): Framing
    decreases |s|
  {
    match EventEnd(s, 0)
    case None => Framing([], s)
    case Some(e) => Split(s[e..]).Cons(s[..e])
  }

  function FirstThenRest(s: Bytes, first: Option<nat>): Framing
    requires first.Some? ==> first.value <= |s|
  {
    match first
    case None => Framing([], s)
    case Some(e) => Frame(s[e..]).Cons(s[..e])
  }

  /** Seen from a line start, the suffix and the whole string have the same first line. */
  lemma {:induction false} LineShift(s: Bytes, lineStart: nat)
    requires lineStart <= |s|
    ensures TextEnd(s, lineStart) == lineStart + TextEnd(s[lineStart..], 0)
    ensures
      var u := s[lineStart..];
      var n := TextEnd(u, 0);
      n < |u| ==> AfterEnding(s, lineStart + n) == lineStart + AfterEnding(u, n)
  {
    var u := s[lineStart..];
    var n := TextEnd(u, 0);
    forall i | lineStart <= i < lineStart + n ensures !IsTerminator(s[i]) {
      TextBeforeEnd(u, 0, i - lineStart);
    }
    TextEndIs(s, lineStart, lineStart + n);
  }

  lemma SubSlices(s: Bytes, from: nat, m: nat, f: nat, n: nat, e: nat)
    requires m <= f && n == from + m && e == from + f <= |s|
    ensures s[from..][..m] == s[from..n]
    ensures s[from..][m..f] == s[n..e]
    ensures s[from..][f..] == s[e..]
  {
  }

  lemma {:induction false} LinesUnfold(u: Bytes, n: nat, e: nat)
    requires n == TextEnd(u, 0) < |u| && e == AfterEnding(u, n)
    ensures Lines(u) == Document([Line(u[..n], u[n..e])] + Lines(u[e..]).lines, Lines(u[e..]).tail)
  {
  }

  lemma {:induction false} LinesFirst(s: Bytes, lineStart: nat, n: nat, e: nat)
    requires lineStart <= |s|
    requires n == TextEnd(s, lineStart) < |s| && e == AfterEnding(s, n)
    ensures
      Lines(s[lineStart..]) ==
      Document([Line(s[lineStart..n], s[n..e])] + Lines(s[e..]).lines, Lines(s[e..]).tail)
  {
    LineShift(s, lineStart);
    var m := TextEnd(s[lineStart..], 0);
    var f := AfterEnding(s[lineStart..], m);
    LinesUnfold(s[lineStart..], m, f);
    SubSlices(s, lineStart, m, f, n, e);
  }

  /** Framing past one complete line: an empty one closes the event, any other extends it. */
  lemma {:induction false} FramePastLine(s: Bytes, lineStart: nat, n: nat, e: nat)
    requires lineStart <= |s|
    requires n == TextEnd(s, lineStart) < |s| && e == AfterEnding(s, n)
    ensures
      FrameDocument(Lines(s[lineStart..]), s[..lineStart]) ==
      if n == lineStart then FirstThenRest(s, Some(e)) else FrameDocument(Lines(s[e..]), s[..e])
  {
    LinesFirst(s, lineStart, n, e);
    FrameDocumentCons(Line(s[lineStart..n], s[n..e]), Lines(s[e..]), s[..lineStart]);
    ThreeSlices(s, lineStart, n, e);
  }

  lemma ThreeSlices(s: Bytes, from: nat, n: nat, e: nat)
    requires from <= n <= e <= |s|
    ensures n == from ==> s[from..n] == [] && s[..from] + s[n..e] == s[..e]
    ensures s[..from] + s[from..n] + s[n..e] == s[..e]
    ensures n != from ==> s[from..n] != []
  {
  }

  lemma {:induction false} FrameFromLine(s: Bytes, lineStart: nat)
    requires lineStart <= |s|
    ensures FrameDocument(Lines(s[lineStart..]), s[..lineStart]) == FirstThenRest(s, EventEnd(s, lineStart))
    decreases |s| - lineStart
  {
    var n := TextEnd(s, lineStart);
    if n == |s| {
      LineShift(s, lineStart);
      assert s[..lineStart] + s[lineStart..] == s;
    } else {
      var e := AfterEnding(s, n);
      FramePastLine(s, lineStart, n, e);
      if n != lineStart {
        FrameFromLine(s, e);
      }
    }
  }

  /** Framing takes the first event, then frames what follows it. */
  lemma FrameUnfolds(s: Bytes)
    ensures Frame(s) == FirstThenRest(s, EventEnd(s, 0))
  {
    assert s[0..] == s && s[..0] == [];
    FrameFromLine(s, 0);
  }

  /** The two forms agree on every string. */
  lemma {:induction false} SplitIsFrame(s: Bytes)
    ensures Split(s) == Frame(s)
    decreases |s|
  {
    FrameUnfolds(s);
    match EventEnd(s, 0)
    case None =>
    case Some(e) => SplitIsFrame(s[e..]);
  }

  lemma JoinCons(head: Bytes, tail: seq<Bytes>)
    ensures Join([head] + tail) == head + Join(tail)
  {
    assert ([head] + tail)[1..] == tail;
  }

  lemma ConserveStep(s: Bytes, e: nat, f: Framing)
    requires e <= |s| && Join(f.events) + f.rest == s[e..]
    ensures Join(f.Cons(s[..e]).events) + f.rest == s
  {
    JoinCons(s[..e], f.events);
    assert s[..e] + Join(f.events) + f.rest == s[..e] + (Join(f.events) + f.rest);
  }

  lemma {:induction false} SplitConserves(s: Bytes)
    ensures Join(Split(s).events) + Split(s).rest == s
    decreases |s|
  {
    match EventEnd(s, 0)
    case None =>
    case Some(e) =>
      SplitConserves(s[e..]);
      ConserveStep(s, e, Split(s[e..]));
  }

  /** Framing loses and invents nothing. */
  lemma FrameConserves(s: Bytes)
    ensures Join(Frame(s).events) + Frame(s).rest == s
  {
    SplitIsFrame(s);
    SplitConserves(s);
  }

  // ---------- how the first event depends on what follows ----------

  lemma TextEndExtends(s: Bytes, t: Bytes, from: nat)
    requires from <= |s|
    requires TextEnd(s, from) < |s|
    ensures TextEnd(s + t, from) == TextEnd(s, from)
  {
    var n := TextEnd(s, from);
    forall i | from <= i < n ensures !IsTerminator((s + t)[i]) {
      TextBeforeEnd(s, from, i);
    }
    TextEndIs(s + t, from, n);
  }

  /** Whether `t` begins with the LF that completes a CR at the end of `s`. */
  predicate SplitsCrlf(s: Bytes, t: Bytes) {
    s != [] && s[|s| - 1] == CR && t != [] && t[0] == LF
  }

  /** An event already visible stays where it is when more bytes arrive, except that a final CR
      takes the LF that directly follows it. */
  lemma {:induction false} EventEndExtends(s: Bytes, t: Bytes, lineStart: nat)
    requires lineStart <= |s|
    requires EventEnd(s, lineStart).Some?
    ensures
      var e := EventEnd(s, lineStart).value;
      EventEnd(s + t, lineStart) == Some(if e == |s| && SplitsCrlf(s, t) then e + 1 else e)
    decreases |s| - lineStart
  {
    var n := TextEnd(s, lineStart);
    TextEndExtends(s, t, lineStart);
    if n != lineStart {
      assert AfterEnding(s + t, n) == AfterEnding(s, n);
      EventEndExtends(s, t, AfterEnding(s, n));
    }
  }

  /** Bytes without an event do not hold the end of a later one. */
  lemma {:induction false} NoEarlierEvent(s: Bytes, t: Bytes, lineStart: nat)
    requires lineStart <= |s| && EventEnd(s, lineStart) == None
    ensures EventEnd(s + t, lineStart).Some? ==> EventEnd(s + t, lineStart).value > |s|
    decreases |s| - lineStart
  {
    var n := TextEnd(s, lineStart);
    if n < |s| {
      TextEndExtends(s, t, lineStart);
      var e := AfterEnding(s, n);
      if e < |s| || s[|s| - 1] != CR {
        assert AfterEnding(s + t, n) == e;
        NoEarlierEvent(s, t, e);
      }
    } else {
      TextEndNotBefore(s, t, lineStart);
    }
  }

  lemma TextEndNotBefore(s: Bytes, t: Bytes, from: nat)
    requires from <= |s| && TextEnd(s, from) == |s|
    ensures TextEnd(s + t, from) >= |s|
  {
    if TextEnd(s + t, from) < |s| {
      TextBeforeEnd(s, from, TextEnd(s + t, from));
      assert false;
    }
  }
}
