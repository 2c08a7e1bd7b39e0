/** The resumable scanner of the proxy: bytes are appended in chunks, complete events are taken
    from the front, and the scan position survives between calls. */
module SseFrameBuffer {
  import opened SseSpec
  import opened Wrappers

  datatype Taken = Taken(piece: Option<Bytes>, bytes: Bytes, pendingLf: bool)

  /** The effect of one `TakeEvent` on the unread bytes, whatever the scan position was. */
  function Take(bytes: Bytes, pendingLf: bool, eof: bool): (r: Taken)
    ensures r.piece.Some? ==> r.piece.value + r.bytes == bytes && |r.bytes| < |bytes|
    ensures r.piece.None? ==> r.bytes == bytes
  {
    if pendingLf && bytes == [] && !eof then
      Taken(None, bytes, true)
    else if pendingLf && bytes != [] && bytes[0] == LF then
      Taken(Some([LF]), bytes[1..], false)
    else
      match EventEnd(bytes, 0)
      case None => Taken(None, bytes, false)
      case Some(e) => Taken(Some(bytes[..e]), bytes[e..], !eof && e == |bytes| && bytes[e - 1] == CR)
  }

  // ---------- the scan position ----------

  /** Complete, non-empty lines lead from `from` to `to`. */
  predicate NonEmptyLines(s: Bytes, from: nat, to: nat)
    requires from <= to <= |s|
    decreases |s| - from
  {
    from == to ||
    (var n := TextEnd(s, from);
     from < n < to && AfterEnding(s, n) <= to && NonEmptyLines(s, AfterEnding(s, n), to))
  }

  /** A line end that later bytes cannot change. */
  predicate Settled(s: Bytes, lineStart: nat)
    requires lineStart <= |s|
  {
    0 < lineStart == |s| ==> s[lineStart - 1] != CR
  }

  lemma {:induction false} SkipsNonEmptyLines(s: Bytes, from: nat, to: nat)
    requires from <= to <= |s| && NonEmptyLines(s, from, to)
    ensures EventEnd(s, from) == EventEnd(s, to)
    decreases |s| - from
  {
    if from != to {
      SkipsNonEmptyLines(s, AfterEnding(s, TextEnd(s, from)), to);
    }
  }

  lemma {:induction false} NonEmptyLinesExtend(s: Bytes, t: Bytes, from: nat, to: nat)
    requires from <= to <= |s| && NonEmptyLines(s, from, to) && Settled(s, to)
    ensures NonEmptyLines(s + t, from, to)
    decreases |s| - from
  {
    if from != to {
      var n := TextEnd(s, from);
      TextEndExtends(s, t, from);
      NonEmptyLinesExtend(s, t, AfterEnding(s, n), to);
    }
  }

  lemma {:induction false} NonEmptyLinesSnoc(s: Bytes, from: nat, lineStart: nat, n: nat)
    requires from <= lineStart < n < |s|
    requires NonEmptyLines(s, from, lineStart)
    requires n == TextEnd(s, lineStart)
    ensures NonEmptyLines(s, from, AfterEnding(s, n))
    decreases |s| - from
  {
    if from != lineStart {
      NonEmptyLinesSnoc(s, AfterEnding(s, TextEnd(s, from)), lineStart, n);
    }
  }

  /** The scan has passed complete non-empty lines up to `lineStart` and only text from there to
      `cursor`. */
  predicate Scanned(s: Bytes, lineStart: nat, cursor: nat) {
    && lineStart <= cursor <= |s|
    && NonEmptyLines(s, 0, lineStart)
    && cursor <= TextEnd(s, lineStart)
  }

  lemma {:induction false} ScanText(s: Bytes, lineStart: nat, cursor: nat)
    requires Scanned(s, lineStart, cursor) && cursor < |s| && !IsTerminator(s[cursor])
    ensures Scanned(s, lineStart, cursor + 1)
  {
    assert TextEnd(s, lineStart) != cursor;
  }

  lemma {:induction false} ScanLine(s: Bytes, lineStart: nat, cursor: nat)
    requires Scanned(s, lineStart, cursor) && cursor < |s| && IsTerminator(s[cursor])
    ensures cursor == lineStart ==> EventEnd(s, 0) == Some(AfterEnding(s, cursor))
    ensures cursor != lineStart ==> Scanned(s, AfterEnding(s, cursor), AfterEnding(s, cursor))
    ensures cursor != lineStart && AfterEnding(s, cursor) == |s| ==> EventEnd(s, 0) == None
  {
    if cursor < TextEnd(s, lineStart) {
      TextBeforeEnd(s, lineStart, cursor);
      assert false;
    }
    SkipsNonEmptyLines(s, 0, lineStart);
    if cursor != lineStart {
      NonEmptyLinesSnoc(s, 0, lineStart, cursor);
    }
  }

  lemma {:induction false} ScanEnd(s: Bytes, lineStart: nat)
    requires Scanned(s, lineStart, |s|)
    ensures EventEnd(s, 0) == None
  {
    SkipsNonEmptyLines(s, 0, lineStart);
  }

  lemma {:induction false} ScanExtend(s: Bytes, t: Bytes, lineStart: nat, cursor: nat)
    requires Scanned(s, lineStart, cursor) && Settled(s, lineStart)
    ensures Scanned(s + t, lineStart, cursor)
    ensures Settled(s + t, lineStart)
  {
    NonEmptyLinesExtend(s, t, 0, lineStart);
    if TextEnd(s + t, lineStart) < cursor {
      TextBeforeEnd(s, lineStart, TextEnd(s + t, lineStart));
      assert false;
    }
  }

  /** The scanning loop, on the fields' values: advance until an event is complete or the bytes
      run out, and count the iterations. A CR that is the last byte so far ends an empty line at
      once, but holds the scan on any other line because an LF may still follow. */
  method Scan(s: Bytes, lineStart: nat, cursor: nat, eof: bool)
    returns (end: Option<nat>, splitCrlf: bool, lineStart': nat, cursor': nat, iterations: nat)
    requires Scanned(s, lineStart, cursor) && (!eof ==> Settled(s, lineStart))
    ensures end == EventEnd(s, 0)
    ensures end.Some? ==> splitCrlf == (!eof && end.value == |s| && s[end.value - 1] == CR)
    ensures end.None? ==> Scanned(s, lineStart', cursor') && (!eof ==> Settled(s, lineStart'))
    ensures iterations + cursor <= if end.Some? then end.value else cursor' + 1
  {
    lineStart', cursor', iterations, splitCrlf := lineStart, cursor, 0, false;
    while cursor' < |s|
      invariant Scanned(s, lineStart', cursor') && (!eof ==> Settled(s, lineStart'))
      invariant iterations + cursor <= cursor'
    {
      iterations := iterations + 1;
      var b := s[cursor'];
      if b != LF && b != CR {
        ScanText(s, lineStart', cursor');
        cursor' := cursor' + 1;
        continue;
      }
      ScanLine(s, lineStart', cursor');
      if b == CR && cursor' + 1 == |s| && !eof && cursor' != lineStart' {
        return None, false, lineStart', cursor', iterations;
      }
      splitCrlf := b == CR && cursor' + 1 == |s| && !eof;
      var e := cursor' + if b == CR && cursor' + 1 < |s| && s[cursor' + 1] == LF then 2 else 1;
      var empty := cursor' == lineStart';
      cursor', lineStart' := e, e;
      if empty {
        return Some(e), splitCrlf, lineStart', cursor', iterations;
      }
    }
    ScanEnd(s, lineStart');
    end := None;
  }

  class SseFrameBuffer {
    var bytes: Bytes
    var cursor: nat
    var lineStart: nat
    var pendingLf: bool

    /** Bytes handed out, loop iterations made and calls of `TakeEvent`, so far. */
    ghost var released: nat
    ghost var iterations: nat
    ghost var calls: nat

    /** The scan invariant. Its last clause bounds the work of a whole run by the bytes fed plus
        the number of calls: `cursor` never passes the end of `bytes`. */
    ghost predicate Valid()
      reads this
    {
      && Scanned(bytes, lineStart, cursor)
      && (pendingLf ==> cursor == 0)
      && iterations <= released + cursor + calls
    }

    /** Valid, and more bytes may be appended: no line end depends on them. */
    ghost predicate Open()
      reads this
    {
      Valid() && Settled(bytes, lineStart)
    }

    constructor ()
      ensures Open()
      ensures bytes == [] && !pendingLf && released == iterations == calls == 0
    {
      bytes, cursor, lineStart, pendingLf := [], 0, 0, false;
      released, iterations, calls := 0, 0, 0;
    }

    /** The chunk append done by the framing stream. */
    method Extend(chunk: Bytes)
      requires Open()
      modifies `bytes
      ensures Open()
      ensures bytes == old(bytes) + chunk
    {
      ScanExtend(bytes, chunk, lineStart, cursor);
      bytes := bytes + chunk;
    }

    /** Hand out the first `n` bytes; the scan restarts on what is left. */
    method SplitTo(n: nat) returns (front: Bytes)
      requires n <= |bytes|
      modifies `bytes, `cursor, `lineStart, `released
      ensures front == old(bytes)[..n] && bytes == old(bytes)[n..]
      ensures cursor == lineStart == 0 && released == old(released) + n
    {
      front := bytes[..n];
      bytes := bytes[n..];
      cursor, lineStart := 0, 0;
      released := released + n;
    }

    method TakeEvent(eof: bool) returns (event: Option<Bytes>)
      requires Valid()
      requires !eof ==> Open()
      modifies this
      ensures Valid()
      ensures !eof ==> Open()
      ensures Taken(event, bytes, pendingLf) == Take(old(bytes), old(pendingLf), eof)
      ensures released + |bytes| == old(released) + old(|bytes|) && calls == old(calls) + 1
    {
      calls := calls + 1;
      if pendingLf {
        if bytes == [] && !eof {
          return None;
        }
        pendingLf := false;
        if bytes != [] && bytes[0] == LF {
          var front := SplitTo(1);
          return Some(front);
        }
      }
      event := ScanForEvent(eof);
    }

    /** The part of `TakeEvent` after the pending LF has been dealt with. */
    method ScanForEvent(eof: bool) returns (event: Option<Bytes>)
      requires Scanned(bytes, lineStart, cursor) && (!eof ==> Settled(bytes, lineStart))
      requires !pendingLf && iterations < released + cursor + calls
      modifies `bytes, `cursor, `lineStart, `pendingLf, `released, `iterations
      ensures Valid()
      ensures !eof ==> Open()
      ensures Taken(event, bytes, pendingLf) == Take(old(bytes), false, eof)
      ensures released + |bytes| == old(released) + old(|bytes|)
    {
      var end, splitCrlf, lineStart', cursor', n := Scan(bytes, lineStart, cursor, eof);
      iterations := iterations + n;
      if end.Some? {
        pendingLf := splitCrlf;
        var front := SplitTo(end.value);
        return Some(front);
      }
      cursor, lineStart := cursor', lineStart';
      event := None;
    }
  }
}
