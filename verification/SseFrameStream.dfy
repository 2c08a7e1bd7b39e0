/** The framing stream: pulls chunks from the upstream, hands out complete events, and ends with
    at most one error. A stream is denoted by the sequence of items it still has to yield. */
module SseFrameStream {
  import opened SseSpec
  import opened Wrappers
  import opened SseFrameBuffer
  import opened SseChunking

  const MAX_SSE_EVENT_BYTES: nat := 1024 * 1024

  datatype ErrorKind = TimedOut | UnexpectedEof | Other

  datatype IoError =
    | Transport(kind: ErrorKind)
    | EventTooLarge
    | IncompleteEvent
    | CompletionMissing
  {
    function Kind(): ErrorKind {
      match this
      case Transport(kind) => kind
      case EventTooLarge => Other
      case IncompleteEvent => UnexpectedEof
      case CompletionMissing => UnexpectedEof
    }
  }

  datatype Item = Ok(bytes: Bytes) | Err(error: IoError)
  datatype SourceItem = Chunk(bytes: Bytes) | Failed(kind: ErrorKind)

  /** Line endings brought to LF, as done before an event is inspected. */
  function Normalise(s: Bytes): Bytes {
    if s == [] then []
    else if s[0] == CR && |s| >= 2 && s[1] == LF then [LF] + Normalise(s[2..])
    else if s[0] == CR then [LF] + Normalise(s[1..])
    else [s[0]] + Normalise(s[1..])
  }

  /** `terminalText` stands for decoding the text of an event and testing it for `[DONE]` or an
      error object. */
  datatype Mode = Mode(requireTerminal: bool, terminalText: Bytes -> bool) {
    /** An event without fields is never a terminal one. */
    ghost predicate Valid() {
      !terminalText([LF])
    }

    predicate Stops(event: Bytes) {
      requireTerminal && terminalText(Normalise(event))
    }
  }

  datatype State = State(
    bytes: Bytes, pendingLf: bool, eof: bool, pendingError: Option<ErrorKind>, source: seq<SourceItem>)

  /** Everything the stream yields from a state on. */
  function Outputs(mode: Mode, st: State): seq<Item>
    decreases |st.source|, if st.eof then 0 else 1, |st.bytes|
  {
    var t := Take(st.bytes, st.pendingLf, st.eof);
    match t.piece
    case Some(event) =>
      if |event| > MAX_SSE_EVENT_BYTES then [Err(EventTooLarge)]
      else if mode.Stops(event) then [Ok(event)]
      else [Ok(event)] + Outputs(mode, st.(bytes := t.bytes, pendingLf := t.pendingLf))
    case None =>
      match Conclusion(mode, st)
      case Some(items) => items
      case None => Outputs(mode, Poll(st.(pendingLf := t.pendingLf)))
  }

  /** How the stream ends once no complete event is left, or nothing if it goes on reading. */
  function Conclusion(mode: Mode, st: State): (r: Option<seq<Item>>)
    ensures r.None? ==> !st.eof
  {
    if st.pendingError.Some? then Some([Err(Transport(st.pendingError.value))])
    else if |st.bytes| > MAX_SSE_EVENT_BYTES || (st.eof && st.bytes != []) then Some([Err(IncompleteEvent)])
    else if st.eof then Some(if mode.requireTerminal then [Err(CompletionMissing)] else [])
    else None
  }

  lemma OutputsQuiet(mode: Mode, st: State)
    requires Take(st.bytes, st.pendingLf, st.eof).piece.None?
    ensures
      var st' := st.(pendingLf := Take(st.bytes, st.pendingLf, st.eof).pendingLf);
      var c := Conclusion(mode, st');
      Outputs(mode, st) == if c.Some? then c.value else Outputs(mode, Poll(st'))
  {
  }

  /** Pull one item from the upstream. */
  function Poll(st: State): (r: State)
    requires !st.eof
    ensures st.source != [] ==> |r.source| < |st.source|
    ensures st.source == [] ==> r.eof && r.source == []
  {
    if st.source == [] then st.(eof := true)
    else match st.source[0]
      case Chunk(c) => st.(bytes := st.bytes + c, source := st.source[1..])
      case Failed(kind) => st.(eof := true, pendingError := Some(kind), source := st.source[1..])
  }

  function Initial(source: seq<SourceItem>): State {
    State([], false, false, None, source)
  }

  class SseFrameStream {
    const mode: Mode
    const buffer: SseFrameBuffer
    var source: seq<SourceItem>
    var eof: bool
    var done: bool
    var pendingError: Option<ErrorKind>

    ghost predicate Valid()
      reads this, buffer
    {
      buffer.Valid() && (!eof ==> buffer.Open())
    }

    ghost function Current(): State
      reads this, buffer
    {
      State(buffer.bytes, buffer.pendingLf, eof, pendingError, source)
    }

    /** What the stream still yields. */
    ghost function Remaining(): seq<Item>
      reads this, buffer
    {
      if done then [] else Outputs(mode, Current())
    }

    constructor (source: seq<SourceItem>, mode: Mode)
      ensures Valid() && fresh(buffer) && this.mode == mode
      ensures Remaining() == Outputs(mode, Initial(source))
    {
      this.mode := mode;
      this.source := source;
      eof, done, pendingError := false, false, None;
      buffer := new SseFrameBuffer();
    }

    method PollSource()
      requires Valid() && !eof
      modifies this, buffer
      ensures Valid() && done == old(done)
      ensures Current() == Poll(old(Current()))
    {
      if source == [] {
        eof := true;
      } else {
        match source[0] {
          case Chunk(c) => buffer.Extend(c);
          case Failed(kind) => eof, pendingError := true, Some(kind);
        }
        source := source[1..];
      }
    }

    /** No complete event is left: end with an error or cleanly, or go on reading. */
    method Conclude() returns (ended: bool, item: Option<Item>)
      requires !done
      modifies `pendingError, `done
      ensures Conclusion(mode, old(Current())) ==
              if !ended then None else if item.None? then Some([]) else Some([item.value])
      ensures done == (ended && item.Some?)
      ensures !done ==> pendingError == old(pendingError)
      ensures ended && item.None? ==> old(Remaining()) == Remaining()
    {
      ended, item := true, None;
      if pendingError.Some? {
        item := Some(Err(Transport(pendingError.value)));
        pendingError, done := None, true;
      } else if |buffer.bytes| > MAX_SSE_EVENT_BYTES || (eof && buffer.bytes != []) {
        item, done := Some(Err(IncompleteEvent)), true;
      } else if eof {
        if mode.requireTerminal {
          item, done := Some(Err(CompletionMissing)), true;
        }
      } else {
        ended := false;
      }
    }

    /** Hand out a complete event, unless it is too large. */
    method Yield(event: Bytes) returns (item: Item)
      requires !done
      modifies `done
      ensures item == if |event| > MAX_SSE_EVENT_BYTES then Err(EventTooLarge) else Ok(event)
      ensures done == (|event| > MAX_SSE_EVENT_BYTES || mode.Stops(event))
    {
      if |event| > MAX_SSE_EVENT_BYTES {
        done := true;
        return Err(EventTooLarge);
      }
      done := mode.Stops(event);
      return Ok(event);
    }

    /** Take a complete event if there is one; the state is otherwise as before, without a complete
        event in it. */
    method TakeItem() returns (item: Option<Item>)
      requires Valid() && !done
      modifies `done, buffer
      ensures Valid()
      ensures item.Some? ==> old(Remaining()) == [item.value] + Remaining()
      ensures
        item.None? ==>
          && !done
          && var c := Conclusion(mode, Current());
             old(Remaining()) == if c.Some? then c.value else Outputs(mode, Poll(Current()))
    {
      ghost var st := Current();
      ghost var t := Take(st.bytes, st.pendingLf, st.eof);
      var event := buffer.TakeEvent(eof);
      assert Current() == st.(bytes := t.bytes, pendingLf := t.pendingLf);
      if event.Some? {
        var yielded := Yield(event.value);
        item := Some(yielded);
      } else {
        OutputsQuiet(mode, st);
        item := None;
      }
    }

    /** One round of the stream's loop: yield an item, end, or read more. */
    method Round() returns (ended: bool, item: Option<Item>)
      requires Valid() && !done
      modifies this, buffer
      ensures Valid()
      ensures !ended ==> !done && Remaining() == old(Remaining())
      ensures !ended ==> |source| < old(|source|) || (|source| == old(|source|) && eof && !old(eof))
      ensures ended && item.None? ==> old(Remaining()) == [] && Remaining() == []
      ensures ended && item.Some? ==> old(Remaining()) == [item.value] + Remaining()
    {
      item := TakeItem();
      if item.Some? {
        return true, item;
      }
      ended, item := Conclude();
      if !ended {
        PollSource();
      }
    }

    /** One poll of the stream: it yields the first remaining item, or ends. */
    method Next() returns (item: Option<Item>)
      requires Valid()
      modifies this, buffer
      ensures Valid()
      ensures item.None? ==> old(Remaining()) == [] && Remaining() == []
      ensures item.Some? ==> old(Remaining()) == [item.value] + Remaining()
    {
      if done {
        return None;
      }
      while true
        invariant Valid() && !done
        invariant Remaining() == old(Remaining())
        decreases |source|, if eof then 0 else 1
      {
        var ended;
        ended, item := Round();
        if ended {
          return;
        }
      }
    }
  }
}
