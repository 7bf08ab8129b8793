/** The connection: the read loop that cuts a byte stream into frames, and stream id allocation. */
module Connection {
  import opened Wire
  import opened Frames

  // ---------------------------------------------------------------- reading a stream

  datatype Reading =
    | Got(frame: Frame, rest: bytes)
    | Hangup       // the stream ended inside a header or a payload
    | Malformed    // the bytes are not a frame

  function ReadOne(mp: Msgpack, s: bytes): (r: Reading)
    ensures r.Got? ==> |r.rest| < |s|
  {
    if |s| < HEADER_SIZE then Hangup else
    match HeaderFromBytes(s[..HEADER_SIZE])
    case Err(_) => Malformed
    case Ok(header) =>
      var size := HEADER_SIZE + header.payloadLength;
      if |s| < size then Hangup else
      match DecodeFrame(mp, s[..size])
      case Err(_) => Malformed
      case Ok(frame) => Got(frame, s[size..])
  }

  /** Everything the read loop delivers from a stream, and how it ends. */
  datatype Session = Session(frames: seq<Frame>, malformed: bool, leftover: bytes)

  function ReadAll(mp: Msgpack, s: bytes): Session
    decreases |s|
  {
    match ReadOne(mp, s)
    case Hangup => Session([], false, s)
    case Malformed => Session([], true, s)
    case Got(frame, rest) => var later := ReadAll(mp, rest); later.(frames := [frame] + later.frames)
  }

  // ---------------------------------------------------------------- the connection, as a value

  datatype ConnectionState = Disconnected | Pending | Authenticating | Authenticated | Closing

  /** What the socket still gives: some bytes, after which the peer closes, or stays silent past the read timeout. */
  datatype Incoming = Incoming(data: bytes, silent: bool)

  /** How opening the socket ends: with a stream, with a timeout, or with an OSError. */
  datatype Opening = Opened(incoming: Incoming) | Unanswered | Refused

  /** What the frame handler does with a frame. */
  datatype Reaction = Returns | RaisesClosed | Raises

  /** A frame handler: its reaction to a frame after so many calls, so that it may have a state of its own. */
  type Handler = (nat, Frame) -> Reaction

  /** `closed` is the closed event, and `closeCalls` counts the calls of the close handler. */
  datatype Link = Link(state: ConnectionState, reader: Option<Incoming>, closed: bool, closeCalls: nat)

  predicate Connected(l: Link) {
    l.state == Pending || l.state == Authenticating || l.state == Authenticated
  }

  function CloseLink(l: Link): Link {
    if l.state == Disconnected then l else Link(Disconnected, None, true, l.closeCalls + 1)
  }

  /** What a read that times out leaves: inside a payload, the header is gone. */
  function AfterTimeout(s: bytes): bytes {
    if |s| < HEADER_SIZE then s else s[HEADER_SIZE..]
  }

  /** One `read_frame`. */
  function ReadFrom(mp: Msgpack, l: Link): (Result<Frame>, Link) {
    match l.reader
    case None => (Err(Error.Closed), l)
    case Some(incoming) =>
      match ReadOne(mp, incoming.data)
      case Got(frame, rest) => (Ok(frame), l.(reader := Some(incoming.(data := rest))))
      case Malformed => (Err(BadProtocol), CloseLink(l))
      case Hangup =>
        if incoming.silent
        then (Err(NoConnection), l.(reader := Some(incoming.(data := AfterTimeout(incoming.data)))))
        else (Err(Error.Closed), CloseLink(l))
  }

  function Unread(l: Link): nat {
    if l.reader.Some? then |l.reader.value.data| else 0
  }

  /** The read loop, after `n` calls of the handler: the link it leaves, and the frames it calls the handler with. */
  function Serve(mp: Msgpack, onFrame: Option<Handler>, l: Link, n: nat): (Link, seq<Frame>)
    decreases Unread(l)
  {
    if !Connected(l) then (l, []) else
    match ReadFrom(mp, l)
    case (Err(Closed), after) => (after, [])
    case (Err(_), after) => (CloseLink(after), [])
    case (Ok(frame), after) =>
      if onFrame.None? then Serve(mp, onFrame, after, n) else
      match onFrame.value(n, frame)
      case Returns => var (last, later) := Serve(mp, onFrame, after, n + 1); (last, [frame] + later)
      case RaisesClosed => (after, [frame])
      case Raises => (CloseLink(after), [frame])
  }

  const MAX_STREAM_ID := 0x7FFF_FFFF

  class HMMPConnection {
    const decoder: FrameDecoder
    const onFrame: Option<Handler>
    var state: ConnectionState
    var reader: Option<Incoming>
    var closedEvent: bool
    var closeCalls: nat
    var streamIdCounter: nat
    var sent: bytes                 // what the socket has taken
    var delivered: seq<Frame>       // what the frame handler has been called with

    ghost predicate Valid()
      reads this
    {
      state == Disconnected ==> reader == None
    }

    ghost function Value(): Link
      reads this
    {
      Link(state, reader, closedEvent, closeCalls)
    }

    constructor (decoder: FrameDecoder, onFrame: Option<Handler>)
      ensures Valid() && Value() == Link(Disconnected, None, false, 0)
      ensures streamIdCounter == 0 && sent == [] && delivered == []
      ensures this.decoder == decoder && this.onFrame == onFrame
    {
      this.decoder, this.onFrame := decoder, onFrame;
      state, reader, closedEvent, closeCalls := Disconnected, None, false, 0;
      streamIdCounter, sent, delivered := 0, [], [];
    }

    predicate IsConnected()
      reads this
    {
      state == Pending || state == Authenticating || state == Authenticated
    }

    method Connect(opening: Opening) returns (r: Result<()>)
      requires Valid()
      modifies this`state, this`reader, this`closedEvent
      ensures Valid()
      ensures r == if old(state) == Disconnected && opening.Opened? then Ok(()) else Err(NoConnection)
      ensures Value() == if r.Ok? then Link(Pending, Some(opening.incoming), false, old(closeCalls)) else old(Value())
    {
      if state != Disconnected {
        return Err(NoConnection);
      }
      match opening {
        case Opened(incoming) =>
          reader := Some(incoming);
          state := Pending;
          closedEvent := false;
          r := Ok(());
        case Unanswered =>
          r := Err(NoConnection);
        case Refused =>
          r := Err(NoConnection);
      }
    }

    method Close()
      modifies this`state, this`reader, this`closedEvent, this`closeCalls
      ensures Value() == CloseLink(old(Value()))
    {
      if state == Disconnected {
        return;
      }
      state := Closing;
      reader := None;
      state := Disconnected;
      closedEvent := true;
      closeCalls := closeCalls + 1;
    }

    /** `written` says whether the socket takes the bytes. */
    method SendFrame(frameData: bytes, written: bool) returns (r: Result<()>)
      modifies this`state, this`reader, this`closedEvent, this`closeCalls, this`sent
      ensures r == if old(reader).Some? && written then Ok(()) else Err(Error.Closed)
      ensures sent == if r.Ok? then old(sent) + frameData else old(sent)
      ensures Value() == if old(reader).Some? && !written then CloseLink(old(Value())) else old(Value())
    {
      if reader.None? {
        return Err(Error.Closed);
      }
      if !written {
        Close();
        return Err(Error.Closed);
      }
      sent := sent + frameData;
      r := Ok(());
    }

    /** `readexactly` under a timeout: at the end of the stream it drops what is left, at a timeout it keeps it. */
    method ReadExactly(n: nat) returns (r: Result<bytes>)
      requires reader.Some?
      modifies this`reader
      ensures var incoming := old(reader).value;
              && r == (if |incoming.data| >= n then Ok(incoming.data[..n])
                       else if incoming.silent then Err(TimedOut) else Err(EndOfData))
              && reader == Some(if |incoming.data| >= n then incoming.(data := incoming.data[n..])
                                else if incoming.silent then incoming else incoming.(data := []))
    {
      var incoming := reader.value;
      if |incoming.data| < n {
        if incoming.silent {
          return Err(TimedOut);
        }
        reader := Some(incoming.(data := []));
        return Err(EndOfData);
      }
      reader := Some(incoming.(data := incoming.data[n..]));
      r := Ok(incoming.data[..n]);
    }

    method ReadFrame() returns (r: Result<Frame>)
      requires Valid()
      modifies this`state, this`reader, this`closedEvent, this`closeCalls
      ensures Valid() && (r, Value()) == ReadFrom(decoder.msgpack, old(Value()))
    {
      hide HeaderFromBytes, DecodeFrame;
      if reader.None? {
        return Err(Error.Closed);
      }
      ghost var s := reader.value.data;
      var headerData := ReadExactly(HEADER_SIZE);
      if headerData.Err? {
        r := Interrupted(headerData.error);
        return;
      }
      var header := HeaderFromBytes(headerData.value);
      if header.Err? {
        Close();
        return Err(BadProtocol);
      }
      var frameData := headerData.value;
      if header.value.payloadLength > 0 {
        var payload := ReadExactly(header.value.payloadLength);
        if payload.Err? {
          r := Interrupted(payload.error);
          return;
        }
        frameData := frameData + payload.value;
      }
      assert frameData == s[..HEADER_SIZE + header.value.payloadLength];
      var frame := decoder.Decode(frameData);
      if frame.Err? {
        DecodeErrorsAreProtocolErrors(decoder.msgpack, frameData);
        Close();
      }
      r := frame;
    }

    /** The handlers of `read_frame` for a timeout and for the end of the stream. */
    method Interrupted(error: Error) returns (r: Result<Frame>)
      requires error == TimedOut || error == EndOfData
      modifies this`state, this`reader, this`closedEvent, this`closeCalls
      ensures r == Err(if error == TimedOut then NoConnection else Error.Closed)
      ensures Value() == if error == TimedOut then old(Value()) else CloseLink(old(Value()))
    {
      if error == TimedOut {
        return Err(NoConnection);
      }
      Close();
      r := Err(Error.Closed);
    }

    method ReadFrameLoop()
      requires Valid()
      modifies this`state, this`reader, this`closedEvent, this`closeCalls, this`delivered
      ensures Valid()
      ensures var (last, frames) := Serve(decoder.msgpack, onFrame, old(Value()), |old(delivered)|);
              Value() == last && delivered == old(delivered) + frames
    {
      hide ReadOne, ReadFrom;
      ghost var all := Serve(decoder.msgpack, onFrame, Value(), |delivered|);
      ghost var calls: seq<Frame> := [];
      assert calls + all.1 == all.1;
      var stopped := false;
      while !stopped && IsConnected()
        invariant Valid() && delivered == old(delivered) + calls
        invariant stopped ==> (Value(), calls) == all
        invariant !stopped ==>
          var (last, later) := Serve(decoder.msgpack, onFrame, Value(), |delivered|);
          all.0 == last && all.1 == calls + later
        decreases !stopped, Unread(Value())
      {
        ReadsShrink(decoder.msgpack, Value());
        assert calls + [] == calls;
        var frame := ReadFrame();
        if frame.Err? {
          if frame.error != Error.Closed {
            Close();
          }
          stopped := true;
        } else if onFrame.Some? {
          var reaction := onFrame.value(|delivered|, frame.value);
          ghost var later := Serve(decoder.msgpack, onFrame, Value(), |delivered| + 1).1;
          assert calls + ([frame.value] + later) == calls + [frame.value] + later;
          delivered, calls := delivered + [frame.value], calls + [frame.value];
          match reaction {
            case Returns =>
            case RaisesClosed =>
              stopped := true;
            case Raises =>
              Close();
              stopped := true;
          }
        }
      }
      assert calls + [] == calls;
    }

    method NextStreamId() returns (id: nat)
      modifies this`streamIdCounter
      ensures id == streamIdCounter == NextId(old(streamIdCounter))
    {
      streamIdCounter := streamIdCounter + 1;
      if streamIdCounter > MAX_STREAM_ID {
        streamIdCounter := 1;
      }
      id := streamIdCounter;
    }
  }

  lemma ReadsShrink(mp: Msgpack, l: Link)
    ensures ReadFrom(mp, l).0.Ok? ==> Unread(ReadFrom(mp, l).1) < Unread(l)
  {
  }

  function NextId(counter: nat): nat {
    if counter + 1 > MAX_STREAM_ID then 1 else counter + 1
  }

  /** The frames a handler is called with, after `n` calls: all, or those up to the first on which it raises. */
  function Heard(handler: Handler, n: nat, frames: seq<Frame>): seq<Frame>
    decreases |frames|
  {
    if |frames| == 0 then []
    else if handler(n, frames[0]) != Returns then [frames[0]]
    else [frames[0]] + Heard(handler, n + 1, frames[1..])
  }

  predicate EndsIn(handler: Handler, n: nat, frames: seq<Frame>, reaction: Reaction) {
    var heard := Heard(handler, n, frames);
    heard != [] && handler(n + |heard| - 1, heard[|heard| - 1]) == reaction
  }

  /** The handler raises on no frame, but perhaps on the last. */
  ghost predicate RaisesAtMostLast(handler: Handler, n: nat, frames: seq<Frame>) {
    forall i :: 0 <= i < |frames| - 1 ==> handler(n + i, frames[i]) == Returns
  }

  /** Exactly then it hears everything. */
  lemma {:induction false} HearsAll(handler: Handler, n: nat, frames: seq<Frame>)
    ensures Heard(handler, n, frames) == frames <==> RaisesAtMostLast(handler, n, frames)
    decreases |frames|
  {
    if |frames| > 0 {
      var others := frames[1..];
      hide Heard, RaisesAtMostLast;
      HearsAll(handler, n + 1, others);
      HearsFirst(handler, n, frames);
      RaisesFirst(handler, n, frames);
    }
  }

  lemma HearsFirst(handler: Handler, n: nat, frames: seq<Frame>)
    requires |frames| > 0
    ensures Heard(handler, n, frames) == frames
       <==> |frames| == 1 || (handler(n, frames[0]) == Returns && Heard(handler, n + 1, frames[1..]) == frames[1..])
  {
    var others := Heard(handler, n + 1, frames[1..]);
    assert frames == [frames[0]] + frames[1..] && ([frames[0]] + others)[1..] == others;
    assert [frames[0]] == frames <==> |frames| == 1;
    assert |frames| == 1 ==> others == [];
  }

  lemma RaisesFirst(handler: Handler, n: nat, frames: seq<Frame>)
    requires |frames| > 0
    ensures RaisesAtMostLast(handler, n, frames)
       <==> |frames| == 1 || (handler(n, frames[0]) == Returns && RaisesAtMostLast(handler, n + 1, frames[1..]))
  {
    var others := frames[1..];
    if |frames| > 1 && RaisesAtMostLast(handler, n, frames) {
      assert handler(n + 0, frames[0]) == Returns;
      forall i | 0 <= i < |others| - 1 ensures handler(n + 1 + i, others[i]) == Returns {
        assert handler(n + (i + 1), frames[i + 1]) == Returns;
      }
    }
    if handler(n, frames[0]) == Returns && RaisesAtMostLast(handler, n + 1, others) {
      forall i | 0 <= i < |frames| - 1 ensures handler(n + i, frames[i]) == Returns {
        if i > 0 {
          assert handler(n + 1 + (i - 1), others[i - 1]) == Returns;
        }
      }
    }
  }

  /** The read loop calls the handler with exactly the frames of the stream, in order, up to the first on which
      it raises.  It ends disconnected, with one call of the close handler, unless what the handler raised was a
      ConnectionClosedError: then the connection stays open. */
  lemma {:induction false} ServeDelivers(mp: Msgpack, onFrame: Option<Handler>, l: Link, n: nat)
    requires (l.state == Pending || l.state == Authenticating || l.state == Authenticated) && l.reader.Some?
    ensures var (last, heard) := Serve(mp, onFrame, l, n);
            var frames := ReadAll(mp, l.reader.value.data).frames;
            && heard == (if onFrame.None? then [] else Heard(onFrame.value, n, frames))
            && if onFrame.Some? && EndsIn(onFrame.value, n, frames, RaisesClosed)
               then last.state == l.state && last.closeCalls == l.closeCalls && last.reader.Some?
               else last == Link(Disconnected, None, true, l.closeCalls + 1)
    decreases Unread(l)
  {
    var data := l.reader.value.data;
    var frames := ReadAll(mp, data).frames;
    ReadAllStep(mp, data);
    hide ReadOne, ReadAll, Heard, EndsIn;
    match ReadOne(mp, data) {
      case Got(frame, rest) =>
        var after := l.(reader := Some(l.reader.value.(data := rest)));
        assert frames[0] == frame && frames[1..] == ReadAll(mp, rest).frames;
        if onFrame.None? {
          ServeDelivers(mp, onFrame, after, n);
        } else {
          HeardStep(onFrame.value, n, frames);
          if onFrame.value(n, frame) == Returns {
            ServeDelivers(mp, onFrame, after, n + 1);
          }
        }
      case _ =>
        if onFrame.Some? {
          HeardNone(onFrame.value, n);
        }
    }
  }

  lemma ReadAllStep(mp: Msgpack, data: bytes)
    ensures ReadAll(mp, data).frames
         == match ReadOne(mp, data)
            case Got(frame, rest) => [frame] + ReadAll(mp, rest).frames
            case _ => []
  {
    hide ReadOne;
  }

  lemma HeardNone(handler: Handler, n: nat)
    ensures Heard(handler, n, []) == [] && !EndsIn(handler, n, [], RaisesClosed)
  {
  }

  lemma HeardStep(handler: Handler, n: nat, frames: seq<Frame>)
    requires |frames| > 0
    ensures Heard(handler, n, frames)
         == [frames[0]] + if handler(n, frames[0]) == Returns then Heard(handler, n + 1, frames[1..]) else []
    ensures EndsIn(handler, n, frames, RaisesClosed)
       <==> if handler(n, frames[0]) == Returns then EndsIn(handler, n + 1, frames[1..], RaisesClosed)
            else handler(n, frames[0]) == RaisesClosed
  {
    var later := Heard(handler, n + 1, frames[1..]);
    assert [frames[0]] + [] == [frames[0]];
    assert later != [] ==> ([frames[0]] + later)[|later|] == later[|later| - 1];
  }

  lemma DecodeErrorsAreProtocolErrors(mp: Msgpack, data: bytes)
    ensures DecodeFrame(mp, data).Err? && |data| >= HEADER_SIZE ==> DecodeFrame(mp, data) == Err(BadProtocol)
  {
    if |data| >= HEADER_SIZE {
      HeaderFieldsSucceed(data[..HEADER_SIZE]);
    }
  }

  lemma HeaderFieldsSucceed(data: bytes)
    requires |data| == HEADER_SIZE
    ensures HeaderFields(data).Ok?
  {
  }

  // ---------------------------------------------------------------- whole streams

  lemma HeaderReadsFromPrefix(data: bytes, more: bytes)
    requires |data| >= HEADER_SIZE
    ensures HeaderFromBytes(data + more) == HeaderFromBytes(data) == HeaderFromBytes(data[..HEADER_SIZE])
  {
    assert (data + more)[..HEADER_SIZE] == data[..HEADER_SIZE] == data[..HEADER_SIZE][..HEADER_SIZE];
  }

  /** Bytes that arrive after a complete frame do not change what it is read as. */
  lemma ReadOneExtends(mp: Msgpack, s: bytes, more: bytes)
    ensures match ReadOne(mp, s)
            case Got(frame, rest) => ReadOne(mp, s + more) == Got(frame, rest + more)
            case Malformed => ReadOne(mp, s + more) == Malformed
            case Hangup => true
  {
    hide DecodeFrame, HeaderFromBytes;
    if |s| >= HEADER_SIZE {
      assert (s + more)[..HEADER_SIZE] == s[..HEADER_SIZE];
      var header := HeaderFromBytes(s[..HEADER_SIZE]);
      if header.Ok? && |s| >= HEADER_SIZE + header.value.payloadLength {
        var size := HEADER_SIZE + header.value.payloadLength;
        assert (s + more)[..size] == s[..size] && (s + more)[size..] == s[size..] + more;
      }
    }
  }

  /** Where the stream is cut does not matter: what a first part delivers, and then what its leftover
      followed by the second part delivers, is what the whole delivers. */
  lemma {:induction false} ReadAllResumes(mp: Msgpack, s: bytes, more: bytes)
    requires !ReadAll(mp, s).malformed
    ensures var first := ReadAll(mp, s);
            var second := ReadAll(mp, first.leftover + more);
            ReadAll(mp, s + more) == Session(first.frames + second.frames, second.malformed, second.leftover)
    decreases |s|
  {
    hide ReadOne;
    ReadOneExtends(mp, s, more);
    match ReadOne(mp, s) {
      case Hangup =>
      case Got(frame, rest) => ReadAllResumes(mp, rest, more);
    }
  }

  /** An encoded frame announces its own length. */
  lemma EncodedHeader(mp: Msgpack, clientVersion: bytes, r: Request)
    requires EncodeFrame(mp, clientVersion, r).Ok?
    ensures var data := EncodeFrame(mp, clientVersion, r).value;
            && |data| >= HEADER_SIZE
            && HeaderFromBytes(data[..HEADER_SIZE]) == Ok(FrameHeader(r, |data| - HEADER_SIZE))
  {
    var data := EncodeFrame(mp, clientVersion, r).value;
    var tail := BlockBytes(r) + PayloadBytes(mp.pack(Merged(clientVersion, r)).value, r.body);
    HeaderRoundTrip(FrameHeader(r, |tail|), tail);
    HeaderReadsFromPrefix(data, []);
    assert data + [] == data;
    hide HeaderFromBytes, HeaderToBytes, BlockBytes, PayloadBytes;
  }

  lemma ReadOneEncoded(mp: Msgpack, clientVersion: bytes, r: Request, more: bytes)
    requires mp.Lawful() && EncodeFrame(mp, clientVersion, r).Ok?
    ensures var reading := ReadOne(mp, EncodeFrame(mp, clientVersion, r).value + more);
            match reading
            case Got(frame, rest) =>
              rest == more && (frame == Intended(mp, clientVersion, r) <==> !StrayGovernanceFlag(r))
            case Malformed => StrayGovernanceFlag(r)
            case Hangup => false
  {
    var data := EncodeFrame(mp, clientVersion, r).value;
    EncodedHeader(mp, clientVersion, r);
    FrameRoundTrip(mp, clientVersion, r);
    hide HeaderFromBytes, DecodeFrame, EncodeFrame, StrayGovernanceFlag, Msgpack.Lawful;
    assert (data + more)[..HEADER_SIZE] == data[..HEADER_SIZE];
    assert (data + more)[..|data|] == data && (data + more)[|data|..] == more;
  }

  ghost predicate AllEncode(mp: Msgpack, clientVersion: bytes, rs: seq<Request>) {
    forall r :: r in rs ==> EncodeFrame(mp, clientVersion, r).Ok?
  }

  ghost function EncodeAll(mp: Msgpack, clientVersion: bytes, rs: seq<Request>): bytes
    requires AllEncode(mp, clientVersion, rs)
  {
    if |rs| == 0 then [] else EncodeFrame(mp, clientVersion, rs[0]).value + EncodeAll(mp, clientVersion, rs[1..])
  }

  ghost function IntendedAll(mp: Msgpack, clientVersion: bytes, rs: seq<Request>): seq<Frame>
    requires AllEncode(mp, clientVersion, rs)
  {
    if |rs| == 0 then [] else [Intended(mp, clientVersion, rs[0])] + IntendedAll(mp, clientVersion, rs[1..])
  }

  lemma ReadAllEncoded(mp: Msgpack, clientVersion: bytes, r: Request, more: bytes)
    requires mp.Lawful() && EncodeFrame(mp, clientVersion, r).Ok?
    ensures var session := ReadAll(mp, EncodeFrame(mp, clientVersion, r).value + more);
            var later := ReadAll(mp, more);
            if StrayGovernanceFlag(r) then
              |session.frames| == 0 || session.frames[0] != Intended(mp, clientVersion, r)
            else
              session == later.(frames := [Intended(mp, clientVersion, r)] + later.frames)
  {
    hide ReadOne, EncodeFrame, Intended, StrayGovernanceFlag;
    ReadOneEncoded(mp, clientVersion, r, more);
  }

  ghost predicate NoStrayFlags(rs: seq<Request>) {
    forall r :: r in rs ==> !StrayGovernanceFlag(r)
  }

  lemma FirstAndRest(mp: Msgpack, clientVersion: bytes, rs: seq<Request>)
    requires |rs| > 0 && AllEncode(mp, clientVersion, rs)
    ensures EncodeFrame(mp, clientVersion, rs[0]).Ok? && AllEncode(mp, clientVersion, rs[1..])
    ensures NoStrayFlags(rs) <==> !StrayGovernanceFlag(rs[0]) && NoStrayFlags(rs[1..])
  {
    hide EncodeFrame, StrayGovernanceFlag;
    assert rs == [rs[0]] + rs[1..];
  }

  /** Any list of frames written back to back is read back as exactly those frames with nothing left
      over, if and only if no frame carries a stray governance flag. */
  lemma {:induction false} StreamRoundTrip(mp: Msgpack, clientVersion: bytes, rs: seq<Request>)
    requires mp.Lawful() && AllEncode(mp, clientVersion, rs)
    ensures ReadAll(mp, EncodeAll(mp, clientVersion, rs)) == Session(IntendedAll(mp, clientVersion, rs), false, [])
       <==> NoStrayFlags(rs)
  {
    if |rs| > 0 {
      hide ReadAll, EncodeFrame, Intended, StrayGovernanceFlag, NoStrayFlags, AllEncode, Msgpack.Lawful;
      FirstAndRest(mp, clientVersion, rs);
      var first, rest := Intended(mp, clientVersion, rs[0]), EncodeAll(mp, clientVersion, rs[1..]);
      ReadAllEncoded(mp, clientVersion, rs[0], rest);
      StreamRoundTrip(mp, clientVersion, rs[1..]);
      var later, frames := ReadAll(mp, rest), IntendedAll(mp, clientVersion, rs[1..]);
      assert ([first] + later.frames)[1..] == later.frames && ([first] + frames)[1..] == frames;
    }
  }

  lemma EncodedPrefixHangs(mp: Msgpack, clientVersion: bytes, r: Request, n: nat)
    requires EncodeFrame(mp, clientVersion, r).Ok?
    requires n < |EncodeFrame(mp, clientVersion, r).value|
    ensures ReadOne(mp, EncodeFrame(mp, clientVersion, r).value[..n]) == Hangup
  {
    var data := EncodeFrame(mp, clientVersion, r).value;
    EncodedHeader(mp, clientVersion, r);
    hide HeaderFromBytes, DecodeFrame, EncodeFrame;
    if n >= HEADER_SIZE {
      assert data[..n][..HEADER_SIZE] == data[..HEADER_SIZE];
    }
  }

  /** No proper prefix of an encoded frame is taken for a frame, or for a malformed one: the reader waits. */
  lemma {:induction false} EncodedPrefixWaits(mp: Msgpack, clientVersion: bytes, r: Request, n: nat)
    requires EncodeFrame(mp, clientVersion, r).Ok?
    requires n < |EncodeFrame(mp, clientVersion, r).value|
    ensures ReadAll(mp, EncodeFrame(mp, clientVersion, r).value[..n])
         == Session([], false, EncodeFrame(mp, clientVersion, r).value[..n])
  {
    EncodedPrefixHangs(mp, clientVersion, r, n);
    hide ReadOne, EncodeFrame;
  }

  lemma ReadsOwnHeader(mp: Msgpack, s: bytes)
    requires ReadOne(mp, s).Got?
    ensures HEADER_SIZE + ReadOne(mp, s).frame.header.payloadLength <= |s|
  {
    var header := HeaderFromBytes(s[..HEADER_SIZE]).value;
    var taken := s[..HEADER_SIZE + header.payloadLength];
    HeaderReadsFromPrefix(taken, []);
    DecodedHeader(mp, taken);
    hide HeaderFromBytes, DecodeFrame;
    assert taken + [] == taken && taken[..HEADER_SIZE] == s[..HEADER_SIZE];
  }

  lemma DecodedHeader(mp: Msgpack, data: bytes)
    ensures DecodeFrame(mp, data).Ok? ==>
      HeaderFromBytes(data).Ok? && DecodeFrame(mp, data).value.header == HeaderFromBytes(data).value
  {
    hide HeaderFromBytes, TakePrefixed;
  }

  /** A read that times out leaves the connection open, with its header lost if the timeout fell inside the payload. */
  lemma TimeoutKeepsOpen(mp: Msgpack, l: Link)
    requires l.reader.Some? && l.reader.value.silent && ReadOne(mp, l.reader.value.data) == Hangup
    ensures ReadFrom(mp, l)
         == (Err(NoConnection), l.(reader := Some(Incoming(AfterTimeout(l.reader.value.data), true))))
  {
  }

  /** Any other read that fails closes the connection, and one that delivers leaves it as it is. */
  lemma ReadCloses(mp: Msgpack, l: Link)
    requires l.reader.Some? && l.state != Disconnected
    ensures var (r, after) := ReadFrom(mp, l);
            match ReadOne(mp, l.reader.value.data)
            case Got(frame, rest) =>
              r == Ok(frame) && after == l.(reader := Some(Incoming(rest, l.reader.value.silent)))
            case Malformed => r == Err(BadProtocol) && after == Link(Disconnected, None, true, l.closeCalls + 1)
            case Hangup =>
              !l.reader.value.silent ==>
                r == Err(Error.Closed) && after == Link(Disconnected, None, true, l.closeCalls + 1)
  {
    hide ReadOne;
  }

  /** More bytes arrive. */
  function WithMore(l: Link, more: bytes): Link
    requires l.reader.Some?
  {
    l.(reader := Some(l.reader.value.(data := l.reader.value.data + more)))
  }

  /** Two reads of one connection.  The first times out in a frame and leaves the connection open; if the rest of the
      frame then comes, the second delivers it exactly when the timeout fell inside the header. */
  lemma LateFrame(mp: Msgpack, clientVersion: bytes, r: Request, n: nat, l: Link)
    requires mp.Lawful() && EncodeFrame(mp, clientVersion, r).Ok? && !StrayGovernanceFlag(r)
    requires n < |EncodeFrame(mp, clientVersion, r).value|
    requires l.reader == Some(Incoming(EncodeFrame(mp, clientVersion, r).value[..n], true))
    ensures var (first, after) := ReadFrom(mp, l);
            && first == Err(NoConnection) && after.state == l.state && after.reader.Some?
            && (ReadFrom(mp, WithMore(after, EncodeFrame(mp, clientVersion, r).value[n..]))
                  == (Ok(Intended(mp, clientVersion, r)), l.(reader := Some(Incoming([], true))))
                <==> n < HEADER_SIZE)
  {
    var data := EncodeFrame(mp, clientVersion, r).value;
    EncodedPrefixHangs(mp, clientVersion, r, n);
    TimeoutKeepsOpen(mp, l);
    WholeFrameRead(mp, clientVersion, r);
    PayloadIsOtherFrame(mp, clientVersion, r);
    Rejoined(data, n);
    var more := WithMore(ReadFrom(mp, l).1, data[n..]);
    assert more.reader == Some(Incoming(if n < HEADER_SIZE then data else data[HEADER_SIZE..], true));
    ReadsWhole(mp, more, Intended(mp, clientVersion, r));
    hide ReadOne, ReadFrom, EncodeFrame, Intended, StrayGovernanceFlag, Msgpack.Lawful, AfterTimeout;
  }

  /** A read delivers a frame and uses up what has arrived exactly if that is the frame's bytes. */
  lemma ReadsWhole(mp: Msgpack, l: Link, frame: Frame)
    requires l.reader.Some?
    ensures ReadFrom(mp, l) == (Ok(frame), l.(reader := Some(l.reader.value.(data := []))))
       <==> ReadOne(mp, l.reader.value.data) == Got(frame, [])
  {
    hide ReadOne;
  }

  lemma Rejoined(data: bytes, n: nat)
    requires n <= |data|
    ensures AfterTimeout(data[..n]) + data[n..] == if n < HEADER_SIZE then data else data[HEADER_SIZE..]
  {
  }

  lemma WholeFrameRead(mp: Msgpack, clientVersion: bytes, r: Request)
    requires mp.Lawful() && EncodeFrame(mp, clientVersion, r).Ok? && !StrayGovernanceFlag(r)
    ensures ReadOne(mp, EncodeFrame(mp, clientVersion, r).value) == Got(Intended(mp, clientVersion, r), [])
  {
    ReadOneEncoded(mp, clientVersion, r, []);
    hide ReadOne, EncodeFrame, Intended, StrayGovernanceFlag, Msgpack.Lawful;
    assert EncodeFrame(mp, clientVersion, r).value + [] == EncodeFrame(mp, clientVersion, r).value;
  }

  lemma PayloadIsOtherFrame(mp: Msgpack, clientVersion: bytes, r: Request)
    requires EncodeFrame(mp, clientVersion, r).Ok?
    ensures var data := EncodeFrame(mp, clientVersion, r).value;
            |data| >= HEADER_SIZE && ReadOne(mp, data[HEADER_SIZE..]) != Got(Intended(mp, clientVersion, r), [])
  {
    var data := EncodeFrame(mp, clientVersion, r).value;
    EncodedHeader(mp, clientVersion, r);
    hide ReadOne, EncodeFrame;
    if ReadOne(mp, data[HEADER_SIZE..]).Got? {
      ReadsOwnHeader(mp, data[HEADER_SIZE..]);
    }
  }
}
