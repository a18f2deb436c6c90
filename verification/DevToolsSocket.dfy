/** The client object: a receive buffer filled by arbitrary splits of the peer's stream. Every
    method is proved against the stream alone, so no split can change a result. */
module DevTools {
  import opened Wrappers
  import opened WebSocketFrames
  import opened WebSocketMessages

  const HEADER_LIMIT := 16384
  const RECV_SIZE := 4096

  datatype Result<+T> = Ok(value: T) | Raised(fault: Fault)

  datatype Headers = HeadersEnd(bytes: seq<Byte>) | HeadersTooLong | HeadersClosed

  /** The blank line that ends the headers ends at `e`. */
  predicate EndsAt(s: seq<Byte>, e: nat) {
    4 <= e <= |s| && s[e - 4] == 13 && s[e - 3] == 10 && s[e - 2] == 13 && s[e - 1] == 10
  }

  /** `find`, as the end of the first blank line. */
  function FindEnd(s: seq<Byte>, from: nat): (e: Option<nat>)
    ensures e.Some? ==> EndsAt(s, e.value) && from <= e.value && (forall d :: from <= d < e.value ==> !EndsAt(s, d))
    ensures e.None? ==> forall d :: from <= d ==> !EndsAt(s, d)
    decreases |s| - from
  {
    if from > |s| then None
    else if EndsAt(s, from) then Some(from)
    else FindEnd(s, from + 1)
  }

  /** No blank line ends at or before `upTo`. */
  ghost predicate NoEnd(s: seq<Byte>, upTo: int) {
    forall d: nat :: d <= upTo ==> !EndsAt(s, d)
  }

  lemma FoundInPrefix(data: seq<Byte>, more: seq<Byte>)
    requires FindEnd(data, 0).Some?
    ensures var e := FindEnd(data, 0).value; EndsAt(data + more, e) && NoEnd(data + more, e - 1)
  {
    var e := FindEnd(data, 0).value;
    forall d: nat | d <= e - 1 ensures !EndsAt(data + more, d) {
      assert !EndsAt(data, d);
    }
  }

  lemma Rejoin(data: seq<Byte>, e: nat, more: seq<Byte>)
    requires e <= |data|
    ensures data[..e] + (([] + data[e..]) + more) == data + more
  {
  }

  lemma Shift(data: seq<Byte>, chunk: seq<Byte>, more: seq<Byte>)
    ensures (data + chunk) + more == data + (chunk + more)
  {
  }

  lemma NotInPrefix(data: seq<Byte>, more: seq<Byte>)
    requires FindEnd(data, 0).None?
    ensures NoEnd(data + more, |data|)
  {
    forall d: nat | d <= |data| ensures !EndsAt(data + more, d) {
      assert !EndsAt(data, d);
    }
  }

  /** Every reply went out as one frame that the peer reads back whole. */
  ghost predicate Answered(before: seq<seq<Byte>>, after: seq<seq<Byte>>, replies: seq<Frame>) {
    && |after| == |before| + |replies| && after[..|before|] == before
    && (forall i :: 0 <= i < |replies| ==> ReadFrame(after[|before| + i], true) == Got(replies[i], []))
  }

  function Preceded(replies: seq<Frame>, o: Outcome): Outcome {
    match o
    case Message(p, more, rest) => Message(p, replies + more, rest)
    case Failure(fault, more) => Failure(fault, replies + more)
  }

  lemma AnsweredMore(before: seq<seq<Byte>>, mid: seq<seq<Byte>>, after: seq<seq<Byte>>, done: seq<Frame>, f: Frame)
    requires Answered(before, mid, done) && Answered(mid, after, [f])
    ensures Answered(before, after, done + [f])
  {
    forall i | 0 <= i < |done| + 1
      ensures ReadFrame(after[|before| + i], true) == Got((done + [f])[i], [])
    {
      if i < |done| {
        assert after[|before| + i] == mid[|before| + i];
      } else {
        assert after[|mid| + 0] == after[|before| + i] && [f][0] == (done + [f])[i];
      }
    }
    assert after[..|before|] == mid[..|before|];
  }

  lemma PrecededAfter(done: seq<Frame>, f: Frame, o: Outcome)
    ensures Preceded(done, o.After(f)) == Preceded(done + [f], o)
  {
    if o.Message? {
      assert done + ([f] + o.replies) == (done + [f]) + o.replies;
    } else {
      assert done + ([f] + o.replies) == (done + [f]) + o.replies;
    }
  }

  /** How reading a message ends: the first `answered` replies have gone out. If they are all, the
      result and the rest of the stream are those of `m`; if `sendall` raised on the next one, that
      is the result, unless it was the reply to a close frame. */
  ghost predicate Told(m: Outcome, r: Result<seq<Byte>>, answered: nat, before: seq<seq<Byte>>, after: seq<seq<Byte>>,
                       pending: seq<Byte>)
  {
    && answered <= |m.replies| && Answered(before, after, m.replies[..answered])
    && (if answered < |m.replies|
        then r == Raised(if m.replies[answered].opcode == 8 then PeerClosed else SendFailed)
        else (m.Message? ==> r == Ok(m.payload) && pending == m.rest) && (m.Failure? ==> r == Raised(m.fault)))
  }

  lemma ToldAll(done: seq<Frame>, o: Outcome, r: Result<seq<Byte>>, before: seq<seq<Byte>>, after: seq<seq<Byte>>,
                pending: seq<Byte>)
    requires o.replies == [] && Answered(before, after, done)
    requires o.Message? ==> r == Ok(o.payload) && pending == o.rest
    requires o.Failure? ==> r == Raised(o.fault)
    ensures Told(Preceded(done, o), r, |done|, before, after, pending)
  {
    assert done + [] == done && done[..|done|] == done;
  }

  lemma ToldSome(done: seq<Frame>, o: Outcome, r: Result<seq<Byte>>, before: seq<seq<Byte>>, after: seq<seq<Byte>>,
                 pending: seq<Byte>)
    requires o.replies != [] && Answered(before, after, done)
    requires r == Raised(if o.replies[0].opcode == 8 then PeerClosed else SendFailed)
    ensures Told(Preceded(done, o), r, |done|, before, after, pending)
  {
    assert (done + o.replies)[..|done|] == done;
  }

  lemma ToldClose(done: seq<Frame>, f: Frame, before: seq<seq<Byte>>, after: seq<seq<Byte>>, pending: seq<Byte>)
    requires Answered(before, after, done + [f])
    ensures Told(Preceded(done, Failure(PeerClosed, [f])), Raised(PeerClosed), |done| + 1, before, after, pending)
  {
    assert (done + [f])[..|done| + 1] == done + [f];
  }

  lemma ControlIsShort(s: seq<Byte>)
    ensures Receive(s).Got? && Control(Receive(s).frame.opcode) ==> |Receive(s).frame.payload| <= 125
  {
  }

  class DevToolsSocket {
    var buffer: seq<Byte>
    /** What the peer will still deliver before it closes. */
    var wire: seq<Byte>
    var sent: seq<seq<Byte>>
    /** In a calm world no `sendall` raises. */
    const calm: bool

    ghost function Pending(): seq<Byte>
      reads this
    {
      buffer + wire
    }

    constructor (wire: seq<Byte>, calm: bool)
      ensures Pending() == wire && buffer == [] && sent == [] && this.calm == calm
    {
      this.buffer, this.wire, this.sent, this.calm := [], wire, [], calm;
    }

    /** `socket.recv`: any non-empty piece up to `max` bytes, or nothing once the peer has closed. */
    method Recv(max: nat) returns (chunk: seq<Byte>)
      requires max > 0
      modifies `wire
      ensures chunk + wire == old(wire) && |chunk| <= max
      ensures chunk == [] <==> old(wire) == []
    {
      if wire == [] { return []; }
      var k: nat :| 1 <= k <= max && k <= |wire|;
      chunk := wire[..k];
      wire := wire[k..];
    }

    /** `_read_http_headers`: the headers up to the first blank line, and not one byte lost. */
    method ReadHttpHeaders() returns (r: Headers)
      requires buffer == []
      modifies `buffer, `wire
      ensures r.HeadersEnd? ==>
                && EndsAt(old(wire), |r.bytes|) && NoEnd(old(wire), |r.bytes| - 1)
                && |r.bytes| <= HEADER_LIMIT && r.bytes + Pending() == old(wire)
      ensures r.HeadersTooLong? ==> |old(wire)| >= HEADER_LIMIT && NoEnd(old(wire), HEADER_LIMIT)
      ensures r.HeadersClosed? ==> |old(wire)| < HEADER_LIMIT && NoEnd(old(wire), |old(wire)|)
    {
      var data: seq<Byte> := [];
      while true
        invariant data + wire == old(wire) && |data| <= HEADER_LIMIT && buffer == []
        decreases |wire|
      {
        var end := FindEnd(data, 0);
        if end.Some? {
          FoundInPrefix(data, wire);
          Rejoin(data, end.value, wire);
          buffer := buffer + data[end.value..];
          return HeadersEnd(data[..end.value]);
        }
        NotInPrefix(data, wire);
        if |data| >= HEADER_LIMIT { return HeadersTooLong; }
        var chunk := Recv(if RECV_SIZE < HEADER_LIMIT - |data| then RECV_SIZE else HEADER_LIMIT - |data|);
        if chunk == [] { return HeadersClosed; }
        Shift(data, chunk, wire);
        data := data + chunk;
      }
    }

    /** At most `max` bytes from the front of the buffer. */
    method TakeBuffered(max: nat) returns (piece: seq<Byte>)
      requires buffer != [] && max > 0
      modifies `buffer
      ensures piece + Pending() == old(Pending()) && 0 < |piece| <= max
    {
      var take := if max < |buffer| then max else |buffer|;
      piece := buffer[..take];
      buffer := buffer[take..];
      assert piece + buffer == old(buffer);
    }

    /** `_receive_exact`: exactly the next `size` bytes, from the buffer first. */
    method ReceiveExact(size: nat) returns (r: Result<seq<Byte>>)
      modifies `buffer, `wire
      ensures |old(Pending())| >= size ==>
                r == Ok(old(Pending())[..size]) && Pending() == old(Pending())[size..]
      ensures |old(Pending())| < size ==> r == Raised(Closed)
    {
      ghost var stream := Pending();
      var result: seq<Byte> := [];
      while |result| < size
        invariant result + Pending() == stream && |result| <= size
        decreases |Pending()|
      {
        if buffer != [] {
          var piece := TakeBuffered(size - |result|);
          result := result + piece;
        } else {
          var chunk := Recv(if size - |result| < FRAME_LIMIT then size - |result| else FRAME_LIMIT);
          if chunk == [] { return Raised(Closed); }
          result := result + chunk;
        }
      }
      assert result == stream[..size] && Pending() == stream[size..];
      return Ok(result);
    }

    /** The length field of a frame, whose second byte has been read already. */
    method ReceiveLength(second: Byte) returns (r: Result<nat>)
      modifies `buffer, `wire
      ensures var l := ReadLength([second] + old(Pending()));
              if l.NoLength? then r == Raised(l.fault)
              else r == Ok(l.value) && 1 <= l.size <= |old(Pending())| + 1
                   && Pending() == ([second] + old(Pending()))[l.size..]
    {
      ghost var s := [second] + Pending();
      var code := (second & 0x7F) as nat;
      if code < 126 {
        assert s[1..] == Pending();
        return Ok(code);
      }
      LowBits(second);
      var size := if code == 126 then 2 else 8;
      var b := ReceiveExact(size);
      if b.Raised? { return Raised(b.fault); }
      assert s[1..1 + size] == b.value && s[1 + size..] == Pending();
      var n := FromBytes(b.value);
      if code == 126 {
        if n < 126 { return Raised(NonMinimalLength); }
      } else {
        if n >= 0x8000_0000_0000_0000 { return Raised(BadLength); }
        if n < 65536 { return Raised(NonMinimalLength); }
      }
      return Ok(n);
    }

    /** `_receive_frame`: the next frame of the stream, or the fault that `Receive` finds in it. */
    method ReceiveFrame() returns (r: Result<Frame>)
      modifies `buffer, `wire
      ensures var p := Receive(old(Pending()));
              if p.Bad? then r == Raised(p.fault) else r == Ok(p.frame) && Pending() == p.rest
    {
      ghost var s := Pending();
      var header := ReceiveExact(2);
      if header.Raised? { return Raised(header.fault); }
      assert s[1..] == [s[1]] + s[2..];
      r := ReceiveRest(header.value[0], header.value[1], s);
    }

    /** The frame `s`, whose first two bytes have been read. */
    method ReceiveRest(first: Byte, second: Byte, ghost s: seq<Byte>) returns (r: Result<Frame>)
      requires |s| >= 2 && s[0] == first && s[1] == second && s[1..] == [second] + Pending()
      modifies `buffer, `wire
      ensures var p := Receive(s);
              if p.Bad? then r == Raised(p.fault) else r == Ok(p.frame) && Pending() == p.rest
    {
      var fin := first & 0x80 != 0;
      if first & 0x70 != 0 { return Raised(ReservedBit); }
      var opcode := first & 0x0F;
      if !LegalOpcode(opcode) { return Raised(BadOpcode); }
      if second & 0x80 != 0 { return Raised(MaskBit); }
      r := ReceiveSized(fin, opcode, second, s);
      if r.Ok? && opcode == 8 && !CloseOk(r.value.payload) { return Raised(BadClose); }
    }

    /** The frame `s` from its length on. */
    method ReceiveSized(fin: bool, opcode: Byte, second: Byte, ghost s: seq<Byte>) returns (r: Result<Frame>)
      requires |s| >= 2 && s[1..] == [second] + Pending()
      modifies `buffer, `wire
      ensures var p := ReadSized(s, false, fin, opcode);
              if p.Bad? then r == Raised(p.fault) else r == Ok(p.frame) && Pending() == p.rest
    {
      ghost var l := ReadLength(s[1..]);
      var length := ReceiveLength(second);
      if length.Raised? { return Raised(length.fault); }
      if length.value > FRAME_LIMIT { return Raised(FrameTooLong); }
      if Control(opcode) && (!fin || length.value > 125) { return Raised(BadControlFrame); }
      assert Pending() == s[1 + l.size..];
      r := ReceivePayload(fin, opcode, length.value, s, 1 + l.size);
    }

    method ReceivePayload(fin: bool, opcode: Byte, length: nat, ghost s: seq<Byte>, ghost h: nat)
      returns (r: Result<Frame>)
      requires h <= |s| && Pending() == s[h..]
      modifies `buffer, `wire
      ensures var p := ReadPayload(s, false, fin, opcode, h, length);
              if p.Bad? then r == Raised(p.fault) else r == Ok(p.frame) && Pending() == p.rest
    {
      var payload := ReceiveExact(length);
      if payload.Raised? { return Raised(payload.fault); }
      assert s[h..][..length] == s[h..h + length] && s[h..][length..] == s[h + length..];
      return Ok(Frame(fin, opcode, payload.value));
    }

    /** Send one masked control frame; false when `sendall` raises. */
    method Reply(opcode: Byte, payload: seq<Byte>) returns (ok: bool)
      requires LegalOpcode(opcode) && |payload| <= 125
      modifies `sent
      ensures Answered(old(sent), sent, if ok then [Frame(true, opcode, payload)] else [])
      ensures calm ==> ok
    {
      ok := *;
      if !ok && !calm { return; }
      ok := true;
      var a: Byte, b: Byte, c: Byte, d: Byte := *, *, *, *;
      var key := [a, b, c, d];
      var frame := ClientFrame(payload, opcode, key);
      ClientFrameRoundTrip(payload, opcode, key, []);
      assert frame.value + [] == frame.value;
      sent := sent + [frame.value];
    }

    /** A data frame: the end of the message, a fault, or one more fragment (`None`). */
    method TakeData(f: Frame, before: seq<Byte>, begun: Option<Byte>, ghost fr: Frames)
      returns (r: Option<Result<seq<Byte>>>, fragments: seq<Byte>, kind: Option<Byte>)
      requires fr.More? && fr.frame == f && !Control(f.opcode)
      ensures Assemble(fr, before, begun)
              == match r
                 case None => Assemble(fr.next, fragments, kind)
                 case Some(Ok(message)) => Message(message, [], fr.rest)
                 case Some(Raised(fault)) => Failure(fault, [])
    {
      fragments, kind, r := before, begun, None;
      if f.opcode == 0 {
        if kind.None? { r := Some(Raised(StrayContinuation)); return; }
      } else {
        if kind.Some? { r := Some(Raised(NestedMessage)); return; }
        kind := Some(f.opcode);
      }
      if |fragments| + |f.payload| > FRAME_LIMIT { r := Some(Raised(MessageTooLong)); return; }
      fragments := fragments + f.payload;
      if f.fin {
        r := Some(if kind != Some(1) then Raised(NotText) else Ok(fragments));
      }
    }

    /** One more reply, after the ones already sent. */
    method Answer(opcode: Byte, payload: seq<Byte>, ghost before: seq<seq<Byte>>, ghost done: seq<Frame>) returns (ok: bool)
      requires LegalOpcode(opcode) && |payload| <= 125 && Answered(before, sent, done)
      modifies `sent
      ensures Answered(before, sent, if ok then done + [Frame(true, opcode, payload)] else done)
      ensures calm ==> ok
    {
      ghost var mid := sent;
      ok := Reply(opcode, payload);
      if ok {
        AnsweredMore(before, mid, sent, done, Frame(true, opcode, payload));
      } else {
        assert sent == mid;
      }
    }

    /** A close frame is answered, if that can be sent, and ends the conversation. */
    method Close(f: Frame, ghost before: seq<seq<Byte>>, ghost done: seq<Frame>)
      returns (r: Result<seq<Byte>>, ghost answered: nat)
      requires f.opcode == 8 && |f.payload| <= 125 && Answered(before, sent, done)
      modifies `sent
      ensures Told(Preceded(done, Failure(PeerClosed, [Frame(true, 8, f.payload)])), r, answered, before, sent, Pending())
      ensures calm ==> answered == |done| + 1
    {
      var ok := Answer(8, f.payload, before, done);
      r := Raised(PeerClosed);
      if ok {
        ToldClose(done, Frame(true, 8, f.payload), before, sent, Pending());
        answered := |done| + 1;
      } else {
        ToldSome(done, Failure(PeerClosed, [Frame(true, 8, f.payload)]), r, before, sent, Pending());
        answered := |done|;
      }
    }

    /** One frame of a message: the result, or (`None`) what has been gathered and answered since. */
    method Handle(f: Frame, fragments: seq<Byte>, kind: Option<Byte>, ghost fr: Frames, ghost before: seq<seq<Byte>>,
                  ghost done: seq<Frame>)
      returns (end: Option<Result<seq<Byte>>>, fragments': seq<Byte>, kind': Option<Byte>, ghost answered: nat,
               ghost done': seq<Frame>)
      requires fr.More? && fr.frame == f && (Control(f.opcode) ==> LegalOpcode(f.opcode) && |f.payload| <= 125)
      requires Answered(before, sent, done) && Pending() == fr.rest
      modifies `sent
      ensures var m := Preceded(done, Assemble(fr, fragments, kind));
              if end.Some? then Told(m, end.value, answered, before, sent, Pending()) && (calm ==> answered == |m.replies|)
              else m == Preceded(done', Assemble(fr.next, fragments', kind')) && Answered(before, sent, done')
    {
      ghost var o := Assemble(fr, fragments, kind);
      end, fragments', kind', done', answered := None, fragments, kind, done, |done|;
      if f.opcode == 9 {
        var ok := Answer(10, f.payload, before, done);
        if !ok {
          end := Some(Raised(SendFailed));
          ToldSome(done, o, Raised(SendFailed), before, sent, Pending());
          return;
        }
        PrecededAfter(done, Frame(true, 10, f.payload), Assemble(fr.next, fragments, kind));
        done' := done + [Frame(true, 10, f.payload)];
      } else if f.opcode == 8 {
        var r;
        r, answered := Close(f, before, done);
        end := Some(r);
      } else if f.opcode != 10 {
        end, fragments', kind' := TakeData(f, fragments, kind, fr);
        if end.Some? {
          ToldAll(done, o, end.value, before, sent, Pending());
        }
      }
    }

    /** `_receive_message`: what `ReadMessage` says of the stream, whatever the splits. */
    method ReceiveMessage() returns (r: Result<seq<Byte>>, ghost answered: nat)
      modifies this
      ensures Told(ReadMessage(old(Pending())), r, answered, old(sent), sent, Pending())
      ensures calm ==> answered == |ReadMessage(old(Pending())).replies|
    {
      ghost var whole := ReadMessage(Pending());
      ghost var before := sent;
      ghost var done: seq<Frame> := [];
      var fragments: seq<Byte> := [];
      var kind: Option<Byte> := None;
      assert Preceded([], whole) == whole;
      while true
        invariant whole == Preceded(done, Assemble(FramesOf(Pending()), fragments, kind))
        invariant Answered(before, sent, done)
        decreases |Pending()|
      {
        ghost var fr := FramesOf(Pending());
        FrameFacts(Pending());
        ghost var o := Assemble(fr, fragments, kind);
        var frame := ReceiveFrame();
        if frame.Raised? {
          r, answered := Raised(frame.fault), |done|;
          ToldAll(done, o, r, before, sent, Pending());
          return;
        }
        var end;
        end, fragments, kind, answered, done := Handle(frame.value, fragments, kind, fr, before, done);
        if end.Some? { return end.value, answered; }
      }
    }
  }

  lemma FrameFacts(s: seq<Byte>)
    ensures var p := Receive(s);
            if p.Bad? then FramesOf(s) == Stop(p.fault)
            else
              && |p.rest| < |s| && FramesOf(s) == More(p.frame, p.rest, FramesOf(p.rest))
              && (Control(p.frame.opcode) ==> LegalOpcode(p.frame.opcode) && |p.frame.payload| <= 125)
  {
    ReceiveConsumes(s);
    ControlIsShort(s);
  }
}
