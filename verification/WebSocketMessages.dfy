/** Messages: fragments put together, control frames answered in between (sections 5.4 and 5.5 of
    RFC 6455). */
module WebSocketMessages {
  import opened Wrappers
  import opened WebSocketFrames

  datatype Outcome =
    | Message(payload: seq<Byte>, replies: seq<Frame>, rest: seq<Byte>)
    | Failure(fault: Fault, replies: seq<Frame>)
  {
    function After(reply: Frame): Outcome {
      match this
      case Message(p, replies, rest) => Message(p, [reply] + replies, rest)
      case Failure(fault, replies) => Failure(fault, [reply] + replies)
    }
  }

  /** A byte stream as the client sees it: frames, each with the bytes after it, up to a fault. */
  datatype Frames = More(frame: Frame, rest: seq<Byte>, next: Frames) | Stop(fault: Fault)

  lemma ReceiveConsumes(s: seq<Byte>)
    ensures Receive(s).Got? ==> |Receive(s).rest| < |s|
  {
  }

  function FramesOf(s: seq<Byte>): Frames
    decreases |s|
  {
    var p := Receive(s);
    if p.Bad? then Stop(p.fault) else
    ReceiveConsumes(s);
    More(p.frame, p.rest, FramesOf(p.rest))
  }

  /** `_receive_message` over the frames to come: what it returns, and what it sends. */
  function Assemble(fr: Frames, fragments: seq<Byte>, kind: Option<Byte>): Outcome {
    if fr.Stop? then Failure(fr.fault, []) else
    var f := fr.frame;
    if f.opcode == 9 then Assemble(fr.next, fragments, kind).After(Frame(true, 10, f.payload))
    else if f.opcode == 10 then Assemble(fr.next, fragments, kind)
    else if f.opcode == 8 then Failure(PeerClosed, [Frame(true, 8, f.payload)])
    else if f.opcode == 0 && kind.None? then Failure(StrayContinuation, [])
    else if f.opcode != 0 && kind.Some? then Failure(NestedMessage, [])
    else
      var kind' := if f.opcode == 0 then kind else Some(f.opcode);
      if |fragments| + |f.payload| > FRAME_LIMIT then Failure(MessageTooLong, [])
      else if !f.fin then Assemble(fr.next, fragments + f.payload, kind')
      else if kind' != Some(1) then Failure(NotText, [])
      else Message(fragments + f.payload, [], fr.rest)
  }

  function ReadMessage(s: seq<Byte>): Outcome { Assemble(FramesOf(s), [], None) }

  // ---- One message, said without a reader ----

  function DataFrames(fs: seq<Frame>): seq<Frame> {
    if fs == [] then [] else (if Control(fs[0].opcode) then [] else [fs[0]]) + DataFrames(fs[1..])
  }

  function Payloads(fs: seq<Frame>): seq<Byte> {
    if fs == [] then [] else fs[0].payload + Payloads(fs[1..])
  }

  /** A pong of equal payload for every ping, in order. */
  function Pongs(fs: seq<Frame>): seq<Frame> {
    if fs == [] then []
    else (if fs[0].opcode == 9 then [Frame(true, 10, fs[0].payload)] else []) + Pongs(fs[1..])
  }

  function EncodeAll(fs: seq<Frame>): seq<Byte> {
    if fs == [] then [] else Encode(fs[0], None) + EncodeAll(fs[1..])
  }

  /** Data frame `i` opens the message or continues it, and only the last one is final. */
  ghost predicate Fragmented(data: seq<Frame>, begun: bool) {
    forall i :: 0 <= i < |data| ==>
      && data[i].opcode == (if i == 0 && !begun then 1 else 0)
      && (data[i].fin <==> i == |data| - 1)
  }

  /** The frames of one text message (or of what is left of it, if already begun), with pings and
      pongs anywhere before its final fragment. */
  ghost predicate TextMessage(fs: seq<Frame>, begun: bool) {
    && fs != [] && !Control(fs[|fs| - 1].opcode)
    && (forall i :: 0 <= i < |fs| && Control(fs[i].opcode) ==> fs[i].opcode == 9 || fs[i].opcode == 10)
    && Fragmented(DataFrames(fs), begun)
  }

  /** The stream starts with the frames `fs`, and the bytes `rest` come after them. */
  predicate Begins(fr: Frames, fs: seq<Frame>, rest: seq<Byte>)
    requires fs != []
    decreases |fs|
  {
    fr.More? && fr.frame == fs[0] && if |fs| == 1 then fr.rest == rest else Begins(fr.next, fs[1..], rest)
  }

  lemma ConsFrames(f: Frame, tail: seq<Frame>)
    ensures var fs := [f] + tail;
            && fs[1..] == tail
            && DataFrames(fs) == (if Control(f.opcode) then [] else [f]) + DataFrames(tail)
            && Payloads(fs) == f.payload + Payloads(tail)
            && Pongs(fs) == (if f.opcode == 9 then [Frame(true, 10, f.payload)] else []) + Pongs(tail)
            && EncodeAll(fs) == Encode(f, None) + EncodeAll(tail)
  {
    assert ([f] + tail)[1..] == tail;
  }

  /** Frames of a stream are the frames that were encoded into it, and nothing else. */
  lemma {:induction false} BeginsIffEncoded(s: seq<Byte>, fs: seq<Frame>, rest: seq<Byte>)
    requires fs != []
    ensures Begins(FramesOf(s), fs, rest) <==> (forall f :: f in fs ==> Acceptable(f)) && s == EncodeAll(fs) + rest
    decreases |fs|
  {
    var f, tail := fs[0], fs[1..];
    var after := EncodeAll(tail) + rest;
    assert fs == [f] + tail;
    ConsFrames(f, tail);
    assert EncodeAll(fs) + rest == Encode(f, None) + after;
    if FramesOf(s).More? {
      ReceiveIff(s, FramesOf(s).frame, FramesOf(s).rest);
    }
    ReceiveIff(s, f, after);
    if |fs| > 1 && FramesOf(s).More? {
      BeginsIffEncoded(FramesOf(s).rest, tail, rest);
    }
  }

  lemma {:induction false} LastIsData(fs: seq<Frame>)
    requires fs != [] && !Control(fs[|fs| - 1].opcode)
    ensures DataFrames(fs) != []
  {
    if |fs| > 1 { LastIsData(fs[1..]); }
  }

  function Kind(begun: bool): Option<Byte> { if begun then Some(1) else None }

  lemma TailOfData(f: Frame, data: seq<Frame>, begun: bool)
    requires Fragmented([f] + data, begun) && data != []
    ensures Fragmented(data, true) && !f.fin
  {
    forall i | 0 <= i < |data|
      ensures data[i].opcode == 0 && (data[i].fin <==> i == |data| - 1)
    {
      assert ([f] + data)[i + 1] == data[i];
    }
    assert ([f] + data)[0] == f;
  }

  /** What remains of a message after its first frame. */
  lemma TailOfMessage(fs: seq<Frame>, begun: bool)
    requires TextMessage(fs, begun) && |fs| > 1
    ensures TextMessage(fs[1..], begun || !Control(fs[0].opcode))
    ensures !Control(fs[0].opcode) ==> !fs[0].fin && fs[0].opcode == (if begun then 0 else 1)
  {
    var f, tail := fs[0], fs[1..];
    assert fs == [f] + tail;
    ConsFrames(f, tail);
    LastIsData(tail);
    if Control(f.opcode) {
      assert DataFrames(fs) == DataFrames(tail);
    } else {
      assert DataFrames(fs)[0] == f;
      TailOfData(f, DataFrames(tail), begun);
    }
  }

  lemma SingleFrame(f: Frame, begun: bool)
    requires TextMessage([f], begun)
    ensures f.fin && f.opcode == (if begun then 0 else 1)
    ensures Payloads(DataFrames([f])) == f.payload && Pongs([f]) == []
  {
    assert DataFrames([f])[0] == f;
  }

  lemma PassControl(fr: Frames, f: Frame, tail: seq<Frame>, fragments: seq<Byte>, kind: Option<Byte>, rest: seq<Byte>)
    requires fr.More? && fr.frame == f && (f.opcode == 9 || f.opcode == 10)
    requires Assemble(fr.next, fragments, kind) == Message(fragments + Payloads(DataFrames(tail)), Pongs(tail), rest)
    ensures Assemble(fr, fragments, kind)
            == Message(fragments + Payloads(DataFrames([f] + tail)), Pongs([f] + tail), rest)
  {
    ConsFrames(f, tail);
    assert DataFrames([f] + tail) == DataFrames(tail);
  }

  lemma PassData(fr: Frames, f: Frame, tail: seq<Frame>, fragments: seq<Byte>, begun: bool, rest: seq<Byte>)
    requires fr.More? && fr.frame == f && f.opcode == (if begun then 0 else 1) && !f.fin
    requires |fragments| + |f.payload| <= FRAME_LIMIT
    requires Assemble(fr.next, fragments + f.payload, Some(1))
             == Message((fragments + f.payload) + Payloads(DataFrames(tail)), Pongs(tail), rest)
    ensures Assemble(fr, fragments, Kind(begun))
            == Message(fragments + Payloads(DataFrames([f] + tail)), Pongs([f] + tail), rest)
  {
    DataCons(f, tail);
    var more := Payloads(DataFrames(tail));
    assert (fragments + f.payload) + more == fragments + (f.payload + more);
  }

  lemma DataCons(f: Frame, tail: seq<Frame>)
    requires !Control(f.opcode)
    ensures Payloads(DataFrames([f] + tail)) == f.payload + Payloads(DataFrames(tail))
    ensures Pongs([f] + tail) == Pongs(tail)
  {
    ConsFrames(f, tail);
    ConsFrames(f, DataFrames(tail));
  }

  /** Every text message is returned whole: the fragments in order, one pong per ping, and the
      stream left right behind it. */
  lemma {:induction false} AssemblesTextMessage(
      fr: Frames, fs: seq<Frame>, fragments: seq<Byte>, begun: bool, rest: seq<Byte>)
    requires TextMessage(fs, begun) && |fragments| + |Payloads(DataFrames(fs))| <= FRAME_LIMIT
    requires Begins(fr, fs, rest)
    ensures Assemble(fr, fragments, Kind(begun))
            == Message(fragments + Payloads(DataFrames(fs)), Pongs(fs), rest)
    decreases |fs|
  {
    var f, tail := fs[0], fs[1..];
    assert fs == [f] + tail;
    if tail == [] {
      assert fs == [f];
      SingleFrame(f, begun);
    } else {
      TailOfMessage(fs, begun);
      PayloadBound(f, tail);
      if Control(f.opcode) {
        AssemblesTextMessage(fr.next, tail, fragments, begun, rest);
        PassControl(fr, f, tail, fragments, Kind(begun), rest);
      } else {
        AssemblesTextMessage(fr.next, tail, fragments + f.payload, true, rest);
        PassData(fr, f, tail, fragments, begun, rest);
      }
    }
  }

  lemma PayloadBound(f: Frame, tail: seq<Frame>)
    ensures |Payloads(DataFrames([f] + tail))|
            == (if Control(f.opcode) then 0 else |f.payload|) + |Payloads(DataFrames(tail))|
  {
    ConsFrames(f, tail);
    if Control(f.opcode) {
      assert DataFrames([f] + tail) == DataFrames(tail);
    } else {
      DataCons(f, tail);
    }
  }

  lemma {:induction false} BinaryIsNeverReturned(fr: Frames, fragments: seq<Byte>)
    ensures Assemble(fr, fragments, Some(2)).Failure?
  {
    if fr.More? {
      BinaryIsNeverReturned(fr.next, fragments);
      BinaryIsNeverReturned(fr.next, fragments + fr.frame.payload);
    }
  }

  lemma FragmentBefore(f: Frame, data: seq<Frame>, begun: bool)
    requires f.opcode == (if begun then 0 else 1) && (f.fin <==> data == []) && Fragmented(data, true)
    ensures Fragmented([f] + data, begun)
  {
    forall i | 0 <= i < |data| + 1
      ensures ([f] + data)[i].opcode == (if i == 0 && !begun then 1 else 0)
      ensures ([f] + data)[i].fin <==> i == |data|
    {
      if i > 0 { assert data[i - 1] == ([f] + data)[i]; }
    }
  }

  /** Nothing else is ever returned: a returned message was in the stream, frame by frame. */
  lemma {:induction false} AssembledWasSent(fr: Frames, fragments: seq<Byte>, begun: bool) returns (fs: seq<Frame>)
    requires Assemble(fr, fragments, Kind(begun)).Message?
    requires LegalStream(fr)
    ensures var m := Assemble(fr, fragments, Kind(begun));
            && TextMessage(fs, begun) && Begins(fr, fs, m.rest)
            && m.payload == fragments + Payloads(DataFrames(fs)) && m.replies == Pongs(fs)
            && |m.payload| <= FRAME_LIMIT
    decreases fr
  {
    var f := fr.frame;
    if Control(f.opcode) {
      var tail := AssembledWasSent(fr.next, fragments, begun);
      fs := [f] + tail;
      ControlBefore(f, tail, begun);
      PassControl(fr, f, tail, fragments, Kind(begun), Assemble(fr.next, fragments, Kind(begun)).rest);
    } else if f.fin {
      fs := [f];
      FragmentBefore(f, [], begun);
      assert [f] + [] == [f];
      ConsFrames(f, []);
      SingleFrame(f, begun);
    } else {
      if f.opcode == 2 { BinaryIsNeverReturned(fr.next, fragments + f.payload); }
      var tail := AssembledWasSent(fr.next, fragments + f.payload, true);
      fs := [f] + tail;
      DataBefore(f, tail, begun);
      PassData(fr, f, tail, fragments, begun, Assemble(fr.next, fragments + f.payload, Some(1)).rest);
    }
  }

  lemma ControlBefore(f: Frame, tail: seq<Frame>, begun: bool)
    requires (f.opcode == 9 || f.opcode == 10) && TextMessage(tail, begun)
    ensures TextMessage([f] + tail, begun)
  {
    ConsFrames(f, tail);
    assert DataFrames([f] + tail) == DataFrames(tail);
  }

  lemma DataBefore(f: Frame, tail: seq<Frame>, begun: bool)
    requires f.opcode == (if begun then 0 else 1) && !f.fin && TextMessage(tail, true)
    ensures TextMessage([f] + tail, begun)
  {
    ConsFrames(f, tail);
    LastIsData(tail);
    FragmentBefore(f, DataFrames(tail), begun);
  }

  predicate LegalStream(fr: Frames) { fr.More? ==> LegalOpcode(fr.frame.opcode) && LegalStream(fr.next) }

  lemma {:induction false} FramesAreLegal(s: seq<Byte>)
    ensures LegalStream(FramesOf(s))
    decreases |s|
  {
    var p := Receive(s);
    if p.Got? {
      ReceiveConsumes(s);
      FramesAreLegal(p.rest);
    }
  }

  /** The stream holds the encoding of one text message within the limit, then `rest`. */
  ghost predicate Carries(s: seq<Byte>, fs: seq<Frame>, rest: seq<Byte>) {
    && TextMessage(fs, false) && (forall f :: f in fs ==> Acceptable(f))
    && |Payloads(DataFrames(fs))| <= FRAME_LIMIT && s == EncodeAll(fs) + rest
  }

  /** Message reassembly, both ways: the reader returns a message exactly when the stream carries
      its frames, and then returns their payloads in order, has sent one pong per ping, and has
      touched nothing beyond. */
  lemma MessageIff(s: seq<Byte>, payload: seq<Byte>, replies: seq<Frame>, rest: seq<Byte>)
    ensures ReadMessage(s) == Message(payload, replies, rest) <==>
            exists fs :: Carries(s, fs, rest) && payload == Payloads(DataFrames(fs)) && replies == Pongs(fs)
  {
    if ReadMessage(s) == Message(payload, replies, rest) {
      FramesAreLegal(s);
      var fs := AssembledWasSent(FramesOf(s), [], false);
      BeginsIffEncoded(s, fs, rest);
      assert payload == Payloads(DataFrames(fs));
      assert Carries(s, fs, rest);
    }
    forall fs | Carries(s, fs, rest) && payload == Payloads(DataFrames(fs)) && replies == Pongs(fs)
      ensures ReadMessage(s) == Message(payload, replies, rest)
    {
      BeginsIffEncoded(s, fs, rest);
      AssemblesTextMessage(FramesOf(s), fs, [], false, rest);
    }
  }
}
