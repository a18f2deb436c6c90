/** When reading a message fails, with which fault, and what has been answered by then. */
module WebSocketFailures {
  import opened Wrappers
  import opened WebSocketFrames
  import opened WebSocketMessages

  /** Fragments none of which is final; the first opens a message unless one is begun. */
  ghost predicate Unfinished(data: seq<Frame>, begun: bool) {
    forall i :: 0 <= i < |data| ==> !data[i].fin && (data[i].opcode == 0 <==> i > 0 || begun)
  }

  ghost predicate Passing(fs: seq<Frame>) { forall f :: f in fs ==> Acceptable(f) && f.opcode != 8 }

  /** Frames that are put together without an end: pings and pongs, and unfinished fragments. */
  ghost predicate Gathered(fs: seq<Frame>, begun: Option<Byte>, before: nat) {
    var data := DataFrames(fs);
    && Passing(fs)
    && Unfinished(data, begun.Some?)
    && before + |Payloads(data)| <= 65536
  }

  /** The opcode of the message that is open after `fs`. */
  function Open(fs: seq<Frame>, begun: Option<Byte>): Option<Byte> {
    if begun.None? && DataFrames(fs) != [] then Some(DataFrames(fs)[0].opcode) else begun
  }

  /** The fault at the next frame of `s`, with a message of kind `open` and `size` bytes gathered, and the
      replies to that frame. */
  ghost predicate FaultAt(s: seq<Byte>, open: Option<Byte>, size: nat, fault: Fault, last: seq<Frame>) {
    var p := Receive(s);
    if p.Bad? then fault == p.fault && last == []
    else
      var f := p.frame;
      if f.opcode == 8 then fault == PeerClosed && last == [Frame(true, 8, f.payload)]
      else
        && last == []
        && (f.opcode == 0 || f.opcode == 1 || f.opcode == 2)
        && if f.opcode == 0 && open.None? then fault == StrayContinuation
           else if f.opcode != 0 && open.Some? then fault == NestedMessage
           else if size + |f.payload| > 65536 then fault == MessageTooLong
           else fault == NotText && f.fin && (f.opcode == 2 || open == Some(2))
  }

  /** The stream starts with `fs`, which are put together, and the fault is at what comes next. */
  ghost predicate FailsAfter(s: seq<Byte>, fs: seq<Frame>, rest: seq<Byte>, begun: Option<Byte>, before: nat,
                             fault: Fault, last: seq<Frame>)
  {
    && Gathered(fs, begun, before) && s == EncodeAll(fs) + rest
    && FaultAt(rest, Open(fs, begun), before + |Payloads(DataFrames(fs))|, fault, last)
  }

  predicate Kinded(begun: Option<Byte>) { begun.None? || begun == Some(1) || begun == Some(2) }

  lemma StreamStarts(s: seq<Byte>, f: Frame, after: seq<Byte>)
    requires Acceptable(f) && s == Encode(f, None) + after
    ensures Receive(s) == Got(f, after) && FramesOf(s) == More(f, after, FramesOf(after))
  {
    ReceiveIff(s, f, after);
  }

  lemma FaultNow(s: seq<Byte>, fragments: seq<Byte>, begun: Option<Byte>, fault: Fault, last: seq<Frame>)
    requires Kinded(begun) && FaultAt(s, begun, |fragments|, fault, last)
    ensures Assemble(FramesOf(s), fragments, begun) == Failure(fault, last)
  {
    if Receive(s).Got? { ReceiveConsumes(s); }
  }

  lemma UnfinishedTail(f: Frame, data: seq<Frame>, begun: bool)
    ensures Unfinished([f] + data, begun) <==> !f.fin && (f.opcode == 0 <==> begun) && Unfinished(data, true)
  {
    var all := [f] + data;
    if Unfinished(all, begun) {
      forall i | 0 <= i < |data| ensures !data[i].fin && data[i].opcode == 0 { assert all[i + 1] == data[i]; }
      assert all[0] == f;
    }
    if !f.fin && (f.opcode == 0 <==> begun) && Unfinished(data, true) {
      forall i | 0 <= i < |all| ensures !all[i].fin && (all[i].opcode == 0 <==> i > 0 || begun) {
        if i > 0 { assert all[i] == data[i - 1]; }
      }
    }
  }

  /** The message that is open after one more frame. */
  function Begun(f: Frame, begun: Option<Byte>): Option<Byte> {
    if Control(f.opcode) || begun.Some? then begun else Some(f.opcode)
  }

  function Gain(f: Frame): nat { if Control(f.opcode) then 0 else |f.payload| }

  lemma DataTail(f: Frame, tail: seq<Frame>, begun: Option<Byte>)
    ensures |Payloads(DataFrames([f] + tail))| == Gain(f) + |Payloads(DataFrames(tail))|
    ensures Open([f] + tail, begun) == Open(tail, Begun(f, begun))
  {
    ConsFrames(f, tail);
    PayloadBound(f, tail);
    if Control(f.opcode) { assert DataFrames([f] + tail) == DataFrames(tail); }
  }

  /** What being put together says of the first frame and of the others. */
  lemma GatheredTail(f: Frame, tail: seq<Frame>, begun: Option<Byte>, before: nat)
    ensures Gathered([f] + tail, begun, before) <==>
            && Acceptable(f) && f.opcode != 8 && (!Control(f.opcode) ==> !f.fin && (f.opcode == 0 <==> begun.Some?))
            && Gathered(tail, Begun(f, begun), before + Gain(f))
  {
    DataTail(f, tail, begun);
    ConsFrames(f, tail);
    UnfinishedTail(f, DataFrames(tail), begun.Some?);
    PassingTail(f, tail);
    if Control(f.opcode) { assert DataFrames([f] + tail) == DataFrames(tail); }
  }

  lemma PassingTail(f: Frame, tail: seq<Frame>)
    ensures Passing([f] + tail) <==> Acceptable(f) && f.opcode != 8 && Passing(tail)
  {
    assert forall g :: g in [f] + tail <==> g == f || g in tail;
  }

  lemma PongsCons(f: Frame, tail: seq<Frame>, last: seq<Frame>)
    ensures Pongs([f] + tail) + last
            == (if f.opcode == 9 then [Frame(true, 10, f.payload)] else []) + (Pongs(tail) + last)
  {
    ConsFrames(f, tail);
  }

  /** What is gathered after one more frame. */
  function Grown(f: Frame, fragments: seq<Byte>): seq<Byte> {
    if Control(f.opcode) then fragments else fragments + f.payload
  }

  /** One frame of a message is passed over. */
  lemma PassesOver(fr: Frames, f: Frame, fragments: seq<Byte>, begun: Option<Byte>, fault: Fault, replies: seq<Frame>)
    requires Kinded(begun) && fr.More? && fr.frame == f && LegalOpcode(f.opcode) && f.opcode != 8
    requires !Control(f.opcode) ==> !f.fin && (f.opcode == 0 <==> begun.Some?)
    requires |fragments| + Gain(f) <= 65536
    requires Assemble(fr.next, Grown(f, fragments), Begun(f, begun)) == Failure(fault, replies)
    ensures Assemble(fr, fragments, begun)
            == Failure(fault, (if f.opcode == 9 then [Frame(true, 10, f.payload)] else []) + replies)
  {
  }

  /** Any such stream fails so. */
  lemma {:induction false} Fails(s: seq<Byte>, fs: seq<Frame>, rest: seq<Byte>, fragments: seq<Byte>,
                                 begun: Option<Byte>, fault: Fault, last: seq<Frame>)
    requires Kinded(begun) && FailsAfter(s, fs, rest, begun, |fragments|, fault, last)
    ensures Assemble(FramesOf(s), fragments, begun) == Failure(fault, Pongs(fs) + last)
    decreases |fs|
  {
    if fs == [] {
      assert s == rest;
      FaultNow(s, fragments, begun, fault, last);
      assert Pongs(fs) + last == last;
    } else {
      var f, tail := fs[0], fs[1..];
      assert fs == [f] + tail;
      var after := EncodeAll(tail) + rest;
      EncodeCons(f, tail, rest);
      StreamStarts(s, f, after);
      GatheredTail(f, tail, begun, |fragments|);
      DataTail(f, tail, begun);
      Fails(after, tail, rest, Grown(f, fragments), Begun(f, begun), fault, last);
      PongsCons(f, tail, last);
      PassesOver(FramesOf(s), f, fragments, begun, fault, Pongs(tail) + last);
    }
  }

  predicate GoesOn(f: Frame, begun: Option<Byte>, size: nat) {
    && f.opcode != 8 && (!Control(f.opcode) ==> !f.fin && (f.opcode == 0 <==> begun.Some?)) && size + Gain(f) <= 65536
  }

  /** A failure is at this frame, or the frame is passed over and it is later. */
  lemma HereOrLater(s: seq<Byte>, fragments: seq<Byte>, begun: Option<Byte>)
    requires Kinded(begun) && Assemble(FramesOf(s), fragments, begun).Failure? && |fragments| <= 65536
    ensures var m, p := Assemble(FramesOf(s), fragments, begun), Receive(s);
            || FaultAt(s, begun, |fragments|, m.fault, m.replies)
            || (&& p.Got? && |p.rest| < |s| && Acceptable(p.frame) && s == Encode(p.frame, None) + p.rest
                && GoesOn(p.frame, begun, |fragments|)
                && var m' := Assemble(FramesOf(p.rest), Grown(p.frame, fragments), Begun(p.frame, begun));
                   && m'.Failure? && m'.fault == m.fault
                   && m.replies == (if p.frame.opcode == 9 then [Frame(true, 10, p.frame.payload)] else []) + m'.replies)
  {
    var p := Receive(s);
    if p.Got? {
      ReceiveIff(s, p.frame, p.rest);
      ReceiveConsumes(s);
    }
  }

  /** And any failure is of this kind. */
  lemma {:induction false} Failed(s: seq<Byte>, fragments: seq<Byte>, begun: Option<Byte>)
    returns (fs: seq<Frame>, rest: seq<Byte>, last: seq<Frame>)
    requires Kinded(begun) && Assemble(FramesOf(s), fragments, begun).Failure? && |fragments| <= 65536
    ensures var m := Assemble(FramesOf(s), fragments, begun);
            FailsAfter(s, fs, rest, begun, |fragments|, m.fault, last) && m.replies == Pongs(fs) + last
    decreases |s|
  {
    var m := Assemble(FramesOf(s), fragments, begun);
    HereOrLater(s, fragments, begun);
    if FaultAt(s, begun, |fragments|, m.fault, m.replies) {
      fs, rest, last := [], s, m.replies;
      assert EncodeAll([]) + s == s && Pongs([]) + last == last;
    } else {
      var p := Receive(s);
      fs, rest, last := Failed(p.rest, Grown(p.frame, fragments), Begun(p.frame, begun));
      Lengthen(s, p.frame, p.rest, fs, rest, begun, |fragments|, m.fault, last);
      PongsCons(p.frame, fs, last);
      fs := [p.frame] + fs;
    }
  }

  lemma Lengthen(s: seq<Byte>, f: Frame, after: seq<Byte>, tail: seq<Frame>, rest: seq<Byte>, begun: Option<Byte>,
                 before: nat, fault: Fault, last: seq<Frame>)
    requires Acceptable(f) && f.opcode != 8 && (!Control(f.opcode) ==> !f.fin && (f.opcode == 0 <==> begun.Some?))
    requires s == Encode(f, None) + after
    requires FailsAfter(after, tail, rest, Begun(f, begun), before + Gain(f), fault, last)
    ensures FailsAfter(s, [f] + tail, rest, begun, before, fault, last)
  {
    GatheredTail(f, tail, begun, before);
    DataTail(f, tail, begun);
    EncodeCons(f, tail, rest);
  }

  lemma EncodeCons(f: Frame, tail: seq<Frame>, rest: seq<Byte>)
    ensures EncodeAll([f] + tail) + rest == Encode(f, None) + (EncodeAll(tail) + rest)
  {
    ConsFrames(f, tail);
  }

  /** Reading a message fails exactly on a stream of this kind, and then with its fault, after a pong for
      every ping before it and an echo of a close. */
  lemma FailureIff(s: seq<Byte>, fault: Fault, replies: seq<Frame>)
    ensures ReadMessage(s) == Failure(fault, replies) <==>
            exists fs, rest, last :: FailsAfter(s, fs, rest, None, 0, fault, last) && replies == Pongs(fs) + last
  {
    if ReadMessage(s) == Failure(fault, replies) {
      var fs, rest, last := Failed(s, [], None);
    }
    if fs, rest, last :| FailsAfter(s, fs, rest, None, 0, fault, last) && replies == Pongs(fs) + last {
      Fails(s, fs, rest, [], None, fault, last);
    }
  }
}
