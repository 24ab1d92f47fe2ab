// Runs in which the writer meets no obstacle: a chunk is four steps of the channel, a whole
// Write one after another, and what it means for the bytes written.
module Sending {
  import opened Common
  import opened Bytes
  import opened Message
  import opened Window
  import opened Reorder
  import opened Segmentation
  import opened Channel
  import opened EndToEnd

  // ----- one chunk sent, one chunk received -----

  // The steps of a chunk that meets no obstacle.
  function SendSteps(payload: bytes, stamp: Stamp, now: int): seq<Step> {
    [Claim(payload, stamp)] + [Track(now)] + [Begin] + [Transmit]
  }

  // A writer between two chunks on an open, connected adapter.
  predicate CanWrite(s: System, now: int) {
    IsIdle(s) && !s.paused && !s.closed && !s.down && s.clock <= now
  }

  // What the chunk leaves behind.
  function SentState(sha: Hash, s: System, payload: bytes, stamp: Stamp, now: int): System
    requires s.base + |s.slots| <= MAX_INT64
  {
    var k := s.base + |s.slots|;
    var m := NewInputMessage(payload, k, stamp.id, stamp.created);
    s.(slots := s.slots + [Slot(m, Sent)], wire := s.wire + [Encode(sha, m)],
       window := Add(s.window, k, stamp.id, Encode(sha, m), now), clock := now)
  }

  lemma OneByte(x: byte, k: int64, stamp: Stamp)
    requires 0 <= k
    ensures var m := NewInputMessage([x], k, stamp.id, stamp.created);
            IsStreamMessage(m, k) && m.payload == [x] && m.header.messageId == stamp.id
  {
  }

  lemma ClaimIs(sha: Hash, s: System, payload: bytes, stamp: Stamp)
    requires IsIdle(s) && !s.paused && 0 < |payload| <= DEFAULT_CHUNK && s.base + |s.slots| <= MAX_INT64
    ensures Next(sha, s, Claim(payload, stamp))
            == s.(slots := s.slots
                           + [Slot(NewInputMessage(payload, s.base + |s.slots|, stamp.id, stamp.created), Claimed)])
  {
    hide NewInputMessage;
  }

  lemma TrackIs(sha: Hash, s: System, now: int)
    requires LastIs(s, Claimed) && !s.closed && s.clock <= now && HasRoom(s.window, |LastFrame(sha, s)|)
    ensures var n := |s.slots| - 1;
            Next(sha, s, Track(now))
            == s.(slots := SetLast(s, Tracked), clock := now,
                  window := Add(s.window, s.base + n, s.slots[n].msg.header.messageId, LastFrame(sha, s), now))
  {
    hide Encode, Add;
  }

  lemma TransmitIs(sha: Hash, s: System)
    requires LastIs(s, Tracked) && !s.closed && !s.down
    ensures Next(sha, Next(sha, s, Begin), Transmit)
            == s.(slots := SetLast(s, Sent), wire := s.wire + [LastFrame(sha, s)])
  {
    hide Encode;
    var s1 := Next(sha, s, Begin);
    assert s1.slots == SetLast(s, Sending);
    assert SetLast(s1, Sent) == SetLast(s, Sent);
  }

  lemma SentIs(sha: Hash, s: System, payload: bytes, stamp: Stamp, now: int)
    requires CanWrite(s, now) && 0 < |payload| <= DEFAULT_CHUNK && s.base + |s.slots| <= MAX_INT64
    requires HasRoom(s.window, TOTAL_HEADER_LEN + |payload|)
    ensures Next(sha, Next(sha, Next(sha, Next(sha, s, Claim(payload, stamp)), Track(now)), Begin), Transmit)
            == SentState(sha, s, payload, stamp, now)
  {
    hide Next, Encode, NewInputMessage, Add, IsStreamMessage, HasRoom;
    var k := s.base + |s.slots|;
    var m := NewInputMessage(payload, k, stamp.id, stamp.created);
    NewStreamMessage(payload, k, stamp);
    ClaimIs(sha, s, payload, stamp);
    var s1 := s.(slots := s.slots + [Slot(m, Claimed)]);
    TrackIs(sha, s1, now);
    var s2 := Next(sha, s1, Track(now));
    TransmitIs(sha, s2);
    assert s2.slots == s.slots + [Slot(m, Tracked)];
    assert SetLast(s2, Sent) == s.slots + [Slot(m, Sent)];
  }

  lemma Sends(sha: Hash, s: System, payload: bytes, stamp: Stamp, now: int)
    requires CanWrite(s, now) && 0 < |payload| <= DEFAULT_CHUNK && s.base + |s.slots| <= MAX_INT64
    requires HasRoom(s.window, TOTAL_HEADER_LEN + |payload|)
    ensures Run(sha, s, SendSteps(payload, stamp, now)) == SentState(sha, s, payload, stamp, now)
  {
    hide Next, Run, SentState;
    SentIs(sha, s, payload, stamp, now);
    FirstStep(sha, s, Claim(payload, stamp));
    RunSnoc(sha, s, [Claim(payload, stamp)], Track(now));
    RunSnoc(sha, s, [Claim(payload, stamp)] + [Track(now)], Begin);
    RunSnoc(sha, s, [Claim(payload, stamp)] + [Track(now)] + [Begin], Transmit);
  }

  // A new frame on the wire is taken in, processed and acknowledged.
  function ReceiveSteps(frame: nat, ack: nat, now: int): seq<Step> {
    [Deliver(frame)] + [Process] + [AckArrives(ack, now)]
  }

  lemma TakenAndProcessed(sha: Hash, s: System, m: AgentMessage, k: int)
    requires IsStreamMessage(m, k) && s.base <= k && s.inHand == None
    requires s.wire != [] && s.wire[|s.wire| - 1] == Encode(sha, m)
    ensures Next(sha, Next(sha, s, Deliver(|s.wire| - 1)), Process)
            == s.(acks := s.acks + [AckMsg(k, m.header.messageId)], receiver := Handle(s.receiver, Sealed(sha, m)),
                  arrived := s.arrived[k := Sealed(sha, m)])
  {
    hide Encode, Decode, Sealed, Handle, NewInputMessage;
    StreamMessage(sha, m, k);
  }

  lemma AckTaken(sha: Hash, s: System, now: int)
    requires s.acks != [] && s.clock <= now
    ensures var ack := s.acks[|s.acks| - 1];
            Next(sha, s, AckArrives(|s.acks| - 1, now))
            == s.(window := Ack(s.window, ack.k, ack.id, now), clock := now, paused := false)
  {
    hide Ack;
  }

  lemma Receives(sha: Hash, s: System, m: AgentMessage, k: int, now: int)
    requires IsStreamMessage(m, k) && s.base <= k && s.inHand == None && s.clock <= now
    requires s.wire != [] && s.wire[|s.wire| - 1] == Encode(sha, m)
    ensures var s' := Run(sha, s, ReceiveSteps(|s.wire| - 1, |s.acks|, now));
            && s' == s.(acks := s.acks + [AckMsg(k, m.header.messageId)], clock := now, paused := false,
                        receiver := Handle(s.receiver, Sealed(sha, m)), arrived := s.arrived[k := Sealed(sha, m)],
                        window := Ack(s.window, k, m.header.messageId, now))
  {
    hide Encode, Sealed, Handle, Ack, IsStreamMessage, Run, Next;
    FirstStep(sha, s, Deliver(|s.wire| - 1));
    RunSnoc(sha, s, [Deliver(|s.wire| - 1)], Process);
    RunSnoc(sha, s, [Deliver(|s.wire| - 1)] + [Process], AckArrives(|s.acks|, now));
    TakenAndProcessed(sha, s, m, k);
    AckTaken(sha, Next(sha, Next(sha, s, Deliver(|s.wire| - 1)), Process), now);
  }

  // ----- a whole Write -----

  // The chunks of a Write, one after another, with no obstacle.
  function WriteSteps(segs: seq<bytes>, stamps: nat -> Stamp, now: int): seq<Step> {
    if segs == [] then []
    else
      var n := |segs| - 1;
      WriteSteps(segs[..n], stamps, now) + SendSteps(segs[n], stamps(n), now)
  }

  lemma PayloadKept(payload: bytes, k: int64, stamp: Stamp)
    ensures NewInputMessage(payload, k, stamp.id, stamp.created).payload == payload
  {
  }

  // After one more chunk.
  lemma OneMoreSent(sha: Hash, s: System, payload: bytes, stamp: Stamp, now: int)
    requires CanWrite(s, now) && s.base + |s.slots| <= MAX_INT64
    ensures var s' := SentState(sha, s, payload, stamp, now);
            && CanWrite(s', now) && s'.base == s.base && |s'.slots| == |s.slots| + 1
            && Payloads(s'.slots) == Payloads(s.slots) + [payload]
            && (NoFailedWrite(s) ==> NoFailedWrite(s'))
            && s'.wire == s.wire + [Encode(sha, NewInputMessage(payload, s.base + |s.slots|, stamp.id, stamp.created))]
            && s'.window.size == s.window.size + TOTAL_HEADER_LEN + |payload| && s'.window.limit == s.window.limit
  {
    hide NewInputMessage;
    var m := NewInputMessage(payload, s.base + |s.slots|, stamp.id, stamp.created);
    PayloadKept(payload, s.base + |s.slots|, stamp);
    assert |Encode(sha, m)| == TOTAL_HEADER_LEN + |payload|;
    hide Encode;
  }

  // s' is s after a Write of the chunks: exactly they are claimed, exactly the frames are on
  // the wire that Write promises, and the writer is idle.
  ghost predicate Wrote(sha: Hash, s: System, s': System, segs: seq<bytes>, stamps: nat -> Stamp, now: int)
    requires s.base + |s.slots| + |segs| <= MAX_INT64
  {
    && CanWrite(s', now) && s'.base == s.base
    && |s'.slots| == |s.slots| + |segs| && Payloads(s'.slots) == Payloads(s.slots) + segs
    && (NoFailedWrite(s) ==> NoFailedWrite(s'))
    && s'.wire == s.wire + Frames(sha, segs, s.base + |s.slots|, stamps)
    && s'.window.size == s.window.size + FrameBytes(segs) && s'.window.limit == s.window.limit
  }

  lemma NoFrames(sha: Hash, first: nat, stamps: nat -> Stamp)
    requires first <= MAX_INT64
    ensures Frames(sha, [], first, stamps) == []
  {
  }

  lemma WroteNothing(sha: Hash, s: System, stamps: nat -> Stamp, now: int)
    requires CanWrite(s, now) && s.base + |s.slots| <= MAX_INT64
    ensures Wrote(sha, s, s, [], stamps, now)
  {
    hide Encode, NewInputMessage;
    NoFrames(sha, s.base + |s.slots|, stamps);
  }

  lemma WroteOneMore(sha: Hash, s: System, mid: System, before: seq<bytes>, last: bytes, stamps: nat -> Stamp, now: int)
    requires s.base + |s.slots| + |before| + 1 <= MAX_INT64 && Wrote(sha, s, mid, before, stamps, now)
    ensures Wrote(sha, s, SentState(sha, mid, last, stamps(|before|), now), before + [last], stamps, now)
  {
    hide Encode, NewInputMessage, Frames, Payloads, SentState, CanWrite, NoFailedWrite;
    var segs := before + [last];
    OneMoreSent(sha, mid, last, stamps(|before|), now);
    FramesSnoc(sha, segs, |before|, s.base + |s.slots|, stamps);
    assert segs[..|before|] == before;
    assert First(segs, |before|) == before && First(segs, |before| + 1) == segs;
  }

  // Given room, a Write runs through.
  lemma {:induction false} WriteRuns(sha: Hash, s: System, segs: seq<bytes>, stamps: nat -> Stamp, now: int)
    requires CanWrite(s, now) && s.window.size + FrameBytes(segs) <= s.window.limit
    requires forall i :: 0 <= i < |segs| ==> 0 < |segs[i]| <= DEFAULT_CHUNK
    requires s.base + |s.slots| + |segs| <= MAX_INT64
    ensures Wrote(sha, s, Run(sha, s, WriteSteps(segs, stamps, now)), segs, stamps, now)
  {
    if segs == [] {
      WroteNothing(sha, s, stamps, now);
    } else {
      hide Encode, NewInputMessage, Frames, Next, SentState, Add, Payloads, NoFailedWrite;
      var n := |segs| - 1;
      var before, last := segs[..n], segs[n];
      WriteRuns(sha, s, before, stamps, now);
      hide Run;
      var mid := Run(sha, s, WriteSteps(before, stamps, now));
      Sends(sha, mid, last, stamps(n), now);
      WroteOneMore(sha, s, mid, before, last, stamps, now);
      RunAppend(sha, s, WriteSteps(before, stamps, now), SendSteps(last, stamps(n), now));
      assert segs == before + [last];
    }
  }

  // The writer has stopped without a failure and everything has been acknowledged and
  // processed.
  predicate Finished(s: System) {
    IsIdle(s) && s.window.outgoing == map[] && NoFailedWrite(s) && s.inHand == None
  }

  // ----- a Write that waits for each acknowledgement -----

  // Each chunk is sent, received and acknowledged before the next.
  function WaitingSteps(segs: seq<bytes>, stamps: nat -> Stamp, now: int, frame: nat, ack: nat): seq<Step> {
    if segs == [] then []
    else
      var n := |segs| - 1;
      WaitingSteps(segs[..n], stamps, now, frame, ack) + SendSteps(segs[n], stamps(n), now)
      + ReceiveSteps(frame + n, ack + n, now)
  }

  // As Wrote, with the window as it was and every chunk processed.
  ghost predicate Waited(sha: Hash, s: System, s': System, segs: seq<bytes>, stamps: nat -> Stamp, now: int)
    requires s.base + |s.slots| + |segs| <= MAX_INT64
  {
    && CanWrite(s', now) && s'.base == s.base && s'.inHand == None
    && |s'.slots| == |s.slots| + |segs| && Payloads(s'.slots) == Payloads(s.slots) + segs
    && (NoFailedWrite(s) ==> NoFailedWrite(s'))
    && s'.wire == s.wire + Frames(sha, segs, s.base + |s.slots|, stamps) && |s'.wire| == |s.wire| + |segs|
    && |s'.acks| == |s.acks| + |segs|
    && s'.window == s.window
  }

  lemma AddThenAck(w: Window, k: int, id: Uuid, data: bytes, now: int)
    requires Accounted(w) && k !in w.outgoing
    ensures Ack(Add(w, k, id, data, now), k, id, now) == w
  {
    assert w.outgoing[k := Entry(id, data, now, 0)] - {k} == w.outgoing;
    hide Sum;
  }

  lemma NextNotTracked(sha: Hash, s: System)
    requires Inv(sha, s)
    ensures Accounted(s.window) && s.base + |s.slots| !in s.window.outgoing
  {
  }

  lemma SentLooks(sha: Hash, s: System, payload: bytes, stamp: Stamp, now: int)
    requires s.base + |s.slots| <= MAX_INT64
    ensures var s1 := SentState(sha, s, payload, stamp, now);
            var k := s.base + |s.slots|;
            var m := NewInputMessage(payload, k, stamp.id, stamp.created);
            && s1.base == s.base && s1.inHand == s.inHand && s1.acks == s.acks && s1.clock == now
            && |s1.wire| == |s.wire| + 1 && s1.wire[|s.wire|] == Encode(sha, m)
            && s1.window == Add(s.window, k, stamp.id, Encode(sha, m), now)
  {
    hide Encode, NewInputMessage, Add;
  }

  // s' is s after its last frame was received, with the given window.
  ghost predicate Acknowledged(s: System, s': System, window: Window) {
    && s' == s.(acks := s'.acks, paused := false, receiver := s'.receiver, arrived := s'.arrived, window := window)
    && |s'.acks| == |s.acks| + 1
  }

  lemma ReceivedIs(sha: Hash, s: System, m: AgentMessage, k: int, now: int)
    requires IsStreamMessage(m, k) && s.base <= k && s.inHand == None && s.clock == now
    requires s.wire != [] && s.wire[|s.wire| - 1] == Encode(sha, m)
    ensures Acknowledged(s, Run(sha, s, ReceiveSteps(|s.wire| - 1, |s.acks|, now)),
                         Ack(s.window, k, m.header.messageId, now))
  {
    hide Encode, IsStreamMessage, Run, Ack, Handle, Sealed;
    Receives(sha, s, m, k, now);
  }

  // A chunk sent, received and acknowledged.
  lemma SentAndReceived(sha: Hash, s: System, payload: bytes, stamp: Stamp, now: int)
    requires Inv(sha, s) && CanWrite(s, now) && s.inHand == None
    requires 0 < |payload| <= DEFAULT_CHUNK && s.base + |s.slots| <= MAX_INT64
    requires HasRoom(s.window, TOTAL_HEADER_LEN + |payload|)
    ensures Acknowledged(SentState(sha, s, payload, stamp, now),
                         Run(sha, s, SendSteps(payload, stamp, now) + ReceiveSteps(|s.wire|, |s.acks|, now)), s.window)
  {
    var k := s.base + |s.slots|;
    var m := NewInputMessage(payload, k, stamp.id, stamp.created);
    hide Inv, Run, Encode, NewInputMessage, IsStreamMessage, Ack, Add, Accounted, HasRoom, SentState, Acknowledged;
    NewStreamMessage(payload, k, stamp);
    NextNotTracked(sha, s);
    Sends(sha, s, payload, stamp, now);
    SentLooks(sha, s, payload, stamp, now);
    ReceivedIs(sha, SentState(sha, s, payload, stamp, now), m, k, now);
    AddThenAck(s.window, k, stamp.id, Encode(sha, m), now);
    RunAppend(sha, s, SendSteps(payload, stamp, now), ReceiveSteps(|s.wire|, |s.acks|, now));
  }

  lemma WaitedNothing(sha: Hash, s: System, stamps: nat -> Stamp, now: int)
    requires CanWrite(s, now) && s.base + |s.slots| <= MAX_INT64 && s.inHand == None
    ensures Waited(sha, s, s, [], stamps, now)
  {
    hide Encode, NewInputMessage;
    NoFrames(sha, s.base + |s.slots|, stamps);
  }

  lemma NoFailedSame(s: System, s': System)
    requires s'.slots == s.slots
    ensures NoFailedWrite(s') == NoFailedWrite(s)
  {
  }

  lemma WaitedOneMore(sha: Hash, s: System, mid: System, s': System, before: seq<bytes>, last: bytes,
                      stamps: nat -> Stamp, now: int)
    requires s.base + |s.slots| + |before| + 1 <= MAX_INT64 && Waited(sha, s, mid, before, stamps, now)
    requires Acknowledged(SentState(sha, mid, last, stamps(|before|), now), s', mid.window)
    ensures Waited(sha, s, s', before + [last], stamps, now)
  {
    hide Encode, NewInputMessage, Frames, Payloads, NoFailedWrite;
    var segs := before + [last];
    OneMoreSent(sha, mid, last, stamps(|before|), now);
    FramesSnoc(sha, segs, |before|, s.base + |s.slots|, stamps);
    assert First(segs, |before|) == before && First(segs, |before| + 1) == segs;
    NoFailedSame(SentState(sha, mid, last, stamps(|before|), now), s');
  }

  // With room for one frame at a time a Write of any length runs through, and leaves the
  // window as it found it.
  lemma {:induction false} WriteWaits(sha: Hash, s: System, segs: seq<bytes>, stamps: nat -> Stamp, now: int)
    requires Inv(sha, s) && CanWrite(s, now) && s.inHand == None
    requires forall i :: 0 <= i < |segs| ==>
               0 < |segs[i]| <= DEFAULT_CHUNK && s.window.size + TOTAL_HEADER_LEN + |segs[i]| <= s.window.limit
    requires s.base + |s.slots| + |segs| <= MAX_INT64
    ensures Waited(sha, s, Run(sha, s, WaitingSteps(segs, stamps, now, |s.wire|, |s.acks|)), segs, stamps, now)
  {
    hide Inv, Encode, NewInputMessage, Frames, Next, SentState, Payloads, NoFailedWrite, IsIdle, Acknowledged;
    if segs == [] {
      WaitedNothing(sha, s, stamps, now);
    } else {
      var n := |segs| - 1;
      var before, last := segs[..n], segs[n];
      var steps := WaitingSteps(before, stamps, now, |s.wire|, |s.acks|);
      WriteWaits(sha, s, before, stamps, now);
      hide Run;
      RunKeeps(sha, s, steps);
      var mid := Run(sha, s, steps);
      SentAndReceived(sha, mid, last, stamps(n), now);
      var chunk := SendSteps(last, stamps(n), now) + ReceiveSteps(|mid.wire|, |mid.acks|, now);
      RunAppend(sha, s, steps, chunk);
      assert WaitingSteps(segs, stamps, now, |s.wire|, |s.acks|) == steps + chunk;
      assert segs == before + [last];
      WaitedOneMore(sha, s, mid, Run(sha, mid, chunk), before, last, stamps, now);
    }
  }

  // ----- what a Write delivers -----

  // The numbers taken are chunks of b, from the first on: then the reader has a prefix of
  // b, and b itself once all chunks are claimed, acknowledged and processed.
  lemma WriteDelivers(sha: Hash, base: nat, limit: nat, steps: seq<Step>, b: bytes, chunk: nat)
    requires base <= MAX_INT64 && 0 < chunk
    requires Payloads(Run(sha, Init(base, limit), steps).slots) <= Segments(b, chunk)
    ensures var s := Run(sha, Init(base, limit), steps);
            s.receiver.stream <= b
            && (Finished(s) && |s.slots| == |Segments(b, chunk)| ==> s.receiver.stream == b)
  {
    hide Run, Inv;
    var s := Run(sha, Init(base, limit), steps);
    var segs := Segments(b, chunk);
    PrefixAlways(sha, base, limit, steps);
    CompleteWhenAcknowledged(sha, base, limit, steps);
    SegmentsCover(b, chunk);
    FlattenPrefix(segs, |s.slots|);
    assert First(segs, |s.slots|) == Payloads(s.slots);
  }
}
