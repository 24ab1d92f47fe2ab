// Runs that end with the reader short of bytes although every frame sent has been
// acknowledged.
module Stalls {
  import opened Common
  import opened Bytes
  import opened Message
  import opened Window
  import opened Reorder
  import opened Segmentation
  import opened Channel
  import opened EndToEnd
  import opened Sending

  lemma EmptyAgain(limit: int, k: int, id: Uuid, data: bytes)
    ensures Ack(Add(EmptyWindow(limit), k, id, data, 0), k, id, 0) == EmptyWindow(limit)
    ensures Drop(Add(EmptyWindow(limit), k, id, data, 0), k, id) == EmptyWindow(limit)
    ensures Marked(EmptyWindow(limit), 0) == EmptyWindow(limit)
  {
    assert map[k := Entry(id, data, 0, 0)] - {k} == map[];
  }

  lemma TakenIn(sha: Hash, s: System, m: AgentMessage, k: int)
    requires IsStreamMessage(m, k) && s.wire == [Encode(sha, m)] && s.acks == [] && s.inHand == None && s.clock == 0
    ensures Next(sha, Next(sha, s, Deliver(0)), AckArrives(0, 0))
            == s.(acks := [AckMsg(k, m.header.messageId)], inHand := Some(Sealed(sha, m)), paused := false,
                  window := Ack(s.window, k, m.header.messageId, 0))
    ensures SeqOf(Sealed(sha, m)) == k
  {
    hide Encode, Decode, Sealed, NewInputMessage, Ack;
    StreamMessage(sha, m, k);
  }

  lemma Emptiness(limit: int)
    ensures EmptyWindow(limit).outgoing == map[]
  {
  }

  lemma TakenAndAcked(sha: Hash, base: nat, limit: nat, x: byte, stamp: Stamp)
    requires base <= MAX_INT64
    ensures var s1 := SentState(sha, Init(base, limit), [x], stamp, 0);
            var s := Next(sha, Next(sha, s1, Deliver(0)), AckArrives(0, 0));
            && IsIdle(s) && s.window.outgoing == map[] && NoFailedWrite(s) && InHand(s, base)
            && s.receiver.stream == [] && Attempted(s) == [x]
  {
    hide Encode, Sealed, NewInputMessage, Add, Ack, EmptyWindow, Next;
    var m := NewInputMessage([x], base, stamp.id, stamp.created);
    OneByte(x, base, stamp);
    TakenIn(sha, SentState(sha, Init(base, limit), [x], stamp, 0), m, base);
    EmptyAgain(limit, base, stamp.id, Encode(sha, m));
    Emptiness(limit);
    assert Payloads([Slot(m, Sent)]) == [[x]] && Flatten([[x]]) == [x];
  }

  lemma EmptyRoom(limit: int, need: int)
    ensures HasRoom(EmptyWindow(limit), need) <==> need <= limit
  {
  }

  // A message acknowledged but held back: the window is empty and the reader has nothing.
  lemma AcknowledgedTooEarly(sha: Hash, base: nat, limit: nat, x: byte, stamp: Stamp) returns (steps: seq<Step>)
    requires base <= MAX_INT64 && limit >= TOTAL_HEADER_LEN + 1
    ensures var s := Run(sha, Init(base, limit), steps);
            && IsIdle(s) && s.window.outgoing == map[] && NoFailedWrite(s) && InHand(s, base)
            && s.receiver.stream == [] && Attempted(s) == [x]
  {
    hide Encode, Decode, Sealed, NewInputMessage, Run, EmptyWindow, Next;
    var s0 := Init(base, limit);
    EmptyRoom(limit, TOTAL_HEADER_LEN + 1);
    Sends(sha, s0, [x], stamp, 0);
    var sent := SendSteps([x], stamp, 0);
    RunSnoc(sha, s0, sent, Deliver(0));
    RunSnoc(sha, s0, sent + [Deliver(0)], AckArrives(0, 0));
    steps := sent + [Deliver(0)] + [AckArrives(0, 0)];
    TakenAndAcked(sha, base, limit, x, stamp);
  }

  // The first chunk is tracked, the transport goes down, the write deadline passes, and
  // the transport comes back.
  lemma TrackedThenDown(sha: Hash, s: System, x: byte, stamp: Stamp)
    requires s.slots == [] && !s.paused && !s.closed && s.clock == 0 && s.base <= MAX_INT64
    requires HasRoom(s.window, TOTAL_HEADER_LEN + 1)
    ensures var m := NewInputMessage([x], s.base, stamp.id, stamp.created);
            Next(sha, Next(sha, Next(sha, s, Claim([x], stamp)), Track(0)), Lose)
            == s.(slots := [Slot(m, Tracked)], down := true,
                  window := Add(s.window, s.base, stamp.id, Encode(sha, m), 0))
  {
    hide Encode, NewInputMessage, Add;
    OneByte(x, s.base, stamp);
  }

  lemma FailThenResume(sha: Hash, s: System, m: AgentMessage, limit: int)
    requires s.slots == [Slot(m, Tracked)] && s.down && s.clock == 0 && !s.closed && !s.paused
    requires s.window == Add(EmptyWindow(limit), s.base, m.header.messageId, Encode(sha, m), 0)
    ensures Next(sha, Next(sha, s, Fail), Resume(0))
            == s.(slots := [Slot(m, Dropped)], window := EmptyWindow(limit), down := false, firstResend := map[],
                  resumes := s.resumes + 1)
  {
    hide Encode, Add, Drop, EmptyWindow, Marked;
    EmptyAgain(limit, s.base, m.header.messageId, Encode(sha, m));
  }

  lemma FirstDropped(sha: Hash, base: nat, limit: nat, x: byte, stamp: Stamp) returns (steps: seq<Step>)
    requires base <= MAX_INT64 && limit >= TOTAL_HEADER_LEN + 1
    ensures var m := NewInputMessage([x], base, stamp.id, stamp.created);
            Run(sha, Init(base, limit), steps) == Init(base, limit).(slots := [Slot(m, Dropped)], resumes := 1)
  {
    hide Encode, NewInputMessage, Add, EmptyWindow, Next, Run;
    var m := NewInputMessage([x], base, stamp.id, stamp.created);
    var s0 := Init(base, limit);
    EmptyRoom(limit, TOTAL_HEADER_LEN + 1);
    OneByte(x, base, stamp);
    TrackedThenDown(sha, s0, x, stamp);
    var s3 := s0.(slots := [Slot(m, Tracked)], down := true,
                  window := Add(s0.window, base, stamp.id, Encode(sha, m), 0));
    FailThenResume(sha, s3, m, limit);
    steps := [] + [Claim([x], stamp)] + [Track(0)] + [Lose] + [Fail] + [Resume(0)];
    EmptyRun(sha, s0);
    RunSnoc(sha, s0, [], Claim([x], stamp));
    RunSnoc(sha, s0, [] + [Claim([x], stamp)], Track(0));
    RunSnoc(sha, s0, [] + [Claim([x], stamp)] + [Track(0)], Lose);
    RunSnoc(sha, s0, [] + [Claim([x], stamp)] + [Track(0)] + [Lose], Fail);
    RunSnoc(sha, s0, [] + [Claim([x], stamp)] + [Track(0)] + [Lose] + [Fail], Resume(0));
  }

  lemma NoBytes(segs: seq<bytes>)
    ensures Flatten(First(segs, 0)) == []
  {
  }

  lemma NothingGot(sha: Hash, s: System)
    requires Inv(sha, s) && Lost(s, s.base)
    ensures s.receiver.stream == []
  {
    hide Inv, Lost;
    LostBlocks(sha, s, s.base, []);
    EmptyRun(sha, s);
    NoBytes(Payloads(s.slots));
  }

  lemma TwoBytes(s: System, x: byte, y: byte)
    requires |s.slots| == 2 && s.slots[0].msg.payload == [x] && s.slots[1].msg.payload == [y]
    ensures Attempted(s) == [x, y]
  {
    assert Payloads(s.slots) == [[x], [y]];
    assert Flatten([[x], [y]]) == Flatten([[x]]) + [y] && Flatten([[x]]) == [x];
  }

  lemma FirstIsLost(sha: Hash, s: System, m: AgentMessage)
    requires |s.slots| == 2 && s.slots[0].fate == Dropped
    requires s.wire == [Encode(sha, m)] && IsStreamMessage(m, s.base + 1)
    requires s.loop == Waiting && s.inHand == None && s.arrived.Keys == {s.base + 1}
    ensures Lost(s, s.base)
  {
    hide Encode, Decode, Sealed, NewInputMessage;
    StreamMessage(sha, m, s.base + 1);
  }

  // Hence the guarantee does fail: a run in which the adapter is open, the writer idle and
  // every frame sent has been acknowledged and processed, and the reader has nothing and
  // never will, because an earlier Write failed.
  lemma FailedWriteStalls(sha: Hash, base: nat, limit: nat, x: byte, y: byte, stamp: Stamp) returns (steps: seq<Step>)
    requires base < MAX_INT64 && limit >= TOTAL_HEADER_LEN + 1
    ensures var s := Run(sha, Init(base, limit), steps);
            && IsIdle(s) && s.window.outgoing == map[] && !s.closed && !s.down && s.inHand == None
            && |s.slots| == 2 && s.slots[1].fate == Sent && base + 1 in s.arrived
            && Lost(s, base) && s.receiver.stream == [] && Attempted(s) == [x, y]
  {
    hide Encode, Decode, Sealed, NewInputMessage, Run, Add, Ack, Handle, Lost, EmptyWindow, Inv, Next, Attempted;
    var init := Init(base, limit);
    var m1 := NewInputMessage([y], base + 1, stamp.id, stamp.created);
    OneByte(y, base + 1, stamp);
    EmptyRoom(limit, TOTAL_HEADER_LEN + 1);
    var first := FirstDropped(sha, base, limit, x, stamp);
    var s1 := Run(sha, init, first);
    Sends(sha, s1, [y], stamp, 0);
    var s2 := SentState(sha, s1, [y], stamp, 0);
    Receives(sha, s2, m1, base + 1, 0);
    RunAppend(sha, init, first, SendSteps([y], stamp, 0));
    RunAppend(sha, init, first + SendSteps([y], stamp, 0), ReceiveSteps(0, 0, 0));
    steps := first + SendSteps([y], stamp, 0) + ReceiveSteps(0, 0, 0);
    EmptyAgain(limit, base + 1, stamp.id, Encode(sha, m1));
    Emptiness(limit);
    var s := Run(sha, init, steps);
    FirstIsLost(sha, s, m1);
    Reachable(sha, base, limit, steps);
    NothingGot(sha, s);
    OneByte(x, base, stamp);
    TwoBytes(s, x, y);
  }
}
