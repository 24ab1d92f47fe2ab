// What the channel delivers, over every run: a prefix, everything once the window is
// empty, and exactly when a failed Write stands in the way.
module EndToEnd {
  import opened Common
  import opened Bytes
  import opened Message
  import opened Window
  import opened Reorder
  import opened Segmentation
  import opened Channel

  function Payloads(slots: seq<Slot>): (segs: seq<bytes>)
    ensures |segs| == |slots|
    ensures forall i :: 0 <= i < |slots| ==> segs[i] == slots[i].msg.payload
  {
    seq(|slots|, i requires 0 <= i < |slots| => slots[i].msg.payload)
  }

  // All bytes the writer has taken a number for, in order.
  function Attempted(s: System): bytes {
    Flatten(Payloads(s.slots))
  }

  predicate Failed(fate: Fate) {
    fate == Refused || fate == Dropped
  }

  predicate NoFailedWrite(s: System) {
    forall i :: 0 <= i < |s.slots| ==> !Failed(s.slots[i].fate)
  }

  lemma WirePayload(sha: Hash, s: System, m: AgentMessage)
    requires WellNumbered(s.base, s.slots) && OffTheWire(sha, s, m)
    ensures s.base <= SeqOf(m) < s.base + |s.slots|
    ensures StreamBytes(m) == Payloads(s.slots)[SeqOf(m) - s.base]
  {
    hide Encode, Decode, Sealed, NewInputMessage;
    StreamMessage(sha, At(s, SeqOf(m)).msg, SeqOf(m));
  }

  lemma ArrivedCarries(sha: Hash, s: System)
    requires Inv(sha, s)
    ensures Carries(s.arrived, s.base, Payloads(s.slots))
    ensures forall i :: 0 <= i < |s.slots| ==> Payloads(s.slots)[i] != []
  {
    hide OffTheWire, Describes, Accounted, WithinLimit, WindowHolds, WireHolds, LoopHolds, AcksHold, Covered, OneWriter,
         NewInputMessage;
    forall k | k in s.arrived
      ensures s.base <= k < s.base + |s.slots| && StreamBytes(s.arrived[k]) == Payloads(s.slots)[k - s.base]
    {
      WirePayload(sha, s, s.arrived[k]);
    }
    forall i | 0 <= i < |s.slots| ensures Payloads(s.slots)[i] != [] {
      assert IsStreamMessage(s.slots[i].msg, s.base + i);
    }
  }

  ghost predicate AllArrived(s: System) {
    forall k :: s.base <= k < s.base + |s.slots| ==> k in s.arrived
  }

  // Every failed number whose frame got through anyway.
  ghost predicate FailuresArrived(s: System) {
    forall k :: Numbers(s, k) && Failed(At(s, k).fate) ==> k in s.arrived
  }

  // The message acknowledged but not yet processed, if any, is one already delivered.
  ghost predicate NothingHeldBack(s: System) {
    s.inHand.Some? ==> SeqOf(s.inHand.value) in s.arrived
  }

  // With the writer idle and nothing unacknowledged, all that can be missing is failures
  // and the message between its acknowledgement and its processing.
  lemma OnlyFailuresMissing(sha: Hash, s: System)
    requires Inv(sha, s) && IsIdle(s) && s.window.outgoing == map[]
    ensures AllArrived(s) <==> FailuresArrived(s) && NothingHeldBack(s)
    ensures forall k :: Numbers(s, k) && k !in s.arrived ==> Failed(At(s, k).fate) || InHand(s, k)
  {
    hide Encode, Decode, Sealed, Describes, Accounted, WithinLimit, NewInputMessage, WindowHolds, WireHolds, LoopHolds;
    forall k | Numbers(s, k) && k !in s.arrived ensures Failed(At(s, k).fate) || InHand(s, k) {
      if !Failed(At(s, k).fate) {
        assert Live(At(s, k).fate);
      }
    }
    if s.inHand.Some? {
      assert OffTheWire(sha, s, s.inHand.value);
    }
    hide OffTheWire, OneWriter, WellNumbered;
  }

  lemma InvDescribes(sha: Hash, s: System)
    requires Inv(sha, s)
    ensures Describes(s.receiver, s.base, s.arrived)
  {
  }

  lemma StreamIsPrefix(sha: Hash, s: System)
    requires Inv(sha, s)
    ensures s.base <= s.receiver.expected <= s.base + |s.slots|
    ensures s.receiver.stream == Flatten(First(Payloads(s.slots), s.receiver.expected - s.base)) <= Attempted(s)
    ensures s.receiver.stream == Attempted(s) <==> AllArrived(s)
  {
    ArrivedCarries(sha, s);
    InvDescribes(sha, s);
    hide Inv, Describes, Carries, Flatten, First;
    Delivered(s.receiver, s.base, s.arrived, Payloads(s.slots));
  }

  // Safety, for every run whatever fails: what the reader sees is a whole number of the
  // writer's chunks, from the first on, in order, each once.
  lemma PrefixAlways(sha: Hash, base: nat, limit: nat, steps: seq<Step>)
    requires base <= MAX_INT64
    ensures var s := Run(sha, Init(base, limit), steps);
            && s.receiver.stream <= Attempted(s)
            && exists n :: 0 <= n <= |s.slots| && s.receiver.stream == Flatten(First(Payloads(s.slots), n))
  {
    hide Inv, Run, Flatten, First, Payloads;
    var s := Run(sha, Init(base, limit), steps);
    Reachable(sha, base, limit, steps);
    StreamIsPrefix(sha, s);
    var n := s.receiver.expected - s.base;
    assert 0 <= n <= |s.slots| && s.receiver.stream == Flatten(First(Payloads(s.slots), n));
  }

  // Completeness: the window is empty and the writer idle. Then everything has been
  // delivered exactly when each failed number happened to arrive and nothing is held back
  // between its acknowledgement and its processing.
  lemma CompleteWhenAcknowledged(sha: Hash, base: nat, limit: nat, steps: seq<Step>)
    requires base <= MAX_INT64
    ensures var s := Run(sha, Init(base, limit), steps);
            IsIdle(s) && s.window.outgoing == map[] ==>
              && (s.receiver.stream == Attempted(s) <==> FailuresArrived(s) && NothingHeldBack(s))
              && (NoFailedWrite(s) && s.inHand == None ==> s.receiver.stream == Attempted(s))
  {
    hide Inv, Run, Attempted;
    var s := Run(sha, Init(base, limit), steps);
    Reachable(sha, base, limit, steps);
    StreamIsPrefix(sha, s);
    if IsIdle(s) && s.window.outgoing == map[] {
      OnlyFailuresMissing(sha, s);
    }
  }

  lemma HandExpected(sha: Hash, s: System)
    requires Inv(sha, s) && !NothingHeldBack(s)
    requires forall k :: Numbers(s, k) && k !in s.arrived ==> InHand(s, k)
    ensures s.receiver.expected == SeqOf(s.inHand.value) < s.base + |s.slots|
  {
    hide Encode, Decode, Sealed, Accounted, WithinLimit, NewInputMessage, WindowHolds, WireHolds, LoopHolds;
    var k := SeqOf(s.inHand.value);
    assert OffTheWire(sha, s, s.inHand.value);
    assert forall j :: s.base <= j < k ==> Numbers(s, j);
  }

  lemma ProcessFrame(sha: Hash, s: System)
    ensures var s' := Next(sha, s, Process);
            s'.slots == s.slots && s'.base == s.base && s'.window == s.window && s'.inHand == None
            && Attempted(s') == Attempted(s)
  {
    hide Handle, Note;
  }

  // What is missing otherwise: with no failed Write exactly the bytes from the message in
  // hand on, and processing that message completes the stream.
  lemma HeldBackExactly(sha: Hash, base: nat, limit: nat, steps: seq<Step>)
    requires base <= MAX_INT64
    ensures var s := Run(sha, Init(base, limit), steps);
            IsIdle(s) && s.window.outgoing == map[] && NoFailedWrite(s) && !NothingHeldBack(s) ==>
              var k := SeqOf(s.inHand.value);
              && s.base <= k < s.base + |s.slots|
              && s.receiver.stream == Flatten(First(Payloads(s.slots), k - s.base))
              && Next(sha, s, Process).receiver.stream == Attempted(s)
  {
    hide Inv, Run, Attempted, Next, Payloads, Flatten, Init;
    var s := Run(sha, Init(base, limit), steps);
    Reachable(sha, base, limit, steps);
    if IsIdle(s) && s.window.outgoing == map[] && NoFailedWrite(s) && !NothingHeldBack(s) {
      OnlyFailuresMissing(sha, s);
      StreamIsPrefix(sha, s);
      HandExpected(sha, s);
      var s' := Next(sha, s, Process);
      NextKeeps(sha, s, Process);
      ProcessFrame(sha, s);
      StreamIsPrefix(sha, s');
      OnlyFailuresMissing(sha, s');
    }
  }

  // ----- a lost number blocks the stream for good -----

  ghost predicate HasNumber(frame: bytes, k: int) {
    Decode(frame).Ok? && SeqOf(Decode(frame).message) == k
  }

  ghost predicate OnWire(wire: seq<bytes>, k: int) {
    exists j :: 0 <= j < |wire| && HasNumber(wire[j], k)
  }

  // The resend loop has the frame of number k and can still put it on the wire: an attempt
  // is under way, or the adapter is open for one.
  predicate LoopCanSend(s: System, k: int) {
    (s.loop.Writing? && s.loop.k == k) || (s.loop.Calling? && s.loop.k == k && !s.closed)
  }

  // A copy of number k is with the receiver, on the wire, or still in the loop's hands.
  ghost predicate OnItsWay(s: System, k: int) {
    Reached(s, k) || OnWire(s.wire, k) || LoopCanSend(s, k)
  }

  // The Write of number k failed, and no copy of it is on its way.
  ghost predicate Lost(s: System, k: int) {
    Numbers(s, k) && Failed(At(s, k).fate) && !OnItsWay(s, k)
  }

  // A number keeps its message, and its fate once it is settled.
  ghost predicate Fixed(s: System, s': System) {
    && s'.base == s.base
    && |s.slots| <= |s'.slots|
    && forall i :: 0 <= i < |s.slots| ==>
         && s'.slots[i].msg == s.slots[i].msg
         && (!UnderWay(s.slots[i].fate) ==> s'.slots[i].fate == s.slots[i].fate)
  }

  lemma NextFixes(sha: Hash, s: System, step: Step)
    ensures Fixed(s, Next(sha, s, step))
  {
    hide Encode, Decode, NewInputMessage, Ack, Drop, Add, Marked, Tick, Handle, Note, HasRoom;
  }

  lemma {:induction false} RunFixes(sha: Hash, s: System, steps: seq<Step>)
    ensures Fixed(s, Run(sha, s, steps))
  {
    hide Next;
    if steps == [] {
    } else {
      RunFixes(sha, s, steps[..|steps| - 1]);
      NextFixes(sha, Run(sha, s, steps[..|steps| - 1]), steps[|steps| - 1]);
    }
  }

  // What a step may put on the wire: the frame being sent or the loop's.
  lemma WireGrowsBy(sha: Hash, s: System, step: Step)
    ensures var s' := Next(sha, s, step);
            || s'.wire == s.wire
            || ((step == Transmit || step.Break?) && LastIs(s, Sending) && s'.wire == s.wire + [LastFrame(sha, s)])
            || ((step == LoopSend || step.LoopBreak?) && s.loop.Writing? && s'.wire == s.wire + [s.loop.data])
  {
    hide Encode, Decode, NewInputMessage, Ack, Drop, Add, Marked, Tick, Handle, Note, HasRoom;
  }

  lemma FrameNumbers(sha: Hash, s: System)
    requires Inv(sha, s)
    ensures s.slots != [] ==> forall k :: HasNumber(LastFrame(sha, s), k) <==> k == s.base + |s.slots| - 1
    ensures s.loop.Writing? ==> forall k :: HasNumber(s.loop.data, k) <==> k == s.loop.k
  {
    hide Encode, Decode, Sealed, Describes, Accounted, WithinLimit, NewInputMessage, WindowHolds, WireHolds,
         ArrivedHolds;
    if s.slots != [] {
      StreamMessage(sha, s.slots[|s.slots| - 1].msg, s.base + |s.slots| - 1);
    }
    if s.loop.Writing? {
      StreamMessage(sha, At(s, s.loop.k).msg, s.loop.k);
    }
  }

  lemma OnWireMore(wire: seq<bytes>, frame: bytes, k: int)
    ensures OnWire(wire + [frame], k) <==> OnWire(wire, k) || HasNumber(frame, k)
  {
    hide HasNumber;
    var more := wire + [frame];
    assert more[|wire|] == frame;
    if OnWire(wire, k) {
      var j :| 0 <= j < |wire| && HasNumber(wire[j], k);
      assert more[j] == wire[j];
    }
  }

  lemma ReceiverElsewhere(sha: Hash, s: System, step: Step)
    requires !step.Deliver? && !step.Process?
    ensures Next(sha, s, step).inHand == s.inHand && Next(sha, s, step).arrived == s.arrived
  {
    hide Encode, Decode, NewInputMessage, Ack, DropLast, Add, Marked, Tick, HasRoom;
  }

  // What a step may bring to the receiver: a frame of the wire.
  lemma ReachedGrowsBy(sha: Hash, s: System, step: Step, k: int)
    requires Reached(Next(sha, s, step), k)
    ensures Reached(s, k) || OnWire(s.wire, k)
  {
    if !step.Deliver? && !step.Process? {
      ReceiverElsewhere(sha, s, step);
      hide Next;
    } else {
      hide Encode, Decode, Handle;
      if step.Deliver? && step.frame < |s.wire| {
        assert HasNumber(s.wire[step.frame], k) ==> OnWire(s.wire, k);
      }
    }
  }

  // The loop only ever takes up a tracked number, and a closed adapter stays closed.
  lemma LoopTakesTracked(sha: Hash, s: System, step: Step, k: int)
    requires Accounted(s.window) && LoopCanSend(Next(sha, s, step), k)
    ensures LoopCanSend(s, k) || (step.LoopTake? && k == s.window.oldest && k in s.window.outgoing)
  {
    hide Encode, Decode, NewInputMessage, Ack, Drop, Add, Marked, Handle, Note, HasRoom, Accounted;
    if step.LoopTake? {
      TimersOnly(s.window, step.now);
    }
  }

  lemma WritingCanSend(s: System)
    ensures s.loop.Writing? ==> LoopCanSend(s, s.loop.k)
  {
  }

  lemma LostNext(sha: Hash, s: System, step: Step, k: int)
    requires Inv(sha, s) && Lost(s, k)
    ensures Lost(Next(sha, s, step), k)
  {
    hide Next, HasNumber, OnWire, LoopCanSend, Reached, Describes, Accounted, WithinLimit, WireHolds, ArrivedHolds,
         LoopHolds, AcksHold, Covered;
    var s' := Next(sha, s, step);
    NextFixes(sha, s, step);
    assert At(s', k).fate == At(s, k).fate;
    WireGrowsBy(sha, s, step);
    FrameNumbers(sha, s);
    if s'.wire != s.wire {
      OnWireMore(s.wire, s'.wire[|s.wire|], k);
      WritingCanSend(s);
    }
    if Reached(s', k) {
      ReachedGrowsBy(sha, s, step, k);
    }
    if LoopCanSend(s', k) {
      LoopTakesTracked(sha, s, step, k);
    }
  }

  lemma {:induction false} LostStays(sha: Hash, s: System, k: int, steps: seq<Step>)
    requires Inv(sha, s) && Lost(s, k)
    ensures Lost(Run(sha, s, steps), k)
  {
    hide Next, Inv, Lost;
    if steps == [] {
    } else {
      LostStays(sha, s, k, steps[..|steps| - 1]);
      RunKeeps(sha, s, steps[..|steps| - 1]);
      LostNext(sha, Run(sha, s, steps[..|steps| - 1]), steps[|steps| - 1], k);
    }
  }

  lemma LostNotExpected(sha: Hash, s: System, k: int)
    requires Inv(sha, s) && Lost(s, k)
    ensures s.base <= s.receiver.expected <= k
  {
    hide Encode, Decode, Sealed, Accounted, WithinLimit, NewInputMessage, WindowHolds, WireHolds, Covered;
  }

  lemma FirstOfFirst(segs: seq<bytes>, i: nat, n: nat)
    requires n <= i <= |segs|
    ensures First(First(segs, i), n) == First(segs, n)
  {
  }

  // Once a Write has failed with no copy of its chunk on the way, no continuation whatever
  // delivers that chunk or any byte after it.
  lemma LostBlocks(sha: Hash, s: System, k: int, steps: seq<Step>)
    requires Inv(sha, s) && Lost(s, k)
    ensures var s' := Run(sha, s, steps);
            && Lost(s', k) && s'.receiver.expected <= k
            && s'.receiver.stream <= Flatten(First(Payloads(s.slots), k - s.base))
  {
    hide Run, Inv, Flatten, HasNumber, OnWire, LoopCanSend, Reached;
    var s' := Run(sha, s, steps);
    var i := k - s.base;
    RunKeeps(sha, s, steps);
    RunFixes(sha, s, steps);
    LostStays(sha, s, k, steps);
    StreamIsPrefix(sha, s');
    LostNotExpected(sha, s', k);
    ArrivedCarries(sha, s');
    var n := s'.receiver.expected - s.base;
    assert First(Payloads(s'.slots), i) == First(Payloads(s.slots), i);
    FlattenPrefix(First(Payloads(s'.slots), i), n);
    FirstOfFirst(Payloads(s'.slots), i, n);
  }

  lemma RefusedIsLost(sha: Hash, s: System, i: nat)
    requires Inv(sha, s) && i < |s.slots| && s.slots[i].fate == Refused
    ensures Lost(s, s.base + i)
  {
    hide Encode, Decode, Sealed, Accounted, WithinLimit, NewInputMessage, WindowHolds, Describes;
    var k := s.base + i;
    assert Numbers(s, k) && At(s, k).fate == Refused;
    forall j | 0 <= j < |s.wire| ensures !HasNumber(s.wire[j], k) {
      assert Genuine(sha, s, s.wire[j]);
    }
    assert forall j :: j in s.arrived ==> OffTheWire(sha, s, s.arrived[j]);
  }
  // A chunk refused before it was tracked is always lost.
  lemma RefusedBlocks(sha: Hash, s: System, i: nat, steps: seq<Step>)
    requires Inv(sha, s) && i < |s.slots| && s.slots[i].fate == Refused
    ensures var s' := Run(sha, s, steps);
            s'.receiver.expected <= s.base + i
            && s'.receiver.stream <= Flatten(First(Payloads(s.slots), i))
  {
    hide Run, Flatten, First, Payloads, Inv, Lost;
    RefusedIsLost(sha, s, i);
    LostBlocks(sha, s, s.base + i, steps);
  }
}
