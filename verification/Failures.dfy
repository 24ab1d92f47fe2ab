// When the chunk of a failed Write can still get through.
module Failures {
  import opened Common
  import opened Bytes
  import opened Message
  import opened Window
  import opened Reorder
  import opened Segmentation
  import opened Channel
  import opened EndToEnd
  import opened Sending
  import opened Recovery

  lemma ProcessClears(sha: Hash, s: System)
    ensures var s' := Next(sha, s, Process);
            && s'.inHand == None && s'.wire == s.wire && s'.base == s.base
            && (s.inHand.Some? && SeqOf(s.inHand.value) >= s.base ==> SeqOf(s.inHand.value) in s'.arrived)
  {
    hide Handle;
  }

  lemma DeliverTakes(sha: Hash, s: System, j: nat, k: int)
    requires s.inHand == None && j < |s.wire| && HasNumber(s.wire[j], k)
    ensures var s' := Next(sha, s, Deliver(j)); InHand(s', k) && s'.base == s.base
  {
    hide Decode;
  }

  lemma HandArrives(sha: Hash, s: System, k: int)
    requires InHand(s, k) && k >= s.base
    ensures k in Run(sha, s, [Process]).arrived
  {
    hide Next;
    FirstStep(sha, s, Process);
    ProcessClears(sha, s);
  }

  // A copy on the wire can be taken in and processed.
  lemma WireArrives(sha: Hash, s: System, k: int) returns (steps: seq<Step>)
    requires OnWire(s.wire, k) && k >= s.base
    ensures k in Run(sha, s, steps).arrived
  {
    hide Next, Run, HasNumber, InHand;
    var j: nat :| j < |s.wire| && HasNumber(s.wire[j], k);
    steps := [Process] + [Deliver(j)] + [Process];
    FirstStep(sha, s, Process);
    RunSnoc(sha, s, [Process], Deliver(j));
    RunSnoc(sha, s, [Process] + [Deliver(j)], Process);
    ProcessClears(sha, s);
    var s1 := Next(sha, s, Process);
    DeliverTakes(sha, s1, j, k);
    var s2 := Next(sha, s1, Deliver(j));
    HandArrives(sha, s2, k);
    FirstStep(sha, s2, Process);
  }

  lemma SendIs(sha: Hash, s: System)
    requires s.loop.Writing?
    ensures Next(sha, s, LoopSend) == s.(wire := s.wire + [s.loop.data], loop := Waiting)
  {
  }

  lemma LoopFrame(sha: Hash, s: System)
    requires Inv(sha, s)
    ensures s.loop.Calling? || s.loop.Writing? ==> HasNumber(s.loop.data, s.loop.k)
  {
    hide Encode, Decode, Sealed, Describes, Accounted, WithinLimit, NewInputMessage, WindowHolds, WireHolds,
         ArrivedHolds;
    if s.loop.Calling? || s.loop.Writing? {
      StreamMessage(sha, At(s, s.loop.k).msg, s.loop.k);
    }
  }

  // A frame the loop can still send can be put on the wire, after a resume if need be.
  lemma LoopSends(sha: Hash, s: System, k: int) returns (steps: seq<Step>)
    requires Inv(sha, s) && LoopCanSend(s, k)
    ensures OnWire(Run(sha, s, steps).wire, k) && Run(sha, s, steps).base == s.base
  {
    hide Inv, Next, Run, HasNumber, OnWire, Marked;
    LoopFrame(sha, s);
    if s.loop.Writing? {
      steps := [LoopSend];
      FirstStep(sha, s, LoopSend);
      SendIs(sha, s);
      OnWireMore(s.wire, s.loop.data, k);
    } else {
      steps := [Lose] + [Resume(s.clock)] + [LoopBegin] + [LoopSend];
      FirstStep(sha, s, Lose);
      RunSnoc(sha, s, [Lose], Resume(s.clock));
      RunSnoc(sha, s, [Lose] + [Resume(s.clock)], LoopBegin);
      RunSnoc(sha, s, [Lose] + [Resume(s.clock)] + [LoopBegin], LoopSend);
      LoseAndResume(sha, s, s.clock);
      WriteOut(sha, Next(sha, Next(sha, s, Lose), Resume(s.clock)));
      OnWireMore(s.wire, s.loop.data, k);
    }
  }

  // What a copy on its way needs to arrive.
  lemma Arrives(sha: Hash, s: System, k: int) returns (steps: seq<Step>)
    requires Inv(sha, s) && k >= s.base && OnItsWay(s, k)
    ensures k in Run(sha, s, steps).arrived
  {
    hide Inv, Next, Run, OnWire, LoopCanSend, InHand;
    if k in s.arrived {
      steps := [];
      EmptyRun(sha, s);
    } else if InHand(s, k) {
      steps := [Process];
      HandArrives(sha, s, k);
    } else if OnWire(s.wire, k) {
      steps := WireArrives(sha, s, k);
    } else {
      var sending := LoopSends(sha, s, k);
      var rest := WireArrives(sha, Run(sha, s, sending), k);
      steps := sending + rest;
      RunAppend(sha, s, sending, rest);
    }
  }

  lemma LostHasNotArrived(s: System, k: int)
    requires Lost(s, k)
    ensures k !in s.arrived
  {
  }

  // The chunk of a failed Write can still get through exactly when a copy of it has reached
  // the receiver, is on the wire, or is with a resend loop that can still send.
  lemma FailedArrivesExactly(sha: Hash, s: System, k: int)
    requires Inv(sha, s) && Numbers(s, k) && Failed(At(s, k).fate)
    ensures (exists steps :: k in Run(sha, s, steps).arrived) <==> OnItsWay(s, k)
  {
    hide Inv, Next, Run, OnItsWay;
    if OnItsWay(s, k) {
      var steps := Arrives(sha, s, k);
      assert k in Run(sha, s, steps).arrived;
    } else {
      forall steps ensures k !in Run(sha, s, steps).arrived {
        LostStays(sha, s, k, steps);
        LostHasNotArrived(Run(sha, s, steps), k);
      }
    }
  }
}
