// A resume followed by a network that works empties the window: one retransmission per
// frame, in ascending order, with nothing else needed from the old transport.
module Recovery {
  import opened Common
  import opened Bytes
  import opened Sets
  import opened Message
  import opened Window
  import opened Reorder
  import opened Segmentation
  import opened Channel
  import opened EndToEnd
  import opened Sending

  const RESEND_INTERVAL := 100 * MILLISECOND

  // The tracked frames from the lowest number up.
  ghost function Ascending(m: map<int, Entry>): (frames: seq<bytes>)
    ensures |frames| == |m|
    decreases |m|
  {
    if m == map[] then []
    else
      var k := Least(m.Keys);
      assert m.Keys == (m - {k}).Keys + {k};
      [m[k].data] + Ascending(m - {k})
  }

  // A turn of the resend loop that sends the oldest frame; then that copy arrives, is
  // processed, and its acknowledgement comes back. A loop already past its checks skips
  // the first two steps.
  function TurnSteps(t: int): seq<Step> {
    [LoopLook] + [LoopCheck(t)] + [LoopTake(t)] + [LoopBegin] + [LoopSend]
  }

  function Round(s: System, t: int): seq<Step> {
    TurnSteps(t) + ReceiveSteps(|s.wire|, |s.acks|, t)
  }

  // The transport is up, the publication open, and every frame overdue by time t.
  ghost predicate Ready(s: System, t: int) {
    && !s.closed && !s.down && !s.paused && s.inHand == None && s.clock <= t
    && (s.loop == Waiting || s.loop == Checked)
    && forall k :: k in s.window.outgoing ==>
         s.window.outgoing[k].resends == 0 && t - s.window.outgoing[k].lastSent > MAX_RTO
  }

  lemma RunFive(sha: Hash, s: System, a: Step, b: Step, c: Step, d: Step, e: Step)
    ensures Run(sha, s, [a] + [b] + [c] + [d] + [e])
            == Next(sha, Next(sha, Next(sha, Next(sha, Next(sha, s, a), b), c), d), e)
  {
    hide Next;
    FirstStep(sha, s, a);
    RunSnoc(sha, s, [a], b);
    RunSnoc(sha, s, [a] + [b], c);
    RunSnoc(sha, s, [a] + [b] + [c], d);
    RunSnoc(sha, s, [a] + [b] + [c] + [d], e);
  }

  // What taking the oldest frame of a ready window gives.
  lemma TickReady(w: Window, t: int)
    requires Accounted(w) && w.outgoing != map[]
    requires w.oldest in w.outgoing ==> w.outgoing[w.oldest].resends == 0 && t - w.outgoing[w.oldest].lastSent > MAX_RTO
    ensures var k := w.oldest;
            && IsLeast(k, w.outgoing.Keys)
            && Tick(w, t) == (w.(outgoing := w.outgoing[k := w.outgoing[k].(resends := 1, lastSent := t)]),
                              Again(k, w.outgoing[k].data))
  {
    hide Sum;
  }

  lemma LookAndCheck(sha: Hash, s: System, t: int)
    requires (s.loop == Waiting || s.loop == Checked) && !s.down && !s.paused && s.clock <= t
    ensures var s' := Next(sha, Next(sha, s, LoopLook), LoopCheck(t));
            s' == s.(loop := Checked, clock := s'.clock) && s'.clock <= t
  {
  }

  lemma TakeUp(sha: Hash, s: System, t: int)
    requires s.loop == Checked && s.clock <= t && Tick(s.window, t).1.Again?
    ensures var (w, action) := Tick(s.window, t);
            var s' := Next(sha, s, LoopTake(t));
            s' == s.(window := w, loop := Calling(action.seqNo, action.data), clock := t, firstResend := s'.firstResend)
  {
    hide Tick;
  }

  // The frame the loop already has in writeRaw.
  function Pending(loop: Loop): seq<bytes> {
    if loop.Calling? || loop.Writing? then [loop.data] else []
  }

  lemma WriteOut(sha: Hash, s: System)
    requires !s.closed && !s.down
    ensures Next(sha, Next(sha, s, LoopBegin), LoopSend)
            == s.(wire := s.wire + Pending(s.loop),
                  loop := if s.loop.Calling? || s.loop.Writing? then Waiting else s.loop)
  {
    assert s.wire + [] == s.wire;
  }

  lemma OldestTracked(sha: Hash, s: System)
    requires Inv(sha, s) && s.window.outgoing != map[]
    ensures Accounted(s.window) && s.window.oldest in s.window.outgoing
  {
  }

  // The loop's turn sends the oldest frame once more.
  lemma TurnSends(sha: Hash, s: System, t: int)
    requires Inv(sha, s) && Ready(s, t) && s.window.outgoing != map[]
    ensures var k := s.window.oldest;
            var s' := Run(sha, s, TurnSteps(t));
            && IsLeast(k, s.window.outgoing.Keys)
            && s' == s.(wire := s.wire + [s.window.outgoing[k].data], loop := Waiting, clock := t,
                        window := s.window.(outgoing := s.window.outgoing[k :=
                                                          s.window.outgoing[k].(resends := 1, lastSent := t)]),
                        firstResend := s'.firstResend)
  {
    OldestTracked(sha, s);
    TickReady(s.window, t);
    hide Inv, Next, Run, Tick;
    RunFive(sha, s, LoopLook, LoopCheck(t), LoopTake(t), LoopBegin, LoopSend);
    LookAndCheck(sha, s, t);
    var s2 := Next(sha, Next(sha, s, LoopLook), LoopCheck(t));
    TakeUp(sha, s2, t);
    WriteOut(sha, Next(sha, s2, LoopTake(t)));
  }

  lemma TrackedStream(sha: Hash, s: System, k: int)
    requires Inv(sha, s) && k in s.window.outgoing
    ensures Numbers(s, k) && IsStreamMessage(At(s, k).msg, k)
    ensures s.window.outgoing[k].data == Encode(sha, At(s, k).msg)
    ensures s.window.outgoing[k].id == At(s, k).msg.header.messageId
  {
    hide Encode, Decode, Sealed, Describes, WithinLimit, NewInputMessage, ArrivedHolds, Covered, LoopHolds, AcksHold,
         WireHolds, OneWriter, Accounted, IsStreamMessage;
    assert IsStreamMessage(s.slots[k - s.base].msg, s.base + (k - s.base));
  }

  lemma AckOfOldest(sha: Hash, s: System, k: int, t: int)
    requires Inv(sha, s) && k in s.window.outgoing
    ensures Ack(s.window, k, s.window.outgoing[k].id, t).outgoing == s.window.outgoing - {k}
  {
    hide Ack, Drop;
    AckKeeps(s.window, k, s.window.outgoing[k].id, t);
  }

  lemma RoundWorks(sha: Hash, s: System, t: int)
    requires Inv(sha, s) && Ready(s, t) && s.window.outgoing != map[]
    ensures var s' := Run(sha, s, Round(s, t));
            && Inv(sha, s') && Ready(s', t)
            && s'.window.outgoing == s.window.outgoing - {s.window.oldest}
            && s'.wire == s.wire + [s.window.outgoing[s.window.oldest].data]
            && IsLeast(s.window.oldest, s.window.outgoing.Keys)
            && s'.slots == s.slots && s'.base == s.base
  {
    hide Inv, Next, Run, Encode, Ack, Handle, Sealed, NewInputMessage;
    var k := s.window.oldest;
    TurnSends(sha, s, t);
    OldestTracked(sha, s);
    TrackedStream(sha, s, k);
    RunKeeps(sha, s, TurnSteps(t));
    var s1 := Run(sha, s, TurnSteps(t));
    Receives(sha, s1, At(s, k).msg, k, t);
    var s2 := Run(sha, s1, ReceiveSteps(|s.wire|, |s.acks|, t));
    RunKeeps(sha, s1, ReceiveSteps(|s.wire|, |s.acks|, t));
    RunAppend(sha, s, TurnSteps(t), ReceiveSteps(|s.wire|, |s.acks|, t));
    AckOfOldest(sha, s1, k, t);
    assert s1.window.outgoing - {k} == s.window.outgoing - {k};
  }

  // Round after round, a resend interval apart, until nothing is tracked.
  lemma {:induction false} Drains(sha: Hash, s: System, t: int) returns (steps: seq<Step>)
    requires Inv(sha, s) && Ready(s, t)
    ensures |steps| == 8 * |s.window.outgoing|
    ensures var s' := Run(sha, s, steps);
            && Inv(sha, s') && s'.window.outgoing == map[] && s'.inHand == None
            && s'.wire == s.wire + Ascending(s.window.outgoing)
            && s'.slots == s.slots && s'.base == s.base && !s'.closed
    decreases |s.window.outgoing|
  {
    hide Inv, Next, Run;
    if s.window.outgoing == map[] {
      steps := [];
      EmptyRun(sha, s);
    } else {
      RoundWorks(sha, s, t);
      var k := s.window.oldest;
      var s1 := Run(sha, s, Round(s, t));
      assert s.window.outgoing.Keys == s1.window.outgoing.Keys + {k};
      LeastUnique(k, s.window.outgoing.Keys);
      var rest := Drains(sha, s1, t + RESEND_INTERVAL);
      steps := Round(s, t) + rest;
      RunAppend(sha, s, Round(s, t), rest);
    }
  }

  // The transport goes down and comes back, and what was under way on both sides finishes.
  function ResumeSteps(now: int): seq<Step> {
    [Process] + ([Lose] + [Resume(now)] + [LoopBegin] + [LoopSend] + [LoopCheck(now)])
  }

  lemma SameAttempt(s: System, s': System)
    requires s'.slots == s.slots
    ensures Attempted(s') == Attempted(s)
  {
  }

  lemma LoseAndResume(sha: Hash, s: System, now: int)
    requires !s.closed && s.clock <= now
    ensures Next(sha, Next(sha, s, Lose), Resume(now))
            == s.(window := Marked(s.window, now), down := false, paused := false, clock := now, firstResend := map[],
                  resumes := s.resumes + 1)
  {
    hide Marked;
  }

  lemma CheckAfter(sha: Hash, s: System, now: int)
    requires !s.paused && s.clock == now && (s.loop == Waiting || s.loop == Looked || s.loop == Checked)
    ensures var s' := Next(sha, s, LoopCheck(now));
            s' == s.(loop := s'.loop) && (s'.loop == Waiting || s'.loop == Checked)
  {
  }

  // The prelude of the recovery, after the receiver has finished its message.
  lemma ResumeIs(sha: Hash, s: System, now: int)
    requires !s.closed && s.loop != Ended && s.clock <= now
    ensures var s' := Run(sha, s, [Lose] + [Resume(now)] + [LoopBegin] + [LoopSend] + [LoopCheck(now)]);
            && s' == s.(window := Marked(s.window, now), wire := s.wire + Pending(s.loop), down := false,
                        paused := false, clock := now, firstResend := map[], resumes := s.resumes + 1, loop := s'.loop)
            && (s'.loop == Waiting || s'.loop == Checked)
  {
    hide Next, Run, Marked;
    RunFive(sha, s, Lose, Resume(now), LoopBegin, LoopSend, LoopCheck(now));
    LoseAndResume(sha, s, now);
    var s2 := Next(sha, Next(sha, s, Lose), Resume(now));
    WriteOut(sha, s2);
    CheckAfter(sha, Next(sha, Next(sha, s2, LoopBegin), LoopSend), now);
  }

  lemma Processed(sha: Hash, s: System)
    ensures var s' := Next(sha, s, Process);
            && s' == s.(receiver := s'.receiver, arrived := s'.arrived, inHand := None)
  {
    hide Handle, Note;
  }

  lemma {:induction false} AscendingSame(m: map<int, Entry>, n: map<int, Entry>)
    requires m.Keys == n.Keys
    requires forall k :: k in m ==> m[k].data == n[k].data
    ensures Ascending(m) == Ascending(n) && |m| == |n|
    decreases |m|
  {
    if m == map[] {
    } else {
      var k := Least(m.Keys);
      assert k in n;
      assert m.Keys == (m - {k}).Keys + {k};
      AscendingSame(m - {k}, n - {k});
      assert n.Keys == (n - {k}).Keys + {k};
    }
  }
  lemma ResumeReady(sha: Hash, s: System, now: int)
    requires Inv(sha, s) && !s.closed && s.loop != Ended && s.clock <= now
    ensures var s' := Run(sha, s, ResumeSteps(now));
            && Inv(sha, s') && Ready(s', now + MAX_RTO)
            && s'.wire == s.wire + Pending(s.loop) && s'.slots == s.slots && s'.base == s.base
            && |s'.window.outgoing| == |s.window.outgoing|
            && Ascending(s'.window.outgoing) == Ascending(s.window.outgoing)
  {
    RunKeeps(sha, s, ResumeSteps(now));
    hide Inv, Run, Next;
    FirstStep(sha, s, Process);
    var s0 := Next(sha, s, Process);
    Processed(sha, s);
    var five := [Lose] + [Resume(now)] + [LoopBegin] + [LoopSend] + [LoopCheck(now)];
    RunAppend(sha, s, [Process], five);
    ResumeIs(sha, s0, now);
    var s' := Run(sha, s, ResumeSteps(now));
    assert s'.window.outgoing.Keys == s.window.outgoing.Keys;
    AscendingSame(s.window.outgoing, s'.window.outgoing);
  }

  // From any reachable state with the retransmission loop alive: resume, then one round
  // per tracked frame. The window ends empty, the wire has grown by the frame the loop had
  // in its hands, if any, and the tracked frames in ascending order, each once, and the
  // reader has all the bytes if no Write had failed.
  lemma ResumeRecovers(sha: Hash, base: nat, limit: nat, before: seq<Step>, now: int) returns (steps: seq<Step>)
    requires base <= MAX_INT64
    requires var s := Run(sha, Init(base, limit), before); !s.closed && s.loop != Ended && s.clock <= now
    ensures Resume(now) in steps
    ensures var s := Run(sha, Init(base, limit), before);
            var s' := Run(sha, s, steps);
            && |steps| == 6 + 8 * |s.window.outgoing|
            && s'.window.outgoing == map[]
            && s'.wire == s.wire + Pending(s.loop) + Ascending(s.window.outgoing)
            && s'.slots == s.slots
            && (IsIdle(s) && NoFailedWrite(s) ==> s'.receiver.stream == Attempted(s))
  {
    hide Inv, Next, Run, Attempted, Ready;
    var s := Run(sha, Init(base, limit), before);
    Reachable(sha, base, limit, before);
    ResumeReady(sha, s, now);
    var s1 := Run(sha, s, ResumeSteps(now));
    var rest := Drains(sha, s1, now + MAX_RTO);
    assert ResumeSteps(now)[2] == Resume(now);
    steps := ResumeSteps(now) + rest;
    RunAppend(sha, s, ResumeSteps(now), rest);
    var s' := Run(sha, s, steps);
    StreamIsPrefix(sha, s');
    if IsIdle(s) && NoFailedWrite(s) {
      OnlyFailuresMissing(sha, s');
      SameAttempt(s, s');
    }
  }
}
