// What pause_publication really holds back. Write passes the gate before its chunk is
// numbered and tracked, the resend loop looks at it before it takes a frame; neither looks
// again.
module Publication {
  import opened Common
  import opened Bytes
  import opened Message
  import opened Window
  import opened Reorder
  import opened Segmentation
  import opened Channel
  import opened EndToEnd
  import opened Sending
  import opened Recovery

  // Steps that end a pause.
  predicate Unpauses(step: Step) {
    step.AckArrives? || step.Publish? || step.Resume?
  }

  predicate Connected(s: System) {
    !s.closed && !s.down
  }

  // A chunk past the gate; a broken write on the way to a retry needs a resume first.
  predicate ChunkPast(s: System) {
    LastIs(s, Claimed) || LastIs(s, Sending) || (LastIs(s, Tracked) && Connected(s))
  }

  // A resend turn past its check, likewise.
  predicate TurnPast(s: System) {
    s.loop == Checked || s.loop.Writing? || (s.loop.Calling? && Connected(s))
  }

  // Every step that ends a pause; until then the pause counts from its start.
  lemma PauseEndsExactly(sha: Hash, s: System, step: Step)
    requires s.paused
    ensures !Next(sha, s, step).paused <==>
              || step == Publish
              || (step.AckArrives? && step.ack < |s.acks| && s.clock <= step.now)
              || (step.Resume? && s.clock <= step.now && (s.down || s.closed))
    ensures Next(sha, s, step).pausedSince == s.pausedSince
  {
    hide Encode, Decode, NewInputMessage, Ack, Drop, Add, Marked, Tick, Handle, Note, HasRoom, LastFrame,
         DropLast, SetLast, Leak, LastIs, IsIdle;
  }

  // Every step that starts one.
  lemma PauseStartsExactly(sha: Hash, s: System, step: Step)
    requires !s.paused
    ensures Next(sha, s, step).paused <==> step.Pause? && s.clock <= step.now
    ensures Next(sha, s, step).paused ==> Next(sha, s, step).pausedSince == step.now
  {
    hide Encode, Decode, NewInputMessage, Ack, Drop, Add, Marked, Tick, Handle, Note, HasRoom, LastFrame,
         DropLast, SetLast, Leak, LastIs, IsIdle;
  }

  lemma PausedWriter(sha: Hash, s: System, step: Step)
    requires s.paused && !Unpauses(step)
    ensures var s' := Next(sha, s, step);
            var sends := (step == Transmit || step == Break(true)) && LastIs(s, Sending);
            s'.paused && |s'.slots| == |s.slots| && Bit(ChunkPast(s')) + Bit(sends) <= Bit(ChunkPast(s))
  {
    hide Encode, Decode, Tick, Add, Drop, Ack, Handle, Note, HasRoom;
  }

  lemma PausedLoop(sha: Hash, s: System, step: Step)
    requires s.paused && !Unpauses(step)
    ensures var s' := Next(sha, s, step);
            var sends := (step == LoopSend || step == LoopBreak(true)) && s.loop.Writing?;
            Bit(TurnPast(s')) + Bit(sends) <= Bit(TurnPast(s))
  {
    hide Encode, Decode, Tick, Add, Drop, Ack, Handle, Note, HasRoom;
  }

  lemma WireCount(sha: Hash, s: System, step: Step)
    ensures var s' := Next(sha, s, step);
            var chunk := (step == Transmit || step == Break(true)) && LastIs(s, Sending);
            var turn := (step == LoopSend || step == LoopBreak(true)) && s.loop.Writing?;
            |s'.wire| == |s.wire| + Bit(chunk) + Bit(turn)
  {
    hide Encode, Decode, NewInputMessage, Ack, Drop, Add, Marked, Tick, Handle, Note, HasRoom;
  }

  // While the publication stays paused at most one frame goes out for the chunk past the
  // gate and one for the resend turn past its check; none if there is neither.
  lemma {:induction false} PausedSendsBounded(sha: Hash, s: System, steps: seq<Step>)
    requires s.paused && forall step :: step in steps ==> !Unpauses(step)
    ensures var s' := Run(sha, s, steps);
            && s'.paused && |s'.slots| == |s.slots|
            && |s'.wire| + Bit(ChunkPast(s')) + Bit(TurnPast(s')) <= |s.wire| + Bit(ChunkPast(s)) + Bit(TurnPast(s))
  {
    hide Next, ChunkPast, TurnPast;
    if steps == [] {
    } else {
      PausedSendsBounded(sha, s, steps[..|steps| - 1]);
      var mid, step := Run(sha, s, steps[..|steps| - 1]), steps[|steps| - 1];
      PausedWriter(sha, mid, step);
      PausedLoop(sha, mid, step);
      WireCount(sha, mid, step);
    }
  }

  // ----- exactly when a frame can still go out -----

  // The chunk past the gate can still be tracked and sent.
  predicate ChunkCanGo(sha: Hash, s: System) {
    || LastIs(s, Sending)
    || (LastIs(s, Tracked) && Connected(s))
    || (LastIs(s, Claimed) && Connected(s) && HasRoom(s.window, |LastFrame(sha, s)|))
  }

  // The turn past its check can still send: it has a frame, or will find one once the
  // timeout has run out.
  predicate TurnCanGo(s: System) {
    || s.loop.Writing?
    || (s.loop.Calling? && Connected(s))
    || (s.loop == Checked && Connected(s)
        && s.window.oldest in s.window.outgoing && s.window.outgoing[s.window.oldest].resends < MAX_RESENDS)
  }

  lemma TickSize(w: Window, now: int)
    ensures Tick(w, now).0.size == w.size && Tick(w, now).0.limit == w.limit
  {
  }

  lemma StuckWriter(sha: Hash, s: System, step: Step)
    requires s.paused && !Unpauses(step) && !ChunkCanGo(sha, s)
    ensures !ChunkCanGo(sha, Next(sha, s, step))
  {
    hide Encode, Decode, Tick, Add, Drop, Ack, Handle, Note;
    if step.LoopTake? {
      TickSize(s.window, step.now);
    }
  }

  lemma StuckLoop(sha: Hash, s: System, step: Step)
    requires s.paused && !Unpauses(step) && !TurnCanGo(s) && !ChunkCanGo(sha, s)
    ensures !TurnCanGo(Next(sha, s, step))
  {
    hide Encode, Decode, Add, Drop, Ack, Handle, Note;
  }

  lemma {:induction false} StaysStuck(sha: Hash, s: System, steps: seq<Step>)
    requires s.paused && forall step :: step in steps ==> !Unpauses(step)
    requires !ChunkCanGo(sha, s) && !TurnCanGo(s)
    ensures var s' := Run(sha, s, steps);
            s'.paused && !ChunkCanGo(sha, s') && !TurnCanGo(s') && |s'.wire| == |s.wire|
  {
    hide Next;
    if steps == [] {
    } else {
      StaysStuck(sha, s, steps[..|steps| - 1]);
      var mid, step := Run(sha, s, steps[..|steps| - 1]), steps[|steps| - 1];
      PausedWriter(sha, mid, step);
      StuckWriter(sha, mid, step);
      StuckLoop(sha, mid, step);
      WireCount(sha, mid, step);
    }
  }

  lemma ChunkGoes(sha: Hash, s: System) returns (steps: seq<Step>)
    requires ChunkCanGo(sha, s)
    ensures forall step :: step in steps ==> !Unpauses(step)
    ensures Run(sha, s, steps).wire == s.wire + [LastFrame(sha, s)]
    ensures var s' := Run(sha, s, steps); s'.loop == s.loop && s'.paused == s.paused && Connected(s') == Connected(s)
  {
    hide Encode, Add;
    if LastIs(s, Sending) {
      steps := [Transmit];
      FirstStep(sha, s, Transmit);
    } else if LastIs(s, Tracked) {
      steps := [Begin] + [Transmit];
      FirstStep(sha, s, Begin);
      RunSnoc(sha, s, [Begin], Transmit);
    } else {
      steps := [Track(s.clock)] + [Begin] + [Transmit];
      FirstStep(sha, s, Track(s.clock));
      RunSnoc(sha, s, [Track(s.clock)], Begin);
      RunSnoc(sha, s, [Track(s.clock)] + [Begin], Transmit);
    }
  }

  // An instant at which the oldest frame is due.
  function DueAt(s: System): int
    requires s.window.oldest in s.window.outgoing
  {
    var due := s.window.outgoing[s.window.oldest].lastSent + MAX_RTO + 1;
    if due < s.clock then s.clock else due
  }

  lemma DueTick(s: System)
    requires Accounted(s.window) && s.window.oldest in s.window.outgoing
    requires s.window.outgoing[s.window.oldest].resends < MAX_RESENDS
    ensures Tick(s.window, DueAt(s)).1 == Again(s.window.oldest, s.window.outgoing[s.window.oldest].data)
  {
    hide Sum;
  }

  lemma TurnGoes(sha: Hash, s: System) returns (steps: seq<Step>)
    requires Accounted(s.window) && TurnCanGo(s)
    ensures forall step :: step in steps ==> !Unpauses(step)
    ensures |Run(sha, s, steps).wire| == |s.wire| + 1
    ensures ChunkCanGo(sha, s) ==> ChunkCanGo(sha, Run(sha, s, steps))
  {
    hide Tick, Encode;
    if s.loop == Checked {
      TickSize(s.window, DueAt(s));
    }
    if s.loop.Writing? {
      steps := [LoopSend];
      FirstStep(sha, s, LoopSend);
    } else if s.loop.Calling? {
      steps := [LoopBegin] + [LoopSend];
      FirstStep(sha, s, LoopBegin);
      RunSnoc(sha, s, [LoopBegin], LoopSend);
    } else {
      var t := DueAt(s);
      DueTick(s);
      steps := [LoopTake(t)] + [LoopBegin] + [LoopSend];
      FirstStep(sha, s, LoopTake(t));
      RunSnoc(sha, s, [LoopTake(t)], LoopBegin);
      RunSnoc(sha, s, [LoopTake(t)] + [LoopBegin], LoopSend);
      TakeUp(sha, s, t);
      hide Next, Run;
      WriteOut(sha, Next(sha, s, LoopTake(t)));
    }
  }

  ghost predicate SendsDuringPause(sha: Hash, s: System, steps: seq<Step>) {
    (forall step :: step in steps ==> !Unpauses(step)) && |Run(sha, s, steps).wire| > |s.wire|
  }

  // Without the pause ending, a frame can still go out exactly when a chunk past the gate
  // can still be tracked and sent, or a resend turn past its check can still send.
  lemma SendsExactly(sha: Hash, s: System)
    requires Inv(sha, s) && s.paused
    ensures (exists steps :: SendsDuringPause(sha, s, steps)) <==> ChunkCanGo(sha, s) || TurnCanGo(s)
  {
    assert Accounted(s.window);
    hide Inv, Next, Run;
    if ChunkCanGo(sha, s) {
      var steps := ChunkGoes(sha, s);
      assert SendsDuringPause(sha, s, steps);
    } else if TurnCanGo(s) {
      var steps := TurnGoes(sha, s);
      assert SendsDuringPause(sha, s, steps);
    } else {
      forall steps ensures !SendsDuringPause(sha, s, steps) {
        if forall step :: step in steps ==> !Unpauses(step) {
          StaysStuck(sha, s, steps);
        }
      }
    }
  }

  // Both together: two frames during one pause.
  lemma BothGo(sha: Hash, s: System) returns (steps: seq<Step>)
    requires Accounted(s.window) && ChunkCanGo(sha, s) && TurnCanGo(s)
    ensures forall step :: step in steps ==> !Unpauses(step)
    ensures |Run(sha, s, steps).wire| == |s.wire| + 2
  {
    hide Next, Run, ChunkCanGo;
    var turn := TurnGoes(sha, s);
    var chunk := ChunkGoes(sha, Run(sha, s, turn));
    steps := turn + chunk;
    RunAppend(sha, s, turn, chunk);
  }

  lemma LookCheckPause(sha: Hash, s: System)
    requires s.loop == Waiting && !s.paused && !s.down && s.clock == 0
    ensures Next(sha, Next(sha, Next(sha, s, LoopLook), LoopCheck(0)), Pause(0))
            == s.(loop := Checked, paused := true, pausedSince := 0)
  {
  }

  // A second chunk past the gate and a resend turn past its check when the pause comes.
  lemma PastBoth(sha: Hash, s: System, y: byte, stamp: Stamp)
    requires IsIdle(s) && !s.paused && Connected(s) && s.clock == 0 && s.base + |s.slots| <= MAX_INT64
    requires s.loop == Waiting && HasRoom(s.window, TOTAL_HEADER_LEN + 1)
    requires s.window.oldest in s.window.outgoing && s.window.outgoing[s.window.oldest].resends == 0
    ensures var s1 := Next(sha, Next(sha, s, Claim([y], stamp)), LoopLook);
            var s' := Next(sha, Next(sha, s1, LoopCheck(0)), Pause(0));
            s'.paused && s'.wire == s.wire && ChunkCanGo(sha, s') && TurnCanGo(s') && s'.window == s.window
  {
    hide Encode, NewInputMessage, Next;
    ClaimIs(sha, s, [y], stamp);
    OneByte(y, s.base + |s.slots|, stamp);
    var s0 := Next(sha, s, Claim([y], stamp));
    LookCheckPause(sha, s0);
    assert |LastFrame(sha, s0)| == TOTAL_HEADER_LEN + 1;
  }

  // So a run exists in which the peer pauses the publication and two frames follow.
  lemma TwoFramesDuringPause(sha: Hash, base: nat, limit: nat, x: byte, y: byte, stamp: Stamp)
    returns (before: seq<Step>, during: seq<Step>)
    requires base < MAX_INT64 && limit >= 2 * (TOTAL_HEADER_LEN + 1)
    ensures var s := Run(sha, Init(base, limit), before);
            && s.paused && (forall step :: step in during ==> !Unpauses(step))
            && |Run(sha, s, during).wire| == |s.wire| + 2
  {
    hide Next, Run, Encode, NewInputMessage, ChunkCanGo, TurnCanGo;
    var s0 := Init(base, limit);
    Sends(sha, s0, [x], stamp, 0);
    var s1 := SentState(sha, s0, [x], stamp, 0);
    OneByte(x, base, stamp);
    assert |Encode(sha, NewInputMessage([x], base, stamp.id, stamp.created))| == TOTAL_HEADER_LEN + 1;
    PastBoth(sha, s1, y, stamp);
    var sent := SendSteps([x], stamp, 0);
    before := sent + [Claim([y], stamp)] + [LoopLook] + [LoopCheck(0)] + [Pause(0)];
    RunSnoc(sha, s0, sent, Claim([y], stamp));
    RunSnoc(sha, s0, sent + [Claim([y], stamp)], LoopLook);
    RunSnoc(sha, s0, sent + [Claim([y], stamp)] + [LoopLook], LoopCheck(0));
    RunSnoc(sha, s0, sent + [Claim([y], stamp)] + [LoopLook] + [LoopCheck(0)], Pause(0));
    Reachable(sha, base, limit, before);
    Balanced(sha, Run(sha, s0, before));
    during := BothGo(sha, Run(sha, s0, before));
  }
}
