// The end of the resend loop on an open adapter. writeRaw also fails when a write deadline
// passes during a reconnect; resendLoop then returns, and nothing is ever retransmitted
// again although the adapter goes on.
module ResendEnd {
  import opened Common
  import opened Bytes
  import opened Message
  import opened Window
  import opened Reorder
  import opened Segmentation
  import opened Channel
  import opened EndToEnd
  import opened Sending
  import opened Recovery
  import opened Budget
  import Sets

  // No copy of number k can go out any more: its Write is over, and the loop neither has
  // it with the transport nor can ever send again.
  ghost predicate Silent(s: System, k: int) {
    && Numbers(s, k) && !UnderWay(At(s, k).fate)
    && !(s.loop.Writing? && s.loop.k == k)
    && (s.closed || s.loop == Ended)
  }

  // The oldest frame has been resent sixty times and more than a second ago.
  ghost predicate Exhausted(w: Window, now: int) {
    && w.oldest in w.outgoing
    && w.outgoing[w.oldest].resends >= 60 && now - w.outgoing[w.oldest].lastSent > SECOND
  }

  lemma GivesUpExactly(w: Window, now: int)
    requires Accounted(w)
    ensures Tick(w, now).1.GiveUp? <==> Exhausted(w, now)
  {
    TickExactly(w, now);
    TickKeeps(w, now);
  }

  // Every step that closes an open adapter: Close, a turn that finds the publication paused
  // for more than 45 s, and a turn that gives up on its oldest frame.
  lemma ClosesExactly(sha: Hash, s: System, step: Step)
    requires Accounted(s.window) && !s.closed
    ensures Next(sha, s, step).closed <==>
              || step == Close
              || (step.LoopCheck? && s.loop == Looked && s.clock <= step.now && s.paused
                  && step.now - s.pausedSince > 45 * SECOND)
              || (step.LoopTake? && s.loop == Checked && s.clock <= step.now && Exhausted(s.window, step.now))
  {
    if step.LoopTake? {
      GivesUpExactly(s.window, step.now);
    }
    hide Encode, Decode, NewInputMessage, Ack, Drop, Add, Marked, Tick, Handle, Note, HasRoom, Exhausted;
  }

  lemma SilentStep(sha: Hash, s: System, step: Step)
    ensures s.closed ==> Next(sha, s, step).closed
    ensures s.loop == Ended ==> Next(sha, s, step).loop == Ended
    ensures s.closed && Next(sha, s, step).loop.Writing? ==> Next(sha, s, step).loop == s.loop
  {
    hide Encode, Decode, NewInputMessage, Marked, Handle, Note, HasRoom, Tick, Ack, Drop, Add;
  }

  lemma SettledNotSent(s: System, step: Step, k: int)
    requires Numbers(s, k) && !UnderWay(At(s, k).fate) && !(s.loop.Writing? && s.loop.k == k)
    ensures !Emits(s, step, k)
  {
  }

  lemma SilentNext(sha: Hash, s: System, step: Step, k: int)
    requires Inv(sha, s) && Silent(s, k)
    ensures Silent(Next(sha, s, step), k)
    ensures Copies(Next(sha, s, step).wire, k) == Copies(s.wire, k)
  {
    hide Next, Inv, Copies;
    CopiesNext(sha, s, step, k);
    SilentStep(sha, s, step);
    NextFixes(sha, s, step);
    SettledNotSent(s, step, k);
  }

  // Once the loop has ended, or the adapter is closed and no attempt is under way, no
  // continuation with any number of resumes sends a number again whose Write is over.
  lemma {:induction false} StaysSilent(sha: Hash, s: System, steps: seq<Step>, k: int)
    requires Inv(sha, s) && Silent(s, k)
    ensures Silent(Run(sha, s, steps), k) && Copies(Run(sha, s, steps).wire, k) == Copies(s.wire, k)
  {
    hide Next, Inv, Silent, Copies;
    if steps == [] {
    } else {
      StaysSilent(sha, s, steps[..|steps| - 1], k);
      RunKeeps(sha, s, steps[..|steps| - 1]);
      SilentNext(sha, Run(sha, s, steps[..|steps| - 1]), steps[|steps| - 1], k);
    }
  }

  lemma {:induction false} CopiesAppend(a: seq<bytes>, b: seq<bytes>, k: int)
    ensures Copies(a + b, k) == Copies(a, k) + Copies(b, k)
  {
    hide HasNumber;
    if b == [] {
      assert a + b == a;
    } else {
      CopiesAppend(a, b[..|b| - 1], k);
      assert (a + b)[..|a + b| - 1] == a + b[..|b| - 1];
    }
  }

  lemma {:induction false} CopiesSome(wire: seq<bytes>, j: nat, k: int)
    requires j < |wire| && HasNumber(wire[j], k)
    ensures Copies(wire, k) >= 1
  {
    hide HasNumber;
    if j < |wire| - 1 {
      CopiesSome(wire[..|wire| - 1], j, k);
    }
  }

  lemma {:induction false} AscendingHas(m: map<int, Entry>, k: int)
    requires k in m
    ensures m[k].data in Ascending(m)
    decreases |m|
  {
    var l := Sets.Least(m.Keys);
    if k != l {
      assert m.Keys == (m - {l}).Keys + {l};
      AscendingHas(m - {l}, k);
    }
  }

  lemma TrackedNumber(sha: Hash, s: System, k: int)
    requires Inv(sha, s) && k in s.window.outgoing
    ensures HasNumber(s.window.outgoing[k].data, k)
  {
    hide Inv, Encode, Decode, Sealed;
    TrackedStream(sha, s, k);
    StreamMessage(sha, At(s, k).msg, k);
  }

  // An alive loop on an open adapter: after a resume every tracked frame goes out again.
  lemma AliveSendsAll(sha: Hash, base: nat, limit: nat, before: seq<Step>) returns (steps: seq<Step>)
    requires base <= MAX_INT64
    requires var s := Run(sha, Init(base, limit), before); !s.closed && s.loop != Ended
    ensures exists now :: Resume(now) in steps
    ensures var s := Run(sha, Init(base, limit), before);
            forall k :: k in s.window.outgoing ==> Copies(Run(sha, s, steps).wire, k) > Copies(s.wire, k)
  {
    hide Run, Copies, HasNumber, Inv, Next, Ascending;
    var s := Run(sha, Init(base, limit), before);
    Reachable(sha, base, limit, before);
    steps := ResumeRecovers(sha, base, limit, before, s.clock);
    var s' := Run(sha, s, steps);
    forall k | k in s.window.outgoing ensures Copies(s'.wire, k) > Copies(s.wire, k) {
      TrackedNumber(sha, s, k);
      AscendingHas(s.window.outgoing, k);
      var j :| 0 <= j < |Ascending(s.window.outgoing)| && Ascending(s.window.outgoing)[j] == s.window.outgoing[k].data;
      CopiesSome(Ascending(s.window.outgoing), j, k);
      CopiesAppend(s.wire + Pending(s.loop), Ascending(s.window.outgoing), k);
      CopiesAppend(s.wire, Pending(s.loop), k);
    }
  }

  lemma PendingSent(sha: Hash, s: System)
    requires Inv(sha, s) && s.loop.Writing?
    ensures Copies(Run(sha, s, [LoopSend]).wire, s.loop.k) == Copies(s.wire, s.loop.k) + 1
  {
    hide Inv, Next, Copies;
    CopiesNext(sha, s, LoopSend, s.loop.k);
    FirstStep(sha, s, LoopSend);
  }

  // A tracked frame whose Write is over is ever sent again exactly when the loop is alive
  // and the adapter open, or the loop has just that frame with the transport.
  lemma SentAgainExactly(sha: Hash, base: nat, limit: nat, before: seq<Step>, k: int)
    requires base <= MAX_INT64
    requires var s := Run(sha, Init(base, limit), before);
             k in s.window.outgoing && Numbers(s, k) && At(s, k).fate == Sent
    ensures var s := Run(sha, Init(base, limit), before);
            (exists steps :: Copies(Run(sha, s, steps).wire, k) > Copies(s.wire, k))
            <==> (!s.closed && s.loop != Ended) || (s.loop.Writing? && s.loop.k == k)
  {
    hide Run, Copies, Inv, Next;
    var s := Run(sha, Init(base, limit), before);
    Reachable(sha, base, limit, before);
    if !s.closed && s.loop != Ended {
      var steps := AliveSendsAll(sha, base, limit, before);
      assert Copies(Run(sha, s, steps).wire, k) > Copies(s.wire, k);
    } else if s.loop.Writing? && s.loop.k == k {
      PendingSent(sha, s);
      assert Copies(Run(sha, s, [LoopSend]).wire, k) > Copies(s.wire, k);
    } else {
      forall steps ensures Copies(Run(sha, s, steps).wire, k) == Copies(s.wire, k) {
        StaysSilent(sha, s, steps, k);
      }
    }
  }

  // ----- the loop does end on an open adapter -----

  lemma TickDue(w: Window, k: int)
    requires w.oldest == k && k in w.outgoing && w.rto == DEFAULT_RTO
    requires w.outgoing[k].lastSent == 0 && w.outgoing[k].resends == 0
    ensures Tick(w, SECOND).1.Again? && Tick(w, SECOND).0.outgoing.Keys == w.outgoing.Keys
  {
  }

  lemma FailThenResume(sha: Hash, s: System)
    requires s.loop.Calling? && !s.closed && s.clock == SECOND
    ensures var s' := Next(sha, Next(sha, Next(sha, s, Lose), LoopFail), Resume(SECOND));
            && s'.loop == Ended && !s'.closed && !s'.down && !s'.paused
            && s'.window.outgoing.Keys == s.window.outgoing.Keys && s'.slots == s.slots && s'.base == s.base
  {
  }

  lemma TakenThenEnded(sha: Hash, s: System, k: int)
    requires s.loop == Waiting && !s.down && !s.paused && !s.closed && s.clock == 0
    requires s.window.oldest == k && k in s.window.outgoing && s.window.rto == DEFAULT_RTO
    requires s.window.outgoing[k].lastSent == 0 && s.window.outgoing[k].resends == 0
    ensures var s1 := Next(sha, Next(sha, s, LoopLook), LoopCheck(0));
            var s2 := Next(sha, Next(sha, Next(sha, s1, LoopTake(SECOND)), Lose), LoopFail);
            var s' := Next(sha, s2, Resume(SECOND));
            && s'.loop == Ended && !s'.closed && !s'.down && !s'.paused
            && s'.window.outgoing.Keys == s.window.outgoing.Keys && s'.slots == s.slots && s'.base == s.base
  {
    hide Next, Tick;
    LookAndCheck(sha, s, 0);
    var s1 := Next(sha, Next(sha, s, LoopLook), LoopCheck(0));
    TickDue(s.window, k);
    TakeUp(sha, s1, SECOND);
    FailThenResume(sha, Next(sha, s1, LoopTake(SECOND)));
  }

  // One chunk sent and tracked; its resend is in writeRaw when the transport goes down and
  // the write deadline passes; then the transport comes back. The adapter is open and
  // connected, the chunk is unacknowledged, and it will never be sent again.
  lemma LoopEnds(sha: Hash, base: nat, limit: nat, x: byte, stamp: Stamp) returns (steps: seq<Step>)
    requires base <= MAX_INT64 && limit >= TOTAL_HEADER_LEN + 1
    ensures var s := Run(sha, Init(base, limit), steps);
            && !s.closed && !s.down && !s.paused && s.loop == Ended
            && s.window.outgoing.Keys == {base} && IsIdle(s) && NoFailedWrite(s) && Silent(s, base)
            && forall more :: Copies(Run(sha, s, more).wire, base) == Copies(s.wire, base)
  {
    hide Encode, NewInputMessage, Run, Next, Inv, Copies;
    var s0 := Init(base, limit);
    Sends(sha, s0, [x], stamp, 0);
    var s1 := SentState(sha, s0, [x], stamp, 0);
    TakenThenEnded(sha, s1, base);
    var sent := SendSteps([x], stamp, 0);
    var turn := [LoopLook] + [LoopCheck(0)] + [LoopTake(SECOND)] + [Lose] + [LoopFail];
    RunFive(sha, s1, LoopLook, LoopCheck(0), LoopTake(SECOND), Lose, LoopFail);
    RunAppend(sha, s0, sent, turn);
    RunSnoc(sha, s0, sent + turn, Resume(SECOND));
    steps := sent + turn + [Resume(SECOND)];
    Reachable(sha, base, limit, steps);
    var s := Run(sha, s0, steps);
    forall more ensures Copies(Run(sha, s, more).wire, base) == Copies(s.wire, base) {
      StaysSilent(sha, s, more, base);
    }
  }
}
