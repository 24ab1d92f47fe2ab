// The reconnecting flag and its gate under every interleaving of failure reports,
// startReconnect, the swap of the transport, the clear that reconnectLoop defers, and Close
// (internal/protocol/adapter_resume.go).
module ReconnectGate {
  import opened Common

  // A reconnect loop: before its swap, after it, past the locked half of its deferred clear
  // with the gate it took out of the field, or gone.
  datatype Phase = Before | After | Clearing(taken: Option<nat>) | Ended

  // Close: not called, past closing `done`, past its locked section.
  datatype CloseAt = NotCalled | DoneClosed | Finished

  // gen is the live transport; failed are the transports that no longer work; heard those
  // for which a report has reached the lock of startReconnect. passed holds the reports
  // between their look at `done` and that lock, by transport. Loop i is the one started
  // together with gate i; closes counts how often a gate has been closed.
  datatype State = State(
    closing: CloseAt,
    reconnecting: bool,
    gate: Option<nat>,
    passed: multiset<nat>,
    loops: seq<Phase>,
    closes: seq<nat>,
    lateFrom: nat,
    gen: nat,
    failed: set<nat>,
    heard: set<nat>)

  datatype Step =
    | TransportFails
    | Report(g: nat)
    | LockAndStart(g: nat)
    | Swap(loop: nat)
    | LockAndClear(loop: nat)
    | CloseTaken(loop: nat)
    | CloseDone
    | CloseLocked

  function Init(): State {
    State(NotCalled, false, None, multiset{}, [], [], 0, 0, {}, {})
  }

  predicate IsDone(s: State) {
    s.closing != NotCalled
  }

  predicate Runs(p: Phase) {
    p == Before || p == After
  }

  // A failure may be reported for any transport that has failed: writeRaw does not look at
  // the generation. A loop that has not swapped only gives up once `done` is closed.
  function Next(s: State, step: Step): State {
    match step
    case TransportFails => s.(failed := s.failed + {s.gen})
    case Report(g) =>
      if IsDone(s) || g !in s.failed then s else s.(passed := s.passed + multiset{g})
    case LockAndStart(g) =>
      if g !in s.passed then s
      else if s.reconnecting then s.(passed := s.passed - multiset{g}, heard := s.heard + {g})
      else s.(passed := s.passed - multiset{g}, heard := s.heard + {g}, reconnecting := true, gate := Some(|s.loops|),
              loops := s.loops + [Before], closes := s.closes + [0])
    case Swap(loop) =>
      if loop < |s.loops| && s.loops[loop] == Before
      then s.(loops := s.loops[loop := After], gen := s.gen + 1, failed := s.failed + {s.gen})
      else s
    case LockAndClear(loop) =>
      if loop < |s.loops| && (s.loops[loop] == After || (s.loops[loop] == Before && IsDone(s)))
      then s.(reconnecting := false, gate := None, loops := s.loops[loop := Clearing(s.gate)])
      else s
    case CloseTaken(loop) =>
      if loop < |s.loops| && s.loops[loop].Clearing?
      then
        var t := s.loops[loop].taken;
        s.(loops := s.loops[loop := Ended],
           closes := if t.Some? && t.value < |s.closes| && s.closes[t.value] == 0
                     then s.closes[t.value := 1] else s.closes)
      else s
    case CloseDone =>
      if s.closing == NotCalled then s.(closing := DoneClosed) else s
    case CloseLocked =>
      if s.closing != DoneClosed then s
      else
        s.(closing := Finished, reconnecting := false, gate := None, lateFrom := |s.loops|,
           closes := if s.reconnecting && s.gate.Some? && s.gate.value < |s.closes|
                     then s.closes[s.gate.value := s.closes[s.gate.value] + 1] else s.closes)
  }

  function Run(s: State, steps: seq<Step>): State {
    if steps == [] then s else Next(Run(s, steps[..|steps| - 1]), steps[|steps| - 1])
  }

  // Loop l is about to close gate g.
  ghost predicate Holds(s: State, l: nat, g: nat) {
    l < |s.loops| && s.loops[l] == Clearing(Some(g))
  }

  ghost predicate Inv(s: State) {
    && |s.closes| == |s.loops|
    && (s.reconnecting <==> s.gate.Some?)
    // The gate in the field belongs to a loop that still runs.
    && (s.gate.Some? ==> s.gate.value < |s.loops| && Runs(s.loops[s.gate.value]))
    // A gate is open exactly while it is in the field or in one loop's hands.
    && (forall g :: 0 <= g < |s.closes| ==> s.closes[g] <= 1)
    && (forall g :: 0 <= g < |s.closes| && s.closes[g] == 0 ==> s.gate == Some(g) || exists l: nat :: Holds(s, l, g))
    && (forall g: nat, l: nat :: Holds(s, l, g) ==> g < |s.closes| && s.closes[g] == 0 && s.gate != Some(g))
    && (forall g: nat, l: nat, m: nat :: Holds(s, l, g) && Holds(s, m, g) ==> l == m)
    && (s.gate.Some? ==> s.closes[s.gate.value] == 0)
    // Until Close has been through its locked section a loop only ever takes its own gate,
    // and only the loop whose gate is in the field runs.
    && (s.closing != Finished ==> s.lateFrom == 0)
    && (s.closing != Finished ==> forall l: nat :: l < |s.loops| && Runs(s.loops[l]) ==> s.gate == Some(l))
    && s.lateFrom <= |s.loops|
    && (forall l: nat, g: nat :: Holds(s, l, g) ==> g == l || (s.closing == Finished && g >= s.lateFrom))
    && (s.closing == Finished && s.gate.Some? ==> s.gate.value >= s.lateFrom)
  }

  lemma StartKeeps(s: State, g: nat)
    requires Inv(s)
    ensures Inv(Next(s, LockAndStart(g)))
  {
    var s' := Next(s, LockAndStart(g));
    assert forall l: nat, g: nat :: Holds(s', l, g) <==> Holds(s, l, g);
  }

  lemma SwapKeeps(s: State, loop: nat)
    requires Inv(s)
    ensures Inv(Next(s, Swap(loop)))
  {
    var s' := Next(s, Swap(loop));
    assert forall l: nat, g: nat :: Holds(s', l, g) <==> Holds(s, l, g);
  }

  lemma ClearKeeps(s: State, loop: nat)
    requires Inv(s)
    ensures Inv(Next(s, LockAndClear(loop)))
  {
    var s' := Next(s, LockAndClear(loop));
    if s' != s {
      assert forall l: nat, g: nat :: l != loop ==> (Holds(s', l, g) <==> Holds(s, l, g));
      assert forall g: nat :: Holds(s', loop, g) <==> s.gate == Some(g);
    }
  }

  lemma CloseTakenKeeps(s: State, loop: nat)
    requires Inv(s)
    ensures Inv(Next(s, CloseTaken(loop)))
  {
    var s' := Next(s, CloseTaken(loop));
    if loop < |s.loops| && s.loops[loop].Clearing? {
      assert forall l: nat, g: nat :: l != loop ==> (Holds(s', l, g) <==> Holds(s, l, g));
      assert forall g: nat :: !Holds(s', loop, g);
      if s.loops[loop].taken.Some? {
        assert Holds(s, loop, s.loops[loop].taken.value);
      }
      forall g | 0 <= g < |s'.closes| && s'.closes[g] == 0
        ensures s'.gate == Some(g) || exists l: nat :: Holds(s', l, g)
      {
        if s.gate != Some(g) {
          var l: nat :| Holds(s, l, g);
          assert l != loop;
          assert Holds(s', l, g);
        }
      }
    }
  }

  lemma CloseKeeps(s: State, step: Step)
    requires Inv(s) && (step == CloseLocked || step == CloseDone || step.Report? || step == TransportFails)
    ensures Inv(Next(s, step))
  {
    var s' := Next(s, step);
    assert forall l: nat, g: nat :: Holds(s', l, g) <==> Holds(s, l, g);
  }

  lemma NextKeeps(s: State, step: Step)
    requires Inv(s)
    ensures Inv(Next(s, step))
  {
    hide Inv, Next;
    match step
    case LockAndStart(g) => StartKeeps(s, g);
    case Swap(loop) => SwapKeeps(s, loop);
    case LockAndClear(loop) => ClearKeeps(s, loop);
    case CloseTaken(loop) => CloseTakenKeeps(s, loop);
    case _ => CloseKeeps(s, step);
  }

  lemma {:induction false} Reachable(steps: seq<Step>)
    ensures Inv(Run(Init(), steps))
  {
    hide Next;
    if steps == [] {
    } else {
      Reachable(steps[..|steps| - 1]);
      NextKeeps(Run(Init(), steps[..|steps| - 1]), steps[|steps| - 1]);
    }
  }

  // In every reachable state: reconnecting says exactly that a gate exists; no gate is
  // ever closed twice; the deferred clear never finds its gate closed already; and until
  // Close has passed its locked section at most one loop runs.
  lemma GateDiscipline(steps: seq<Step>)
    ensures var s := Run(Init(), steps);
            && (s.reconnecting <==> s.gate.Some?)
            && (forall g :: 0 <= g < |s.closes| ==> s.closes[g] <= 1)
            && (forall l: nat, g: nat :: Holds(s, l, g) ==> g < |s.closes| && s.closes[g] == 0)
            && (s.closing != Finished ==>
                  forall l, m :: 0 <= l < m < |s.loops| ==> !(Runs(s.loops[l]) && Runs(s.loops[m])))
  {
    Reachable(steps);
  }

  // A gate created before Close's locked section is closed exactly once when its own loop
  // has ended; any gate is, once all loops have ended. So nobody waits on a gate for ever.
  lemma EveryGateCloses(steps: seq<Step>, g: nat)
    ensures var s := Run(Init(), steps);
            g < |s.loops| && s.loops[g] == Ended
            && (s.closing != Finished || g < s.lateFrom || forall l :: 0 <= l < |s.loops| ==> s.loops[l] == Ended)
            ==> g < |s.closes| && s.closes[g] == 1
    ensures var s := Run(Init(), steps);
            (forall l :: 0 <= l < |s.loops| ==> s.loops[l] == Ended) ==> !s.reconnecting && s.gate == None
  {
    Reachable(steps);
  }

  // Close leaves no waiter behind: right after its locked section every gate is closed or
  // in the hands of the loop it was made for.
  lemma CloseReleases(steps: seq<Step>, g: nat)
    ensures var s := Run(Init(), steps);
            var s' := Next(s, CloseLocked);
            s.closing == DoneClosed && g < |s'.closes| ==>
              !s'.reconnecting && (s'.closes[g] == 1 || Holds(s', g, g))
  {
    Reachable(steps);
    var s := Run(Init(), steps);
    NextKeeps(s, CloseLocked);
    var s' := Next(s, CloseLocked);
    if s.closing == DoneClosed && g < |s'.closes| && s'.closes[g] == 0 {
      var l: nat :| Holds(s', l, g);
    }
  }

  // ----- a report on the live transport -----

  predicate Swallows(s: State) {
    s.reconnecting && s.gate.Some? && s.gate.value < |s.loops| && s.loops[s.gate.value] == After
  }

  ghost predicate NoneBefore(s: State) {
    forall l :: 0 <= l < |s.loops| ==> s.loops[l] != Before
  }

  predicate NoStart(steps: seq<Step>) {
    forall step :: step in steps ==> !step.LockAndStart?
  }

  // No step but a new start brings a loop that will swap.
  lemma {:induction false} NoSwapToCome(s: State, steps: seq<Step>)
    requires NoneBefore(s) && NoStart(steps)
    ensures NoneBefore(Run(s, steps)) && Run(s, steps).gen == s.gen
  {
    if steps == [] {
    } else {
      NoSwapToCome(s, steps[..|steps| - 1]);
      assert steps[|steps| - 1] in steps;
    }
  }

  lemma OneStep(s: State, step: Step)
    ensures Run(s, [step]) == Next(s, step)
  {
    assert [step][..0] == [];
  }

  // With no further report reaching the lock, the transport is replaced.
  ghost predicate Attended(s: State) {
    exists more :: NoStart(more) && Run(s, more).gen > s.gen
  }

  // A report on the live transport of an open adapter is left unattended exactly when, at
  // the lock, the flag is set by a loop that has already made its swap.
  lemma AttendedExactly(steps: seq<Step>)
    requires var s := Run(Init(), steps); s.closing == NotCalled && s.gen in s.passed
    ensures var s := Run(Init(), steps);
            Attended(Next(s, LockAndStart(s.gen))) <==> !Swallows(s)
  {
    Reachable(steps);
    var s := Run(Init(), steps);
    var s' := Next(s, LockAndStart(s.gen));
    hide Run;
    if Swallows(s) {
      forall more | NoStart(more) ensures Run(s', more).gen == s'.gen {
        NoSwapToCome(s', more);
      }
    } else {
      var l := if s.reconnecting then s.gate.value else |s.loops|;
      OneStep(s', Swap(l));
      assert NoStart([Swap(l)]) && Run(s', [Swap(l)]).gen > s'.gen;
    }
  }

  lemma RunSnoc(s: State, steps: seq<Step>, step: Step)
    ensures Run(s, steps + [step]) == Next(Run(s, steps), step)
  {
    hide Next;
    assert (steps + [step])[..|steps|] == steps;
  }

  lemma FirstLoop()
    ensures Next(Next(Next(Next(Init(), TransportFails), Report(0)), LockAndStart(0)), Swap(0))
            == State(NotCalled, true, Some(0), multiset{}, [After], [0], 0, 1, {0}, {0})
  {
  }

  lemma SecondFailure(s: State)
    requires s == State(NotCalled, true, Some(0), multiset{}, [After], [0], 0, 1, {0}, {0})
    ensures Next(Next(Next(Next(Next(s, TransportFails), Report(1)), LockAndStart(1)), LockAndClear(0)), CloseTaken(0))
            == State(NotCalled, false, None, multiset{}, [Ended], [1], 0, 1, {0, 1}, {0, 1})
  {
  }

  lemma RunFour(s: State, a: Step, b: Step, c: Step, d: Step)
    ensures Run(s, [a] + [b] + [c] + [d]) == Next(Next(Next(Next(s, a), b), c), d)
  {
    hide Next;
    OneStep(s, a);
    RunSnoc(s, [a], b);
    RunSnoc(s, [a] + [b], c);
    RunSnoc(s, [a] + [b] + [c], d);
  }

  lemma {:induction false} RunAppend(s: State, a: seq<Step>, b: seq<Step>)
    ensures Run(s, a + b) == Run(Run(s, a), b)
  {
    hide Next;
    if b == [] {
      assert a + b == a;
    } else {
      RunAppend(s, a, b[..|b| - 1]);
      assert (a + b)[..|a + b| - 1] == a + b[..|b| - 1];
    }
  }

  // It does happen: the transport fails, a loop replaces it, the new one fails and is
  // reported before the loop clears the flag. The adapter is then open on a transport that
  // is known to be dead, and no loop is there.
  lemma ReportSwallowed() returns (steps: seq<Step>)
    ensures var s := Run(Init(), steps);
            && s.closing == NotCalled && s.gen in s.failed && s.gen in s.heard && s.passed == multiset{}
            && !s.reconnecting && s.loops == [Ended] && !Attended(s)
  {
    hide Next, Run;
    var first := [TransportFails] + [Report(0)] + [LockAndStart(0)] + [Swap(0)];
    var second := [TransportFails] + [Report(1)] + [LockAndStart(1)] + [LockAndClear(0)] + [CloseTaken(0)];
    FirstLoop();
    var s1 := State(NotCalled, true, Some(0), multiset{}, [After], [0], 0, 1, {0}, {0});
    SecondFailure(s1);
    RunFour(Init(), TransportFails, Report(0), LockAndStart(0), Swap(0));
    RunFour(s1, TransportFails, Report(1), LockAndStart(1), LockAndClear(0));
    RunSnoc(s1, [TransportFails] + [Report(1)] + [LockAndStart(1)] + [LockAndClear(0)], CloseTaken(0));
    RunAppend(Init(), first, second);
    steps := first + second;
    var s := Run(Init(), steps);
    forall more | NoStart(more) ensures Run(s, more).gen == s.gen {
      NoSwapToCome(s, more);
    }
  }

  // ----- after Close -----

  lemma StartPays(s: State, step: Step)
    requires IsDone(s)
    ensures var s' := Next(s, step);
            IsDone(s') && |s'.passed| <= |s.passed| && |s'.loops| + |s'.passed| <= |s.loops| + |s.passed|
  {
  }

  // Once `done` is closed no report gets past it: each loop still to start uses up one that
  // is already past.
  lemma {:induction false} StartsBounded(s: State, steps: seq<Step>)
    requires IsDone(s)
    ensures var s' := Run(s, steps);
            IsDone(s') && |s'.passed| <= |s.passed| && |s'.loops| + |s'.passed| <= |s.loops| + |s.passed|
  {
    hide Next;
    if steps == [] {
    } else {
      StartsBounded(s, steps[..|steps| - 1]);
      StartPays(Run(s, steps[..|steps| - 1]), steps[|steps| - 1]);
    }
  }

  // A report past `done` can start a loop that will swap, once a loop that still runs is
  // out of the way.
  lemma LateStart(s: State, g: nat) returns (more: seq<Step>)
    requires Inv(s) && s.closing == Finished && g in s.passed
    ensures var s' := Run(s, more); |s'.loops| == |s.loops| + 1 && s'.loops[|s.loops|] == Before && s'.gen == s.gen
  {
    if s.reconnecting {
      more := [LockAndClear(s.gate.value)] + [LockAndStart(g)];
      OneStep(s, LockAndClear(s.gate.value));
      RunSnoc(s, [LockAndClear(s.gate.value)], LockAndStart(g));
    } else {
      more := [LockAndStart(g)];
      OneStep(s, LockAndStart(g));
    }
  }

  // On a closed adapter a reconnect loop can still start exactly when some report looked at
  // `done` before Close and has not reached the lock yet.
  lemma StartsAfterClose(steps: seq<Step>)
    requires Run(Init(), steps).closing == Finished
    ensures var s := Run(Init(), steps);
            (exists more :: |Run(s, more).loops| > |s.loops|) <==> |s.passed| > 0
  {
    Reachable(steps);
    var s := Run(Init(), steps);
    hide Run, Inv, Next;
    if |s.passed| > 0 {
      var g :| g in s.passed;
      var more := LateStart(s, g);
      assert |Run(s, more).loops| > |s.loops|;
    } else {
      forall more ensures |Run(s, more).loops| <= |s.loops| {
        StartsBounded(s, more);
      }
    }
  }

  lemma {:induction false} NothingLeft(s: State, steps: seq<Step>)
    requires IsDone(s) && s.passed == multiset{} && NoneBefore(s)
    ensures var s' := Run(s, steps); IsDone(s') && s'.passed == multiset{} && NoneBefore(s') && s'.gen == s.gen
  {
    if steps == [] {
    } else {
      NothingLeft(s, steps[..|steps| - 1]);
    }
  }

  // And a new transport can still be swapped in exactly when such a report is left or a
  // loop has yet to make its swap.
  lemma SwapsAfterClose(steps: seq<Step>)
    requires Run(Init(), steps).closing == Finished
    ensures var s := Run(Init(), steps);
            (exists more :: Run(s, more).gen > s.gen) <==> |s.passed| > 0 || !NoneBefore(s)
  {
    Reachable(steps);
    var s := Run(Init(), steps);
    hide Run, Inv;
    if !NoneBefore(s) {
      var l: nat :| l < |s.loops| && s.loops[l] == Before;
      OneStep(s, Swap(l));
      assert Run(s, [Swap(l)]).gen > s.gen;
    } else if |s.passed| > 0 {
      var g :| g in s.passed;
      var more := LateStart(s, g);
      RunSnoc(s, more, Swap(|s.loops|));
      assert Run(s, more + [Swap(|s.loops|)]).gen > s.gen;
    } else {
      forall more ensures Run(s, more).gen == s.gen {
        NothingLeft(s, more);
      }
    }
  }

  lemma TwoReports()
    ensures Next(Next(Next(Next(Init(), TransportFails), Report(0)), Report(0)), LockAndStart(0))
            == State(NotCalled, true, Some(0), multiset{0}, [Before], [0], 0, 0, {0}, {0})
  {
    assert multiset{0} + multiset{0} - multiset{0} == multiset{0};
  }

  lemma ClosedMeanwhile(s: State)
    requires s == State(NotCalled, true, Some(0), multiset{0}, [Before], [0], 0, 0, {0}, {0})
    ensures var s' := Next(Next(Next(Next(s, CloseDone), CloseLocked), Swap(0)), LockAndStart(0));
            s'.closing == Finished && s'.reconnecting && s'.loops == [After, Before] && s'.gen == 1
  {
  }
  // Both do happen: Close runs while a report is past `done`, and while a loop is dialing.
  lemma LateStartAndSwapHappen() returns (steps: seq<Step>)
    ensures var s := Run(Init(), steps);
            s.closing == Finished && s.reconnecting && s.loops == [After, Before] && s.gen == 1
  {
    hide Next, Run;
    var first := [TransportFails] + [Report(0)] + [Report(0)] + [LockAndStart(0)];
    var s1 := State(NotCalled, true, Some(0), multiset{0}, [Before], [0], 0, 0, {0}, {0});
    var last := [CloseDone] + [CloseLocked] + [Swap(0)] + [LockAndStart(0)];
    TwoReports();
    ClosedMeanwhile(s1);
    RunFour(Init(), TransportFails, Report(0), Report(0), LockAndStart(0));
    RunFour(s1, CloseDone, CloseLocked, Swap(0), LockAndStart(0));
    RunAppend(Init(), first, last);
    steps := first + last;
  }
}
