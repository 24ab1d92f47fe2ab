// The per-connection keepalive loop: when it forces a WebSocket resume and when it
// closes the connection (startSSHKeepalives in internal/upstream/pool.go).
module Keepalive {
  import opened Common

  const FAILURE_LIMIT := 2
  const RESCUE_COOLDOWN := 600 * SECOND

  // One tick of the loop, with what it observes: the time, whether the adapter is
  // reconnecting before and after the probe, the probe's result, and whether data came in
  // recently. Restored is a health check elsewhere that clears the failure count.
  datatype Event =
    | Tick(now: int, reconnecting: bool, probeFailed: bool, reconnectingAfter: bool, recentInbound: bool)
    | Restored

  datatype Action = Carry | ForceResume | CloseConn

  // lastRescue is 0 while no resume has been forced.
  datatype State = State(resumable: bool, failures: nat, lastRescue: int, stopped: bool)

  function Init(resumable: bool): State {
    State(resumable, 0, 0, false)
  }

  predicate CountsAsFailure(e: Event) {
    e.Tick? && !e.reconnecting && e.probeFailed && !e.reconnectingAfter && !e.recentInbound
  }

  predicate ClearsFailures(e: Event) {
    e.Restored? || (!e.reconnecting && (!e.probeFailed || (!e.reconnectingAfter && e.recentInbound)))
  }

  predicate MayRescue(s: State, now: int) {
    s.resumable && (s.lastRescue == 0 || now - s.lastRescue >= RESCUE_COOLDOWN)
  }

  function Act(s: State, e: Event): Action {
    if s.stopped || !CountsAsFailure(e) || s.failures + 1 < FAILURE_LIMIT then Carry
    else if MayRescue(s, e.now) then ForceResume
    else CloseConn
  }

  function Next(s: State, e: Event): State {
    if s.stopped then s
    else if CountsAsFailure(e) then
      match Act(s, e)
      case Carry => s.(failures := s.failures + 1)
      case ForceResume => s.(failures := 0, lastRescue := e.now)
      case CloseConn => s.(failures := s.failures + 1, stopped := true)
    else if ClearsFailures(e) then s.(failures := 0)
    else s
  }

  function Run(s: State, trace: seq<Event>): State {
    if trace == [] then s else Next(Run(s, trace[..|trace| - 1]), trace[|trace| - 1])
  }

  // What the loop does at position i of a trace.
  function ActAt(resumable: bool, trace: seq<Event>, i: nat): Action
    requires i < |trace|
  {
    Act(Run(Init(resumable), trace[..i]), trace[i])
  }

  ghost predicate ClockRuns(trace: seq<Event>) {
    && (forall i :: 0 <= i < |trace| && trace[i].Tick? ==> trace[i].now > 0)
    && (forall i, j :: 0 <= i < j < |trace| && trace[i].Tick? && trace[j].Tick? ==> trace[i].now <= trace[j].now)
  }

  // ----- the loop itself -----

  class Loop {
    const resumable: bool

    var failures: nat
    var lastRescue: int
    var stopped: bool

    function Value(): State
      reads this
    {
      State(resumable, failures, lastRescue, stopped)
    }

    constructor (resumable: bool)
      ensures Value() == Init(resumable)
    {
      this.resumable := resumable;
      failures := 0;
      lastRescue := 0;
      stopped := false;
    }

    method OnTick(now: int, reconnecting: bool, probeFailed: bool, reconnectingAfter: bool, recentInbound: bool)
      returns (action: Action)
      modifies this
      ensures var e := Tick(now, reconnecting, probeFailed, reconnectingAfter, recentInbound);
              Value() == Next(old(Value()), e) && action == Act(old(Value()), e)
    {
      if stopped || reconnecting {
        return Carry;
      }
      if probeFailed {
        if reconnectingAfter {
          return Carry;
        }
        if recentInbound {
          failures := 0;
          return Carry;
        }
        failures := failures + 1;
        if failures >= FAILURE_LIMIT {
          if resumable && (lastRescue == 0 || now - lastRescue >= RESCUE_COOLDOWN) {
            lastRescue := now;
            failures := 0;
            return ForceResume;
          }
          stopped := true;
          return CloseConn;
        }
        return Carry;
      }
      failures := 0;
      return Carry;
    }
  }

  // ----- properties of whole traces -----

  lemma {:induction false} PrefixRun(resumable: bool, trace: seq<Event>, i: nat)
    requires i < |trace|
    ensures Run(Init(resumable), trace[..i + 1]) == Next(Run(Init(resumable), trace[..i]), trace[i])
  {
    assert trace[..i + 1][..i] == trace[..i];
  }

  ghost predicate RescuedAt(resumable: bool, trace: seq<Event>, i: int) {
    0 <= i < |trace| && ActAt(resumable, trace, i) == ForceResume
  }

  // The last forced resume before position n, at time `when`.
  ghost predicate LastRescue(resumable: bool, trace: seq<Event>, n: nat, r: nat, when: int) {
    && r < n <= |trace| && RescuedAt(resumable, trace, r) && trace[r].Tick? && trace[r].now == when
    && forall i :: r < i < n ==> !RescuedAt(resumable, trace, i)
  }

  // lastRescue is the time of the last forced resume.
  ghost predicate RescueKnown(resumable: bool, trace: seq<Event>, n: nat, last: int) {
    && (last == 0 ==> forall i :: 0 <= i < n ==> !RescuedAt(resumable, trace, i))
    && (last != 0 ==> exists r: nat :: LastRescue(resumable, trace, n, r, last))
  }

  lemma RescueKnownNext(resumable: bool, trace: seq<Event>, n: nat, last: int)
    requires n < |trace| && RescueKnown(resumable, trace, n, last)
    ensures RescuedAt(resumable, trace, n) && trace[n].Tick? && trace[n].now != 0 ==>
              RescueKnown(resumable, trace, n + 1, trace[n].now)
    ensures !RescuedAt(resumable, trace, n) ==> RescueKnown(resumable, trace, n + 1, last)
  {
    hide RescuedAt;
    if RescuedAt(resumable, trace, n) {
      if trace[n].Tick? {
        assert LastRescue(resumable, trace, n + 1, n, trace[n].now);
      }
    } else if last != 0 {
      var r: nat :| LastRescue(resumable, trace, n, r, last);
      assert LastRescue(resumable, trace, n + 1, r, last);
    }
  }

  lemma RescueStep(s: State, e: Event)
    ensures Act(s, e) == ForceResume ==> e.Tick? && Next(s, e).lastRescue == e.now
    ensures Act(s, e) != ForceResume ==> Next(s, e).lastRescue == s.lastRescue
    ensures Act(s, e) == ForceResume && s.lastRescue != 0 ==> e.now - s.lastRescue >= RESCUE_COOLDOWN
    ensures Act(s, e) == CloseConn && s.resumable ==>
              e.Tick? && s.lastRescue != 0 && e.now - s.lastRescue < RESCUE_COOLDOWN
    ensures Next(s, e).resumable == s.resumable
  {
  }

  lemma {:induction false} RescueIsKnown(resumable: bool, trace: seq<Event>, n: nat)
    requires n <= |trace| && ClockRuns(trace)
    ensures RescueKnown(resumable, trace, n, Run(Init(resumable), trace[..n]).lastRescue)
  {
    if n == 0 {
      assert trace[..0] == [];
    } else {
      hide Act, Next, Run, LastRescue, RescueKnown;
      RescueIsKnown(resumable, trace, n - 1);
      PrefixRun(resumable, trace, n - 1);
      var p := Run(Init(resumable), trace[..n - 1]);
      RescueStep(p, trace[n - 1]);
      RescueKnownNext(resumable, trace, n - 1, p.lastRescue);
    }
  }

  // Two forced resumes are never less than ten minutes apart.
  lemma RescuesApart(resumable: bool, trace: seq<Event>, i: nat, j: nat)
    requires ClockRuns(trace)
    requires i < j < |trace| && RescuedAt(resumable, trace, i) && RescuedAt(resumable, trace, j)
    ensures trace[i].Tick? && trace[j].Tick? && trace[j].now - trace[i].now >= 600 * SECOND
  {
    hide Act, Next, Run;
    RescueIsKnown(resumable, trace, j);
    RescueStep(Run(Init(resumable), trace[..i]), trace[i]);
    RescueStep(Run(Init(resumable), trace[..j]), trace[j]);
    var r: nat :| LastRescue(resumable, trace, j, r, Run(Init(resumable), trace[..j]).lastRescue);
    assert i <= r;
  }

  // A probe failed, with the adapter up before and after it and nothing received lately.
  predicate FailedProbe(e: Event) {
    match e
    case Tick(_, reconnecting, probeFailed, reconnectingAfter, recentInbound) =>
      probeFailed && !reconnecting && !reconnectingAfter && !recentInbound
    case Restored => false
  }

  // The connection proved alive: a health check restored it, or while the adapter was up a
  // probe succeeded, or data had come in lately when one failed.
  predicate SeenAlive(e: Event) {
    match e
    case Tick(_, reconnecting, probeFailed, reconnectingAfter, recentInbound) =>
      !reconnecting && if probeFailed then !reconnectingAfter && recentInbound else true
    case Restored => true
  }

  // Two failed probes at i and j, and in between neither a sign of life nor a forced resume.
  ghost predicate TwoInARow(resumable: bool, trace: seq<Event>, i: int, j: int) {
    && 0 <= i < j < |trace|
    && FailedProbe(trace[i]) && FailedProbe(trace[j])
    && forall k :: i <= k < j ==> !SeenAlive(trace[k]) && !RescuedAt(resumable, trace, k)
  }

  lemma KindsOfEvents(e: Event)
    ensures CountsAsFailure(e) <==> FailedProbe(e)
    ensures ClearsFailures(e) <==> SeenAlive(e)
  {
  }

  // Where the current count of failures began.
  ghost predicate CountBegan(resumable: bool, trace: seq<Event>, n: nat, i: int)
    requires n <= |trace|
  {
    && 0 <= i < n && CountsAsFailure(trace[i])
    && forall k :: i <= k < n ==> !ClearsFailures(trace[k]) && !RescuedAt(resumable, trace, k)
  }

  lemma InARowIs(resumable: bool, trace: seq<Event>, i: int, j: int)
    requires 0 <= j < |trace|
    ensures TwoInARow(resumable, trace, i, j) <==> CountsAsFailure(trace[j]) && CountBegan(resumable, trace, j, i)
  {
    hide CountsAsFailure, ClearsFailures, FailedProbe, SeenAlive, RescuedAt;
    forall k | 0 <= k < |trace|
      ensures CountsAsFailure(trace[k]) <==> FailedProbe(trace[k])
      ensures ClearsFailures(trace[k]) <==> SeenAlive(trace[k])
    {
      KindsOfEvents(trace[k]);
    }
  }

  lemma CountGoesOn(resumable: bool, trace: seq<Event>, n: nat, i: int)
    requires n < |trace| && !ClearsFailures(trace[n]) && !RescuedAt(resumable, trace, n)
    requires CountBegan(resumable, trace, n, i) || (i == n && CountsAsFailure(trace[n]))
    ensures CountBegan(resumable, trace, n + 1, i)
  {
    hide RescuedAt, ClearsFailures, CountsAsFailure;
  }

  lemma CountStep(s: State, e: Event)
    ensures Next(s, e).failures > 0 && !Next(s, e).stopped ==>
              && !s.stopped && !ClearsFailures(e) && Act(s, e) != ForceResume
              && (s.failures > 0 || CountsAsFailure(e))
  {
  }

  lemma {:induction false} CountHasBeginning(resumable: bool, trace: seq<Event>, n: nat)
    requires n <= |trace|
    ensures var s := Run(Init(resumable), trace[..n]);
            s.failures > 0 && !s.stopped ==> exists i :: CountBegan(resumable, trace, n, i)
  {
    if n == 0 {
      assert trace[..0] == [];
    } else {
      hide Act, Next, Run, CountBegan, CountsAsFailure, ClearsFailures;
      PrefixRun(resumable, trace, n - 1);
      CountHasBeginning(resumable, trace, n - 1);
      var s := Run(Init(resumable), trace[..n]);
      var p := Run(Init(resumable), trace[..n - 1]);
      CountStep(p, trace[n - 1]);
      if s.failures > 0 && !s.stopped {
        if p.failures > 0 {
          var i :| CountBegan(resumable, trace, n - 1, i);
          CountGoesOn(resumable, trace, n - 1, i);
        } else {
          CountGoesOn(resumable, trace, n - 1, n - 1);
        }
      }
    }
  }

  lemma {:induction false} RunKeepsResumable(resumable: bool, trace: seq<Event>)
    ensures Run(Init(resumable), trace).resumable == resumable
  {
    if trace == [] {
    } else {
      RunKeepsResumable(resumable, trace[..|trace| - 1]);
      RescueStep(Run(Init(resumable), trace[..|trace| - 1]), trace[|trace| - 1]);
    }
  }

  // The loop closes a connection that can resume only if it forced a resume less than ten
  // minutes earlier, and two failures in a row were counted after that resume.
  lemma CloseOnlyAfterRescue(resumable: bool, trace: seq<Event>, n: nat)
    requires ClockRuns(trace)
    requires n < |trace| && ActAt(resumable, trace, n) == CloseConn
    ensures exists i :: TwoInARow(resumable, trace, i, n)
    ensures resumable ==> exists r, i :: 0 <= r < i && RescuedAt(resumable, trace, r)
                                         && trace[r].Tick? && trace[n].Tick?
                                         && trace[n].now - trace[r].now < 600 * SECOND
                                         && TwoInARow(resumable, trace, i, n)
  {
    hide Next;
    var s := Run(Init(resumable), trace[..n]);
    assert s.failures > 0 && !s.stopped && CountsAsFailure(trace[n]);
    CountHasBeginning(resumable, trace, n);
    var i :| CountBegan(resumable, trace, n, i);
    InARowIs(resumable, trace, i, n);
    if resumable {
      RescueIsKnown(resumable, trace, n);
      RunKeepsResumable(resumable, trace[..n]);
      RescueStep(s, trace[n]);
      var r: nat :| LastRescue(resumable, trace, n, r, s.lastRescue);
      assert !(i <= r);
      assert r < i && TwoInARow(resumable, trace, i, n);
    }
  }

  // ----- exactly when -----

  ghost predicate RescuedRecently(resumable: bool, trace: seq<Event>, n: nat)
    requires n < |trace|
  {
    exists r :: 0 <= r < n && RescuedAt(resumable, trace, r) && trace[r].Tick? && trace[n].Tick?
                && trace[n].now - trace[r].now < 600 * SECOND
  }

  lemma CountKept(s: State, e: Event)
    requires !s.stopped && !Next(s, e).stopped && !ClearsFailures(e) && Act(s, e) != ForceResume
    ensures Next(s, e).failures > 0 <==> s.failures > 0 || CountsAsFailure(e)
  {
  }

  lemma StoppedStays(s: State, e: Event)
    ensures s.stopped ==> Next(s, e).stopped
  {
  }

  lemma NotRescued(resumable: bool, trace: seq<Event>, n: nat)
    requires n < |trace| && !RescuedAt(resumable, trace, n)
    ensures ActAt(resumable, trace, n) != ForceResume
  {
  }

  // A failure counted and not cleared since is still on the count.
  lemma {:induction false} CountStays(resumable: bool, trace: seq<Event>, n: nat, i: int)
    requires n <= |trace| && CountBegan(resumable, trace, n, i)
    requires !Run(Init(resumable), trace[..n]).stopped
    ensures Run(Init(resumable), trace[..n]).failures > 0
  {
    var p := Run(Init(resumable), trace[..n - 1]);
    PrefixRun(resumable, trace, n - 1);
    StoppedStays(p, trace[n - 1]);
    assert !ClearsFailures(trace[n - 1]) && !RescuedAt(resumable, trace, n - 1);
    hide Run, Next, Act, CountsAsFailure, ClearsFailures, RescuedAt;
    if i < n - 1 {
      CountStays(resumable, trace, n - 1, i);
    }
    assert ActAt(resumable, trace, n - 1) != ForceResume by {
      NotRescued(resumable, trace, n - 1);
    }
    CountKept(p, trace[n - 1]);
  }

  lemma ActIs(s: State, e: Event)
    requires !s.stopped
    ensures Act(s, e) == Carry <==> !(CountsAsFailure(e) && s.failures > 0)
    ensures Act(s, e) == CloseConn <==> Act(s, e) != Carry && !MayRescue(s, e.now)
  {
  }

  // A rescue is recent exactly when the stored time says so.
  lemma RecentlyIs(resumable: bool, trace: seq<Event>, n: nat, last: int)
    requires ClockRuns(trace) && n < |trace| && trace[n].Tick? && RescueKnown(resumable, trace, n, last)
    ensures RescuedRecently(resumable, trace, n) <==> last != 0 && trace[n].now - last < RESCUE_COOLDOWN
  {
    hide RescuedAt;
    if last != 0 {
      var r: nat :| LastRescue(resumable, trace, n, r, last);
    }
  }

  // While the loop runs it acts at a tick exactly when two failures in a row have been
  // counted; it then closes the connection exactly when that cannot resume or was rescued
  // less than ten minutes before, and forces a resume otherwise.
  lemma ActsExactly(resumable: bool, trace: seq<Event>, n: nat)
    requires ClockRuns(trace) && n < |trace| && !Run(Init(resumable), trace[..n]).stopped
    ensures ActAt(resumable, trace, n) == Carry <==> !exists i :: TwoInARow(resumable, trace, i, n)
    ensures ActAt(resumable, trace, n) == CloseConn <==>
              (exists i :: TwoInARow(resumable, trace, i, n)) && (resumable ==> RescuedRecently(resumable, trace, n))
  {
    var s := Run(Init(resumable), trace[..n]);
    ActIs(s, trace[n]);
    CountHasBeginning(resumable, trace, n);
    RescueIsKnown(resumable, trace, n);
    RunKeepsResumable(resumable, trace[..n]);
    hide Run, Next, Act, RescuedAt, RescueKnown, RescuedRecently, ClearsFailures;
    if s.failures > 0 && CountsAsFailure(trace[n]) {
      var i :| CountBegan(resumable, trace, n, i);
      InARowIs(resumable, trace, i, n);
      RecentlyIs(resumable, trace, n, s.lastRescue);
    }
    if i :| TwoInARow(resumable, trace, i, n) {
      InARowIs(resumable, trace, i, n);
      CountStays(resumable, trace, n, i);
    }
  }

  lemma {:induction false} StaysStopped(resumable: bool, trace: seq<Event>, n: nat, m: nat)
    requires n <= m <= |trace| && Run(Init(resumable), trace[..n]).stopped
    ensures Run(Init(resumable), trace[..m]).stopped
  {
    if m == n {
    } else {
      hide Run, Next;
      StaysStopped(resumable, trace, n, m - 1);
      PrefixRun(resumable, trace, m - 1);
      StoppedStays(Run(Init(resumable), trace[..m - 1]), trace[m - 1]);
    }
  }

  lemma CloseStops(s: State, e: Event)
    ensures Act(s, e) == CloseConn ==> Next(s, e).stopped
    ensures s.stopped ==> Act(s, e) == Carry
  {
  }

  // A connection is closed once, and the loop never acts again.
  lemma NothingAfterClose(resumable: bool, trace: seq<Event>, n: nat, m: nat)
    requires n < m < |trace| && ActAt(resumable, trace, n) == CloseConn
    ensures ActAt(resumable, trace, m) == Carry
  {
    hide Run, Next, Act;
    CloseStops(Run(Init(resumable), trace[..n]), trace[n]);
    PrefixRun(resumable, trace, n);
    StaysStopped(resumable, trace, n + 1, m);
    CloseStops(Run(Init(resumable), trace[..m]), trace[m]);
  }
}
