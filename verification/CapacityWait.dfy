// Waiting for a free slot: dialers take the group's wait channel, scan the pool without
// stopping the counters, and block; whoever raises capacity signals afterwards
// (waitChannel, signalCapacityChange, selectConnWithCapacity and the loop at the head of
// Group.dial in internal/upstream/pool.go). Each atomic load, add and lock section is one
// step; any number of dialers and of threads that raise or lower capacity interleave.
module CapacityWait {
  import opened Common

  datatype Conn = Conn(active: int, inflight: int, draining: bool)

  // Which load of the connection under the scan comes next.
  datatype Reading = AtDraining | AtActive | AtInflight(active: int)

  // A dialer. Ready, Scanning, Sizing and Blocked hold a wait channel; Admitted keeps its
  // inflight slot and goes on to the SSH dial, Gone has returned an error. Scanning holds
  // the pool's read lock; second is the scan made just before blocking.
  datatype Waiter =
    | Starting
    | Ready(ch: nat, second: bool)
    | Scanning(ch: nat, second: bool, next: nat, at: Reading, found: set<nat>)
    | Sizing(ch: nat, second: bool)
    | Chosen(conn: nat)
    | Added(conn: nat, got: int)
    | BackOff(conn: nat)
    | Admitted(conn: nat)
    | Blocked(ch: nat)
    | Gone

  // pool lists connections by number. closes counts how often each wait channel was closed;
  // taken are the channels a signaller has taken out of waitCh and not yet closed; pending
  // counts threads that have changed capacity and not yet entered signalCapacityChange.
  datatype State = State(
    conns: seq<Conn>, pool: seq<nat>, waiters: seq<Waiter>,
    waitCh: Option<nat>, closes: seq<nat>, taken: set<nat>, pending: nat)

  datatype Step =
    // a dialer
    | Arrive
    | TakeChannel(w: nat)
    | BeginScan(w: nat)
    | Load(w: nat)
    | EndScan(w: nat, choice: nat)
    | CheckSize(w: nat)
    | AddInflight(w: nat)
    | CheckLimit(w: nat)
    | GiveBack(w: nat)
    | Wake(w: nat)
    | CtxEnds(w: nat)
    // everyone else
    | LowerInflight(conn: nat)
    | LowerActive(conn: nat)
    | RaiseActive(conn: nat)
    | SetDraining(conn: nat, draining: bool)
    | NewConn
    | SetPool(ids: seq<nat>)
    | Signal
    | CloseTaken(ch: nat)

  function Init(): State {
    State([], [], [], None, [], {}, 0)
  }

  predicate NoReader(waiters: seq<Waiter>) {
    forall i :: 0 <= i < |waiters| ==> !waiters[i].Scanning?
  }

  predicate KnownIds(ids: seq<nat>, n: nat) {
    forall i :: 0 <= i < |ids| ==> ids[i] < n
  }

  predicate HasRoom(c: Conn) {
    !c.draining && c.active + c.inflight < MAX_CHANNELS_PER_CONN
  }

  function SetWaiter(s: State, w: nat, v: Waiter): State
    requires w < |s.waiters|
  {
    s.(waiters := s.waiters[w := v])
  }

  // One atomic load of the scan.
  function LoadOne(v: Waiter, c: Conn, id: nat): Waiter
    requires v.Scanning?
  {
    match v.at
    case AtDraining => if c.draining then v.(next := v.next + 1) else v.(at := AtActive)
    case AtActive => v.(at := AtInflight(c.active))
    case AtInflight(a) =>
      v.(next := v.next + 1, at := AtDraining,
         found := if a + c.inflight >= MAX_CHANNELS_PER_CONN then v.found else v.found + {id})
  }

  // A counter goes down, and the thread that lowered it has still to signal.
  function Lower(s: State, conn: nat, active: nat, inflight: nat): State {
    if conn < |s.conns|
    then
      var c := s.conns[conn];
      s.(conns := s.conns[conn := c.(active := c.active - active, inflight := c.inflight - inflight)],
         pending := s.pending + 1)
    else s
  }

  function DialerNext(s: State, step: Step, w: nat): State
    requires w < |s.waiters|
  {
    var v := s.waiters[w];
    match step
    case TakeChannel(_) =>
      if v != Starting then s
      else if s.waitCh.Some? then SetWaiter(s, w, Ready(s.waitCh.value, false))
      else SetWaiter(s, w, Ready(|s.closes|, false)).(waitCh := Some(|s.closes|), closes := s.closes + [0])
    case BeginScan(_) =>
      if v.Ready? then SetWaiter(s, w, Scanning(v.ch, v.second, 0, AtDraining, {})) else s
    case Load(_) =>
      if v.Scanning? && v.next < |s.pool| && s.pool[v.next] < |s.conns|
      then SetWaiter(s, w, LoadOne(v, s.conns[s.pool[v.next]], s.pool[v.next]))
      else s
    case EndScan(_, choice) =>
      if !v.Scanning? || v.next < |s.pool| then s
      else if v.found == {} then SetWaiter(s, w, Sizing(v.ch, v.second))
      else if choice !in v.found then s
      else SetWaiter(s, w, if v.second then Starting else Chosen(choice))
    case CheckSize(_) =>
      if !v.Sizing? then s
      else SetWaiter(s, w, if |s.pool| == 0 then Gone else if v.second then Blocked(v.ch) else Ready(v.ch, true))
    case AddInflight(_) =>
      if v.Chosen? && v.conn < |s.conns|
      then
        var c := s.conns[v.conn];
        SetWaiter(s, w, Added(v.conn, c.inflight + 1)).(conns := s.conns[v.conn := c.(inflight := c.inflight + 1)])
      else s
    case CheckLimit(_) =>
      if v.Added? && v.conn < |s.conns|
      then
        SetWaiter(s, w, if s.conns[v.conn].active + v.got > MAX_CHANNELS_PER_CONN
                        then BackOff(v.conn) else Admitted(v.conn))
      else s
    case GiveBack(_) =>
      if v.BackOff? then Lower(SetWaiter(s, w, Starting), v.conn, 0, 1) else s
    case Wake(_) =>
      if v.Blocked? && v.ch < |s.closes| && s.closes[v.ch] > 0 then SetWaiter(s, w, Starting) else s
    case CtxEnds(_) =>
      if v.Blocked? then SetWaiter(s, w, Gone) else s
    case _ => s
  }

  function Next(s: State, step: Step): State {
    match step
    case Arrive => s.(waiters := s.waiters + [Starting])
    case LowerInflight(conn) => Lower(s, conn, 0, 1)
    case LowerActive(conn) => Lower(s, conn, 1, 0)
    case RaiseActive(conn) =>
      if conn < |s.conns|
      then s.(conns := s.conns[conn := s.conns[conn].(active := s.conns[conn].active + 1)])
      else s
    case SetDraining(conn, draining) =>
      if conn < |s.conns|
      then s.(conns := s.conns[conn := s.conns[conn].(draining := draining)], pending := s.pending + 1)
      else s
    case NewConn => s.(conns := s.conns + [Conn(0, 0, false)])
    case SetPool(ids) =>
      if NoReader(s.waiters) && KnownIds(ids, |s.conns|)
      then s.(pool := ids, pending := s.pending + 1)
      else s
    case Signal =>
      if s.pending == 0 then s
      else
        s.(pending := s.pending - 1, waitCh := None,
           taken := if s.waitCh.Some? then s.taken + {s.waitCh.value} else s.taken)
    case CloseTaken(ch) =>
      if ch in s.taken && ch < |s.closes|
      then s.(taken := s.taken - {ch}, closes := s.closes[ch := s.closes[ch] + 1])
      else s
    case _ =>
      if step.w < |s.waiters| then DialerNext(s, step, step.w) else s
  }

  function Run(s: State, steps: seq<Step>): State {
    if steps == [] then s else Next(Run(s, steps[..|steps| - 1]), steps[|steps| - 1])
  }

  // ----- the invariant -----

  predicate HoldsChannel(v: Waiter) {
    v.Ready? || v.Scanning? || v.Sizing? || v.Blocked?
  }

  // A channel is open exactly while it is waitCh or in one signaller's hands.
  ghost predicate Channels(s: State) {
    && KnownIds(s.pool, |s.conns|)
    && (s.waitCh.Some? ==> s.waitCh.value < |s.closes| && s.waitCh.value !in s.taken)
    && (forall k :: k in s.taken ==> k < |s.closes|)
    && (forall k: nat :: k < |s.closes| ==>
          s.closes[k] == if k in s.taken || s.waitCh == Some(k) then 0 else 1)
    && (forall w :: 0 <= w < |s.waiters| && HoldsChannel(s.waiters[w]) ==> s.waiters[w].ch < |s.closes|)
  }

  ghost predicate FullUpTo(s: State, n: nat) {
    forall i :: 0 <= i < n && i < |s.pool| && s.pool[i] < |s.conns| ==> !HasRoom(s.conns[s.pool[i]])
  }

  // What a dialer's loads still say about the pool while its channel is waitCh and nobody
  // has a signal pending.
  ghost predicate Witnessed(s: State, v: Waiter) {
    match v
    case Scanning(_, _, next, at, found) =>
      && (found == {} ==> FullUpTo(s, next))
      && (at.AtInflight? && next < |s.pool| && s.pool[next] < |s.conns| ==> at.active <= s.conns[s.pool[next]].active)
    case Sizing(_, _) => FullUpTo(s, |s.pool|)
    case Blocked(_) => FullUpTo(s, |s.pool|)
    case _ => true
  }

  ghost predicate AllWitnessed(s: State) {
    s.pending == 0 && s.waitCh.Some? ==>
      forall w :: 0 <= w < |s.waiters| && HoldsChannel(s.waiters[w]) && s.waiters[w].ch == s.waitCh.value ==>
        Witnessed(s, s.waiters[w])
  }

  ghost predicate Inv(s: State) {
    Channels(s) && AllWitnessed(s)
  }

  // Steps that only add load leave every observation standing.
  predicate NoEmptier(s: State, s': State) {
    && s'.pool == s.pool && |s'.conns| >= |s.conns|
    && forall c :: 0 <= c < |s.conns| ==>
         && s'.conns[c].active >= s.conns[c].active && s'.conns[c].inflight >= s.conns[c].inflight
         && s'.conns[c].draining == s.conns[c].draining
  }

  lemma StillWitnessed(s: State, s': State, v: Waiter)
    requires KnownIds(s.pool, |s.conns|) && NoEmptier(s, s') && Witnessed(s, v)
    ensures Witnessed(s', v)
  {
  }

  lemma LoadWitnessed(s: State, v: Waiter)
    requires KnownIds(s.pool, |s.conns|) && v.Scanning? && v.next < |s.pool| && Witnessed(s, v)
    ensures Witnessed(s, LoadOne(v, s.conns[s.pool[v.next]], s.pool[v.next]))
  {
  }

  // Dialer w moves on to v', with no observation lost.
  lemma ReplaceKeeps(s: State, s': State, w: nat, v': Waiter)
    requires Inv(s) && w < |s.waiters| && NoEmptier(s, s')
    requires s'.waiters == s.waiters[w := v'] && s'.waitCh == s.waitCh && s'.closes == s.closes && s'.taken == s.taken
    requires s'.pending == s.pending && |s'.conns| == |s.conns|
    requires HoldsChannel(v') ==> HoldsChannel(s.waiters[w]) && v'.ch == s.waiters[w].ch
    requires Witnessed(s, s.waiters[w]) ==> Witnessed(s', v')
    ensures Inv(s')
  {
    hide Witnessed, HoldsChannel;
    forall x | 0 <= x < |s.waiters| && x != w && Witnessed(s, s.waiters[x]) ensures Witnessed(s', s'.waiters[x]) {
      StillWitnessed(s, s', s.waiters[x]);
    }
  }

  lemma TakeChannelKeeps(s: State, w: nat)
    requires Inv(s) && w < |s.waiters|
    ensures Inv(DialerNext(s, TakeChannel(w), w))
  {
    var s' := DialerNext(s, TakeChannel(w), w);
    if s.waiters[w] == Starting {
      assert s'.waiters[w].Ready?;
      forall x | 0 <= x < |s.waiters| && x != w && Witnessed(s, s.waiters[x]) ensures Witnessed(s', s'.waiters[x]) {
        StillWitnessed(s, s', s.waiters[x]);
      }
      hide Witnessed;
    }
  }

  lemma DialerKeeps(s: State, step: Step, w: nat)
    requires Inv(s) && w < |s.waiters| && !step.TakeChannel? && !step.GiveBack?
    ensures Inv(DialerNext(s, step, w))
  {
    var v := s.waiters[w];
    var s' := DialerNext(s, step, w);
    if s' != s {
      if step.Load? {
        if Witnessed(s, v) {
          LoadWitnessed(s, v);
        }
      }
      ReplaceKeeps(s, s', w, s'.waiters[w]);
    }
  }

  lemma LowerKeeps(s: State, conn: nat, active: nat, inflight: nat)
    requires Inv(s)
    ensures Inv(Lower(s, conn, active, inflight))
  {
  }

  lemma SignalKeeps(s: State)
    requires Inv(s)
    ensures Inv(Next(s, Signal))
  {
    hide Witnessed;
  }

  lemma CloseKeeps(s: State, ch: nat)
    requires Inv(s)
    ensures Inv(Next(s, CloseTaken(ch)))
  {
    var s' := Next(s, CloseTaken(ch));
    forall x | 0 <= x < |s.waiters| && Witnessed(s, s.waiters[x]) ensures Witnessed(s', s.waiters[x]) {
      StillWitnessed(s, s', s.waiters[x]);
    }
    hide Witnessed;
  }

  // New dialers, new connections outside the pool and new load.
  lemma QuietKeeps(s: State, step: Step)
    requires Inv(s) && (step.Arrive? || step.NewConn? || step.RaiseActive?)
    ensures Inv(Next(s, step))
  {
    var s' := Next(s, step);
    forall x | 0 <= x < |s.waiters| && Witnessed(s, s.waiters[x]) ensures Witnessed(s', s'.waiters[x]) {
      StillWitnessed(s, s', s.waiters[x]);
    }
    hide Witnessed;
  }

  lemma PoolKeeps(s: State, step: Step)
    requires Inv(s) && (step.SetPool? || step.SetDraining?)
    ensures Inv(Next(s, step))
  {
    hide Witnessed, HoldsChannel;
  }

  lemma GiveBackKeeps(s: State, w: nat)
    requires Inv(s) && w < |s.waiters|
    ensures Inv(DialerNext(s, GiveBack(w), w))
  {
    var v := s.waiters[w];
    if v.BackOff? {
      ReplaceKeeps(s, SetWaiter(s, w, Starting), w, Starting);
      LowerKeeps(SetWaiter(s, w, Starting), v.conn, 0, 1);
    }
  }

  lemma NextKeeps(s: State, step: Step)
    requires Inv(s)
    ensures Inv(Next(s, step))
  {
    hide Inv, DialerNext, Lower;
    match step {
      case Signal => SignalKeeps(s);
      case CloseTaken(ch) => CloseKeeps(s, ch);
      case Arrive => QuietKeeps(s, step);
      case NewConn => QuietKeeps(s, step);
      case RaiseActive(_) => QuietKeeps(s, step);
      case SetPool(_) => PoolKeeps(s, step);
      case SetDraining(_, _) => PoolKeeps(s, step);
      case LowerInflight(conn) => LowerKeeps(s, conn, 0, 1);
      case LowerActive(conn) => LowerKeeps(s, conn, 1, 0);
      case TakeChannel(w) =>
        if w < |s.waiters| {
          TakeChannelKeeps(s, w);
        }
      case GiveBack(w) =>
        if w < |s.waiters| {
          GiveBackKeeps(s, w);
        }
      case _ =>
        if step.w < |s.waiters| {
          DialerKeeps(s, step, step.w);
        }
    }
  }

  lemma {:induction false} RunKeeps(steps: seq<Step>)
    ensures Inv(Run(Init(), steps))
  {
    hide Next;
    if steps == [] {
    } else {
      hide Inv;
      RunKeeps(steps[..|steps| - 1]);
      NextKeeps(Run(Init(), steps[..|steps| - 1]), steps[|steps| - 1]);
    }
  }

  // ----- what holds in every run -----

  // Some pooled connection could take one more channel.
  ghost predicate Capacity(s: State) {
    exists i :: 0 <= i < |s.pool| && s.pool[i] < |s.conns| && HasRoom(s.conns[s.pool[i]])
  }

  // A dialer blocked while there is capacity has its channel closed already, or in the
  // hands of a signaller about to close it, or still in waitCh with a signal on its way.
  lemma NoLostWakeup(steps: seq<Step>, w: nat)
    requires w < |Run(Init(), steps).waiters| && Run(Init(), steps).waiters[w].Blocked?
    requires Capacity(Run(Init(), steps))
    ensures var s := Run(Init(), steps);
            var ch := s.waiters[w].ch;
            && ch < |s.closes|
            && (s.closes[ch] == 1 || ch in s.taken || (s.waitCh == Some(ch) && s.pending > 0))
  {
    RunKeeps(steps);
    hide Run;
  }

  // No channel is ever closed twice.
  lemma ClosedAtMostOnce(steps: seq<Step>, ch: nat)
    requires ch < |Run(Init(), steps).closes|
    ensures Run(Init(), steps).closes[ch] <= 1
  {
    RunKeeps(steps);
    hide Run;
  }

  lemma RunSnoc(s: State, steps: seq<Step>, step: Step)
    ensures Run(s, steps + [step]) == Next(Run(s, steps), step)
  {
    assert (steps + [step])[..|steps|] == steps;
  }

  lemma CloseAndWake(s: State, w: nat)
    requires Channels(s) && w < |s.waiters| && s.waiters[w].Blocked? && s.waiters[w].ch in s.taken
    ensures var s' := Next(Next(s, CloseTaken(s.waiters[w].ch)), Wake(w));
            w < |s'.waiters| && s'.waiters[w] == Starting
  {
  }

  lemma SignalTakes(s: State, ch: nat)
    requires s.waitCh == Some(ch) && s.pending > 0
    ensures ch in Next(s, Signal).taken && Next(s, Signal).waiters == s.waiters
  {
  }

  lemma InvChannels(s: State)
    requires Inv(s)
    ensures Channels(s)
  {
  }

  // So at most two steps of threads already on their way wake it: no new event is needed.
  lemma WokenInTwo(steps: seq<Step>, w: nat) returns (more: seq<Step>)
    requires w < |Run(Init(), steps).waiters| && Run(Init(), steps).waiters[w].Blocked?
    requires Capacity(Run(Init(), steps))
    ensures |more| <= 2 && forall m :: m in more ==> m == Signal || m == CloseTaken(Run(Init(), steps).waiters[w].ch)
    ensures var s' := Run(Init(), steps + more + [Wake(w)]);
            w < |s'.waiters| && s'.waiters[w] == Starting
  {
    NoLostWakeup(steps, w);
    RunKeeps(steps);
    var s := Run(Init(), steps);
    var ch := s.waiters[w].ch;
    if s.closes[ch] == 1 {
      more := [];
      RunSnoc(Init(), steps, Wake(w));
      assert steps + more + [Wake(w)] == steps + [Wake(w)];
    } else if ch in s.taken {
      more := [CloseTaken(ch)];
      CloseAndWake(s, w);
      hide Next;
      RunSnoc(Init(), steps, CloseTaken(ch));
      RunSnoc(Init(), steps + more, Wake(w));
    } else {
      hide Next, Inv, Channels, Capacity;
      more := [Signal, CloseTaken(ch)];
      RunSnoc(Init(), steps, Signal);
      RunKeeps(steps + [Signal]);
      SignalTakes(s, ch);
      InvChannels(Next(s, Signal));
      CloseAndWake(Next(s, Signal), w);
      RunSnoc(Init(), steps + [Signal], CloseTaken(ch));
      RunSnoc(Init(), steps + [Signal] + [CloseTaken(ch)], Wake(w));
      assert steps + more == steps + [Signal] + [CloseTaken(ch)];
    }
  }

  // ----- a scan that nobody disturbs -----

  lemma {:induction false} RunAppend(s: State, a: seq<Step>, b: seq<Step>)
    ensures Run(s, a + b) == Run(Run(s, a), b)
  {
    hide Next;
    if b == [] {
      assert a + b == a;
    } else {
      RunAppend(s, a, b[..|b| - 1]);
      assert (a + b)[..|a + b| - 1] == a + b[..|b| - 1];
    }
  }

  // The steps of dialer w's own scan.
  predicate OwnScan(step: Step, w: nat) {
    step == BeginScan(w) || step == Load(w) || (step.EndScan? && step.w == w) || step == CheckSize(w)
  }

  predicate OnlyOwnScan(steps: seq<Step>, w: nat) {
    forall step :: step in steps ==> OwnScan(step, w)
  }

  lemma RunOnce(s: State, step: Step)
    ensures Run(s, [step]) == Next(s, step)
  {
    assert [step][..0] == [];
  }

  // The loads of one connection: one if it drains, three otherwise.
  lemma ScanOne(s: State, w: nat, v: Waiter) returns (steps: seq<Step>, v': Waiter)
    requires Channels(s) && w < |s.waiters| && s.waiters[w] == v
    requires v.Scanning? && v.at == AtDraining && v.next < |s.pool|
    ensures Run(s, steps) == SetWaiter(s, w, v') && OnlyOwnScan(steps, w)
    ensures var id := s.pool[v.next];
            v' == v.(next := v.next + 1, found := if HasRoom(s.conns[id]) then v.found + {id} else v.found)
  {
    var c := s.conns[s.pool[v.next]];
    var v1 := LoadOne(v, c, s.pool[v.next]);
    assert Next(s, Load(w)) == SetWaiter(s, w, v1);
    RunOnce(s, Load(w));
    if c.draining {
      steps, v' := [Load(w)], v1;
    } else {
      var s1 := SetWaiter(s, w, v1);
      var v2 := LoadOne(v1, c, s.pool[v.next]);
      assert Next(s1, Load(w)) == SetWaiter(s, w, v2) by {
        assert s1.waiters[w := v2] == s.waiters[w := v2];
      }
      var s2 := SetWaiter(s, w, v2);
      v' := LoadOne(v2, c, s.pool[v.next]);
      assert Next(s2, Load(w)) == SetWaiter(s, w, v') by {
        assert s2.waiters[w := v'] == s.waiters[w := v'];
      }
      RunOnce(s1, Load(w));
      RunOnce(s2, Load(w));
      hide Next;
      steps := [Load(w)] + [Load(w)] + [Load(w)];
      RunAppend(s, [Load(w)], [Load(w)]);
      RunAppend(s, [Load(w)] + [Load(w)], [Load(w)]);
    }
  }

  ghost predicate RoomFound(s: State, found: set<nat>, n: nat) {
    && (forall c :: c in found ==> c in s.pool && c < |s.conns| && HasRoom(s.conns[c]))
    && (found == {} ==> FullUpTo(s, n))
  }

  lemma SameWaiterKept(s: State, w: nat, v: Waiter, v': Waiter)
    requires w < |s.waiters|
    ensures SetWaiter(SetWaiter(s, w, v), w, v') == SetWaiter(s, w, v')
  {
    assert s.waiters[w := v][w := v'] == s.waiters[w := v'];
  }

  lemma RescannedChannels(s: State, w: nat, v': Waiter)
    requires Channels(s) && w < |s.waiters|
    requires HoldsChannel(s.waiters[w]) && HoldsChannel(v') && v'.ch == s.waiters[w].ch
    ensures Channels(SetWaiter(s, w, v'))
  {
  }

  lemma FoundOneMore(s: State, found: set<nat>, n: nat)
    requires KnownIds(s.pool, |s.conns|) && n < |s.pool| && RoomFound(s, found, n)
    ensures RoomFound(s, if HasRoom(s.conns[s.pool[n]]) then found + {s.pool[n]} else found, n + 1)
  {
  }

  lemma SameRoom(s: State, s': State, found: set<nat>, n: nat)
    requires s'.pool == s.pool && s'.conns == s.conns && RoomFound(s, found, n)
    ensures RoomFound(s', found, n)
  {
  }

  // All the loads that are left find exactly the connections with room.
  lemma {:induction false} ScanRest(s: State, w: nat, v: Waiter) returns (steps: seq<Step>, v': Waiter)
    requires Channels(s) && w < |s.waiters| && s.waiters[w] == v
    requires v.Scanning? && v.at == AtDraining && v.next <= |s.pool| && RoomFound(s, v.found, v.next)
    ensures Run(s, steps) == SetWaiter(s, w, v') && OnlyOwnScan(steps, w)
    ensures v'.Scanning? && v' == v.(next := |s.pool|, found := v'.found) && RoomFound(s, v'.found, |s.pool|)
    decreases |s.pool| - v.next
  {
    if v.next == |s.pool| {
      steps, v' := [], v;
      assert s.waiters[w := v] == s.waiters;
    } else {
      var one, v1 := ScanOne(s, w, v);
      FoundOneMore(s, v.found, v.next);
      RescannedChannels(s, w, v1);
      hide Run, Channels, HasRoom;
      var s1 := SetWaiter(s, w, v1);
      SameRoom(s, s1, v1.found, v1.next);
      var rest, v2 := ScanRest(s1, w, v1);
      steps, v' := one + rest, v2;
      RunAppend(s, one, rest);
      SameWaiterKept(s, w, v1, v2);
      SameRoom(s1, s, v2.found, |s.pool|);
    }
  }

  // Where a scan ends: it blocks, or asks for the second look, exactly when the pool is full.
  ghost predicate ScanOutcome(s: State, before: Waiter, after: Waiter)
    requires before.Ready?
  {
    if Capacity(s) then
      if before.second then after == Starting
      else after.Chosen? && after.conn in s.pool && after.conn < |s.conns| && HasRoom(s.conns[after.conn])
    else if |s.pool| == 0 then after == Gone
    else after == if before.second then Blocked(before.ch) else Ready(before.ch, true)
  }

  lemma FinishScan(s: State, w: nat, v: Waiter, before: Waiter) returns (steps: seq<Step>, v': Waiter)
    requires KnownIds(s.pool, |s.conns|) && w < |s.waiters| && s.waiters[w] == v
    requires v.Scanning? && v.next == |s.pool| && RoomFound(s, v.found, |s.pool|)
    requires before == Ready(v.ch, v.second)
    ensures Run(s, steps) == SetWaiter(s, w, v') && ScanOutcome(s, before, v') && OnlyOwnScan(steps, w)
  {
    if v.found == {} {
      var v1 := Sizing(v.ch, v.second);
      v' := if |s.pool| == 0 then Gone else if v.second then Blocked(v.ch) else Ready(v.ch, true);
      steps := [EndScan(w, 0)] + [CheckSize(w)];
      RunOnce(s, EndScan(w, 0));
      RunOnce(SetWaiter(s, w, v1), CheckSize(w));
      RunAppend(s, [EndScan(w, 0)], [CheckSize(w)]);
      SameWaiterKept(s, w, v1, v');
    } else {
      var c :| c in v.found;
      v' := if v.second then Starting else Chosen(c);
      steps := [EndScan(w, c)];
      RunOnce(s, EndScan(w, c));
      var i :| 0 <= i < |s.pool| && s.pool[i] == c;
    }
  }

  // A scan that runs alone blocks its dialer exactly when no pooled connection has room.
  lemma UndisturbedScan(s: State, w: nat) returns (steps: seq<Step>, v': Waiter)
    requires Channels(s) && w < |s.waiters| && s.waiters[w].Ready?
    ensures Run(s, steps) == SetWaiter(s, w, v') && OnlyOwnScan(steps, w)
    ensures ScanOutcome(s, s.waiters[w], v')
  {
    var before := s.waiters[w];
    var v0 := Scanning(before.ch, before.second, 0, AtDraining, {});
    RunOnce(s, BeginScan(w));
    var s0 := SetWaiter(s, w, v0);
    assert Next(s, BeginScan(w)) == s0;
    RescannedChannels(s, w, v0);
    hide Run, Next;
    var loads, v1 := ScanRest(s0, w, v0);
    var s1 := SetWaiter(s, w, v1);
    SameWaiterKept(s, w, v0, v1);
    SameRoom(s0, s1, v1.found, |s.pool|);
    var last, v2 := FinishScan(s1, w, v1, before);
    SameWaiterKept(s, w, v1, v2);
    steps, v' := [BeginScan(w)] + loads + last, v2;
    RunAppend(s, [BeginScan(w)], loads);
    RunAppend(s, [BeginScan(w)] + loads, last);
  }

  // Where dialer w may be after any of its own scan steps, with nobody else moving.
  ghost predicate AloneAt(s: State, v: Waiter, ch: nat) {
    match v
    case Ready(c, _) => c == ch
    case Scanning(c, _, next, at, found) =>
      && c == ch && next <= |s.pool| && RoomFound(s, found, next)
      && (at != AtDraining ==> next < |s.pool| && s.pool[next] < |s.conns| && !s.conns[s.pool[next]].draining)
      && (at.AtInflight? ==> at.active == s.conns[s.pool[next]].active)
    case Sizing(c, _) => c == ch && !Capacity(s)
    case Chosen(c) => c in s.pool && c < |s.conns| && HasRoom(s.conns[c])
    case Starting => Capacity(s)
    case Blocked(c) => c == ch && !Capacity(s) && s.pool != []
    case Gone => s.pool == []
    case _ => false
  }

  lemma AloneLoad(s: State, v: Waiter, ch: nat)
    requires KnownIds(s.pool, |s.conns|) && AloneAt(s, v, ch) && v.Scanning? && v.next < |s.pool|
    ensures AloneAt(s, LoadOne(v, s.conns[s.pool[v.next]], s.pool[v.next]), ch)
  {
    FoundOneMore(s, v.found, v.next);
  }

  lemma AloneNext(s0: State, s: State, w: nat, v: Waiter, ch: nat, step: Step) returns (v': Waiter)
    requires Channels(s0) && w < |s0.waiters| && s == SetWaiter(s0, w, v) && AloneAt(s0, v, ch) && OwnScan(step, w)
    ensures Next(s, step) == SetWaiter(s0, w, v') && AloneAt(s0, v', ch)
  {
    v' := Next(s, step).waiters[w];
    SameWaiterKept(s0, w, v, v');
    if step.Load? && v.Scanning? && v.next < |s0.pool| {
      AloneLoad(s0, v, ch);
    }
    if step.EndScan? && v.Scanning? && v.next >= |s0.pool| && v.found != {} {
      var c :| c in v.found;
      var i :| 0 <= i < |s0.pool| && s0.pool[i] == c;
      assert Capacity(s0);
    }
  }

  // Every scan that runs alone ends so: whatever its own steps, the dialer is blocked only
  // if no pooled connection has room, and chooses one or starts over only if some has.
  lemma {:induction false} AloneScan(s: State, w: nat, steps: seq<Step>)
    requires Channels(s) && w < |s.waiters| && s.waiters[w].Ready? && OnlyOwnScan(steps, w)
    ensures var s' := Run(s, steps);
            w < |s'.waiters| && s' == SetWaiter(s, w, s'.waiters[w]) && AloneAt(s, s'.waiters[w], s.waiters[w].ch)
  {
    if steps == [] {
      assert s.waiters[w := s.waiters[w]] == s.waiters;
    } else {
      hide Next, Channels, AloneAt;
      AloneScan(s, w, steps[..|steps| - 1]);
      var mid := Run(s, steps[..|steps| - 1]);
      var v' := AloneNext(s, mid, w, mid.waiters[w], s.waiters[w].ch, steps[|steps| - 1]);
    }
  }

  // ----- getting in -----

  // The steps of dialer w's own way in.
  predicate OwnDial(step: Step, w: nat) {
    OwnScan(step, w) || step == TakeChannel(w) || step == AddInflight(w) || step == CheckLimit(w)
  }

  // The state s with one more dial in flight on connection c, and that dial's slot held by
  // dialer w, which may have made a new wait channel.
  ghost predicate GotIn(s: State, s': State, w: nat, c: nat)
    requires w < |s.waiters| && c < |s.conns|
  {
    && s'.conns == s.conns[c := s.conns[c].(inflight := s.conns[c].inflight + 1)]
    && s'.waiters == s.waiters[w := Admitted(c)]
    && s'.pool == s.pool && s'.pending == s.pending && s'.taken == s.taken
  }

  lemma ChannelTaken(s: State, w: nat)
    requires Channels(s) && w < |s.waiters| && s.waiters[w] == Starting
    ensures var s' := Next(s, TakeChannel(w));
            && Channels(s') && s'.waiters[w].Ready? && !s'.waiters[w].second
            && s' == s.(waiters := s.waiters[w := s'.waiters[w]], waitCh := s'.waitCh, closes := s'.closes)
  {
  }

  lemma ReserveAndCheck(s: State, w: nat, c: nat)
    requires w < |s.waiters| && s.waiters[w] == Chosen(c) && c < |s.conns| && HasRoom(s.conns[c])
    ensures GotIn(s, Next(Next(s, AddInflight(w)), CheckLimit(w)), w, c)
  {
  }

  lemma SameCapacity(s: State, s': State)
    requires s'.pool == s.pool && s'.conns == s.conns && Capacity(s)
    ensures Capacity(s')
  {
    var i :| 0 <= i < |s.pool| && s.pool[i] < |s.conns| && HasRoom(s.conns[s.pool[i]]);
    assert s'.pool[i] == s.pool[i];
  }

  // s1 is s with another wait channel and dialer w elsewhere.
  lemma GotInFrom(s: State, s1: State, s': State, w: nat, c: nat, v: Waiter)
    requires w < |s.waiters| && c < |s.conns|
    requires s1 == s.(waiters := s.waiters[w := v], waitCh := s1.waitCh, closes := s1.closes)
    requires GotIn(s1, s', w, c)
    ensures GotIn(s, s', w, c)
  {
    SameWaiterKept(s, w, v, Admitted(c));
  }

  lemma ChosenGetsIn(s: State, w: nat, c: nat) returns (steps: seq<Step>)
    requires w < |s.waiters| && s.waiters[w] == Chosen(c) && c < |s.conns| && HasRoom(s.conns[c])
    ensures forall step :: step in steps ==> OwnDial(step, w)
    ensures GotIn(s, Run(s, steps), w, c)
  {
    ReserveAndCheck(s, w, c);
    hide Next, GotIn;
    RunOnce(s, AddInflight(w));
    RunOnce(Next(s, AddInflight(w)), CheckLimit(w));
    hide Run;
    RunAppend(s, [AddInflight(w)], [CheckLimit(w)]);
    steps := [AddInflight(w)] + [CheckLimit(w)];
  }

  // A dialer that nobody disturbs gets a slot at once when a pooled connection has one free:
  // on a connection with room, and with no other effect on pool or counters.
  lemma GetsIn(s: State, w: nat) returns (steps: seq<Step>, c: nat)
    requires Channels(s) && w < |s.waiters| && s.waiters[w] == Starting
    requires exists i :: 0 <= i < |s.pool| && s.pool[i] < |s.conns| && !s.conns[s.pool[i]].draining
                         && s.conns[s.pool[i]].active + s.conns[s.pool[i]].inflight < 4
    ensures forall step :: step in steps ==> OwnDial(step, w)
    ensures c in s.pool && c < |s.conns| && !s.conns[c].draining && s.conns[c].active + s.conns[c].inflight < 4
    ensures GotIn(s, Run(s, steps), w, c)
  {
    assert Capacity(s);
    RunOnce(s, TakeChannel(w));
    ChannelTaken(s, w);
    hide Next, Run, Channels, Capacity, GotIn;
    var s1 := Next(s, TakeChannel(w));
    SameCapacity(s, s1);
    var scan, v := UndisturbedScan(s1, w);
    c := v.conn;
    var s2 := SetWaiter(s1, w, v);
    var last := ChosenGetsIn(s2, w, c);
    SameWaiterKept(s, w, s1.waiters[w], v);
    GotInFrom(s, s2, Run(s2, last), w, c, v);
    steps := [TakeChannel(w)] + scan + last;
    RunAppend(s, [TakeChannel(w)], scan);
    RunAppend(s, [TakeChannel(w)] + scan, last);
  }

  // The check turns a dialer back exactly when its connection's channels and the dials that
  // were in flight with its own make more than four; it then returns its slot, owes a signal
  // and starts over.
  lemma TurnedBackExactly(s: State, w: nat)
    requires w < |s.waiters| && s.waiters[w].Added? && s.waiters[w].conn < |s.conns|
    ensures var (c, got) := (s.waiters[w].conn, s.waiters[w].got);
            var checked := Next(s, CheckLimit(w));
            if s.conns[c].active + got <= 4 then
              checked == s.(waiters := s.waiters[w := Admitted(c)])
            else
              Next(checked, GiveBack(w))
              == s.(waiters := s.waiters[w := Starting], pending := s.pending + 1,
                    conns := s.conns[c := s.conns[c].(inflight := s.conns[c].inflight - 1)])
  {
    var c := s.waiters[w].conn;
    SameWaiterKept(s, w, BackOff(c), Starting);
  }
}
