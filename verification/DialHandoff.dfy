// The life of a reserved slot: reservation, the hand-off between the caller of dial and
// the goroutine that cannot be cancelled, and the channel that results (Group.dial,
// releaseInflight and trackedConn.Close in internal/upstream/pool.go). Every atomic
// operation, lock section and channel rendezvous is one step; any steps of any number of
// dials on any number of connections interleave.
module DialHandoff {
  import opened Common
  import opened Sets

  // The goroutine that called dial. Refused is about to give the slot back; Between has
  // given the inflight slot back and not yet counted the channel as active.
  datatype Caller =
    | Reserved | Refused | Validated | Waiting | TimedOut
    | Received(ok: bool) | Between | Owner | Closing | Left

  // The goroutine that runs the SSH dial.
  datatype Dialer =
    | Idle | Dialing | Dialed | Offering | CtxTaken
    | Cleanup(timedOut: bool) | Discarded(timedOut: bool) | Releasing | Ended

  // One reservation. got is what the atomic add returned. connected, returned and discarded
  // say what has happened to the channel; releases counts how often the slot was given
  // back. seen are the holders at the add; slots and transfers are recorded by the check:
  // everyone it accounts for, and those that were Between.
  datatype Dial = Dial(
    sc: nat, caller: Caller, dialer: Dialer,
    ctxDone: bool, abandoned: bool, cleanupDone: bool,
    connected: bool, returned: bool, discarded: bool, releases: nat,
    got: int, checked: bool, seen: set<int>, slots: set<int>, transfers: set<int>)

  // Reservations in the order of their atomic adds, and the counters.
  datatype State = State(dials: seq<Dial>, inflight: seq<int>, active: seq<int>, pending: int)

  datatype Act =
    | CtxEnds
    | FindNoClient | Spawn | GiveBackRefused
    | DialReturns(ok: bool) | Look | Hand | DialerCtx | DialerLock | Discard | Uncount | DialerRelease
    | CallerCtx | CallerLock | CallerRelease | CountActive | CloseConn | UncountActive

  datatype Step = Reserve(sc: nat) | Check(dial: nat) | Move(dial: nat, act: Act)

  // What an act adds to the inflight, active and pending counters.
  datatype Effect = Effect(inflight: int, active: int, pending: int)

  const NOTHING := Effect(0, 0, 0)

  predicate Enabled(d: Dial, act: Act) {
    match act
    case CtxEnds => !d.ctxDone
    case FindNoClient => d.caller == Validated
    case Spawn => d.caller == Validated
    case GiveBackRefused => d.caller == Refused
    case DialReturns(_) => d.dialer == Dialing
    case Look => d.dialer == Dialed
    case Hand => d.dialer == Offering && d.caller == Waiting
    case DialerCtx => d.dialer == Offering && d.ctxDone
    case DialerLock => d.dialer == CtxTaken
    case Discard => d.dialer.Cleanup?
    case Uncount => d.dialer.Discarded?
    case DialerRelease => d.dialer == Releasing
    case CallerCtx => d.caller == Waiting && d.ctxDone
    case CallerLock => d.caller == TimedOut
    case CallerRelease => d.caller.Received?
    case CountActive => d.caller == Between
    case CloseConn => d.caller == Owner
    case UncountActive => d.caller == Closing
  }

  function After(d: Dial, act: Act): Dial
    requires Enabled(d, act)
  {
    match act
    case CtxEnds => d.(ctxDone := true)
    case FindNoClient => d.(caller := Refused)
    case Spawn => d.(caller := Waiting, dialer := Dialing)
    case GiveBackRefused => d.(caller := Left, releases := d.releases + 1)
    case DialReturns(ok) => d.(dialer := Dialed, connected := ok)
    case Look => d.(dialer := if d.abandoned then Cleanup(true) else Offering)
    case Hand => d.(dialer := Ended, caller := Received(d.connected))
    case DialerCtx => d.(dialer := CtxTaken)
    case DialerLock => d.(dialer := Cleanup(d.abandoned), cleanupDone := true)
    case Discard => d.(dialer := Discarded(d.dialer.timedOut), discarded := d.connected)
    case Uncount => d.(dialer := Releasing)
    case DialerRelease => d.(dialer := Ended, releases := d.releases + 1)
    case CallerCtx => d.(caller := TimedOut)
    case CallerLock => d.(caller := Left, abandoned := d.abandoned || !d.cleanupDone)
    case CallerRelease => d.(caller := if d.caller.ok then Between else Left, releases := d.releases + 1)
    case CountActive => d.(caller := Owner, returned := true)
    case CloseConn => d.(caller := Closing)
    case UncountActive => d.(caller := Left)
  }

  function EffectOf(d: Dial, act: Act): Effect
    requires Enabled(d, act)
  {
    match act
    case GiveBackRefused => Effect(-1, 0, 0)
    case DialerRelease => Effect(-1, 0, 0)
    case CallerRelease => Effect(-1, 0, 0)
    case Uncount => Effect(0, 0, if d.dialer.timedOut then -1 else 0)
    case CallerLock => Effect(0, 0, if d.cleanupDone then 0 else 1)
    case CountActive => Effect(0, 1, 0)
    case UncountActive => Effect(0, -1, 0)
    case _ => NOTHING
  }

  function Init(conns: nat): State {
    State([], seq(conns, _ => 0), seq(conns, _ => 0), 0)
  }

  // ----- sets of reservations -----

  datatype Kind =
    | Holders(sc: nat) | Transfers(sc: nat) | Counted(sc: nat) | Live(sc: nat) | Undecided(sc: nat) | Abandoned

  predicate Holding(d: Dial) {
    d.releases == 0
  }

  predicate IsLive(d: Dial) {
    || (Holding(d) && d.caller != Reserved && d.caller != Refused)
    || d.caller == Between || d.caller == Owner || d.caller == Closing
  }

  predicate IsCounted(d: Dial) {
    d.caller == Owner || d.caller == Closing
  }

  predicate IsAbandoned(d: Dial) {
    d.abandoned && d.dialer != Releasing && d.dialer != Ended
  }

  predicate Belongs(d: Dial, k: Kind) {
    match k
    case Holders(c) => d.sc == c && Holding(d)
    case Transfers(c) => d.sc == c && d.caller == Between
    case Counted(c) => d.sc == c && IsCounted(d)
    case Live(c) => d.sc == c && IsLive(d)
    case Undecided(c) => d.sc == c && Holding(d) && (d.caller == Reserved || d.caller == Refused)
    case Abandoned => IsAbandoned(d)
  }

  function Those(dials: seq<Dial>, k: Kind): set<int> {
    set r | 0 <= r < |dials| && Belongs(dials[r], k)
  }

  function NewDial(c: nat, got: int, seen: set<int>): Dial {
    Dial(c, Reserved, Idle, false, false, false, false, false, false, 0, got, false, seen, {}, {})
  }

  function Reserving(s: State, c: nat): State
    requires c < |s.inflight|
  {
    var got := s.inflight[c] + 1;
    State(s.dials + [NewDial(c, got, Those(s.dials, Holders(c)) + {|s.dials|})],
          s.inflight[c := got], s.active, s.pending)
  }

  function Moving(s: State, r: nat, act: Act): State
    requires r < |s.dials| && Enabled(s.dials[r], act)
    requires s.dials[r].sc < |s.active| && s.dials[r].sc < |s.inflight|
  {
    var d := s.dials[r];
    var e := EffectOf(d, act);
    State(s.dials[r := After(d, act)],
          s.inflight[d.sc := s.inflight[d.sc] + e.inflight],
          s.active[d.sc := s.active[d.sc] + e.active],
          s.pending + e.pending)
  }

  function Checked(s: State, d: Dial): Dial
    requires d.sc < |s.active|
  {
    if s.active[d.sc] + d.got > MAX_CHANNELS_PER_CONN then d.(caller := Refused)
    else
      var t := Those(s.dials, Transfers(d.sc));
      d.(caller := Validated, checked := true, transfers := t,
         slots := d.seen + Those(s.dials, Counted(d.sc)) + t)
  }

  function Next(s: State, step: Step): State {
    match step
    case Reserve(c) =>
      if c < |s.inflight| then Reserving(s, c) else s
    case Check(r) =>
      if r < |s.dials| && s.dials[r].caller == Reserved && s.dials[r].sc < |s.active|
      then s.(dials := s.dials[r := Checked(s, s.dials[r])])
      else s
    case Move(r, act) =>
      if r < |s.dials| && Enabled(s.dials[r], act) && s.dials[r].sc < |s.active| && s.dials[r].sc < |s.inflight|
      then Moving(s, r, act)
      else s
  }

  function Run(s: State, steps: seq<Step>): State {
    if steps == [] then s else Next(Run(s, steps[..|steps| - 1]), steps[|steps| - 1])
  }

  lemma SameRest(dials: seq<Dial>, r: nat, d: Dial, k: Kind)
    requires r < |dials|
    ensures Those(dials[r := d], k) - {r} == Those(dials, k) - {r}
  {
    hide Belongs;
    var after := dials[r := d];
    forall i: int ensures i in Those(after, k) - {r} <==> i in Those(dials, k) - {r} {
      if 0 <= i < |dials| && i != r {
        assert after[i] == dials[i];
      }
    }
  }

  lemma Without(a: set<int>, r: int)
    ensures |a| == |a - {r}| + (if r in a then 1 else 0)
  {
    if r in a {
      assert a == a - {r} + {r};
    } else {
      assert a == a - {r};
    }
  }

  lemma Cardinality(dials: seq<Dial>, r: nat, d: Dial, k: Kind)
    requires r < |dials|
    ensures |Those(dials[r := d], k)| + (if Belongs(dials[r], k) then 1 else 0)
         == |Those(dials, k)| + (if Belongs(d, k) then 1 else 0)
  {
    hide Belongs;
    var a, b := Those(dials, k), Those(dials[r := d], k);
    assert r in a <==> Belongs(dials[r], k);
    assert r in b <==> Belongs(d, k);
    SameRest(dials, r, d, k);
    hide Those;
    Without(a, r);
    Without(b, r);
  }

  lemma OneMore(dials: seq<Dial>, d: Dial, k: Kind)
    ensures Those(dials + [d], k) == Those(dials, k) + (if Belongs(d, k) then {|dials|} else {})
    ensures |Those(dials + [d], k)| == |Those(dials, k)| + (if Belongs(d, k) then 1 else 0)
  {
    hide Belongs;
    var b := Those(dials + [d], k);
    assert b == Those(dials, k) + (if Belongs(d, k) then {|dials|} else {});
    assert b - {|dials|} == Those(dials, k);
    Without(b, |dials|);
  }

  // ----- the invariant -----

  // The goroutine has not been started.
  predicate Early(caller: Caller) {
    caller == Reserved || caller == Refused || caller == Validated
  }

  // The dialer is through: it has handed its result over or cleaned up.
  predicate Over(d: Dial) {
    match d.caller
    case Received(ok) => d.releases == 0 && ok == d.connected && !d.returned && !d.discarded && !d.abandoned
    case Between => d.releases == 1 && d.connected && !d.returned && !d.discarded && !d.abandoned
    case Owner => d.releases == 1 && d.connected && d.returned && !d.discarded && !d.abandoned
    case Closing => d.releases == 1 && d.connected && d.returned && !d.discarded && !d.abandoned
    case Left => d.releases == 1 && d.connected == (d.returned || d.discarded) && !(d.returned && d.discarded)
    case _ => d.releases == 1 && d.discarded == d.connected && !d.returned && d.cleanupDone
  }

  // One reservation's own story: which of the two goroutines has the slot and the channel.
  predicate Sound(d: Dial) {
    && d.releases <= 1
    && (Early(d.caller) ==>
          && d.dialer == Idle && d.releases == 0 && !d.connected && !d.returned && !d.discarded
          && !d.abandoned && !d.cleanupDone)
    && (d.dialer == Idle && !Early(d.caller) ==>
          d.caller == Left && d.releases == 1 && !d.connected && !d.returned && !d.discarded && !d.abandoned)
    && (d.dialer != Idle && d.dialer != Ended ==>
          && d.releases == 0 && !d.returned
          && (d.caller == Waiting || d.caller == TimedOut || (d.caller == Left && (d.abandoned || d.cleanupDone))))
    && (d.dialer == Dialing ==> !d.connected)
    && (d.dialer == Dialing || d.dialer == Dialed || d.dialer == Offering || d.dialer == CtxTaken ==>
          !d.discarded && !d.cleanupDone)
    && (d.dialer == CtxTaken ==> d.ctxDone)
    && (d.dialer.Cleanup? ==> !d.discarded && d.dialer.timedOut == d.abandoned && (d.abandoned || d.cleanupDone))
    && (d.dialer.Discarded? ==>
          d.discarded == d.connected && d.dialer.timedOut == d.abandoned && (d.abandoned || d.cleanupDone))
    && (d.dialer == Releasing ==> d.discarded == d.connected && (d.abandoned || d.cleanupDone))
    && (d.abandoned ==> d.caller == Left && d.ctxDone)
    && (d.cleanupDone ==> d.ctxDone)
    && (d.caller == TimedOut ==> d.ctxDone)
    && (d.dialer == Ended ==> Over(d))
  }

  ghost predicate AllSound(s: State) {
    && |s.active| == |s.inflight|
    && forall r :: 0 <= r < |s.dials| ==> Sound(s.dials[r]) && s.dials[r].sc < |s.inflight|
  }

  ghost predicate CountsMatch(s: State) {
    && |s.active| == |s.inflight|
    && (forall c: nat :: c < |s.inflight| ==> s.inflight[c] == |Those(s.dials, Holders(c))|)
    && (forall c: nat :: c < |s.inflight| ==> s.active[c] == |Those(s.dials, Counted(c))|)
    && s.pending == |Those(s.dials, Abandoned)|
  }

  // What reservation d knows about an earlier one, r: it saw r's slot if r still holds it,
  // and if d's check has passed it accounted for r if r is live.
  predicate Saw(d: Dial, r: int, e: Dial) {
    && (Holding(e) ==> r in d.seen)
    && (d.checked && IsLive(e) ==> r in d.slots)
  }

  predicate TicketOf(d: Dial) {
    && |d.seen| == d.got
    && (IsLive(d) ==> d.checked)
    && (d.caller == Reserved ==> !d.checked)
    && (d.checked ==> d.seen <= d.slots && |d.slots| <= MAX_CHANNELS_PER_CONN + |d.transfers|)
  }

  ghost predicate Tickets(s: State) {
    && (forall i :: 0 <= i < |s.dials| ==> TicketOf(s.dials[i]))
    && (forall i, r :: 0 <= r <= i < |s.dials| && s.dials[r].sc == s.dials[i].sc ==> Saw(s.dials[i], r, s.dials[r]))
  }

  ghost predicate Inv(s: State) {
    AllSound(s) && CountsMatch(s) && Tickets(s)
  }

  lemma InitInv(conns: nat)
    ensures Inv(Init(conns))
  {
    var s := Init(conns);
    forall k: Kind ensures Those(s.dials, k) == {} {}
  }

  lemma SoundAfter(d: Dial, act: Act)
    requires Sound(d) && Enabled(d, act)
    ensures Sound(After(d, act))
  {
  }

  // e is exactly how the counted sets change when d becomes d'.
  predicate Tallies(d: Dial, d': Dial, e: Effect) {
    && d'.sc == d.sc
    && Bit(Holding(d')) - Bit(Holding(d)) == e.inflight
    && Bit(IsCounted(d')) - Bit(IsCounted(d)) == e.active
    && Bit(IsAbandoned(d')) - Bit(IsAbandoned(d)) == e.pending
  }

  // Each counter moves exactly when the set it counts does.
  lemma EffectTallies(d: Dial, act: Act)
    requires Sound(d) && Enabled(d, act)
    ensures Tallies(d, After(d, act), EffectOf(d, act))
  {
  }

  // No slot or channel comes back to life.
  predicate Fades(d: Dial, d': Dial) {
    && d'.sc == d.sc && d'.got == d.got && d'.checked == d.checked
    && d'.seen == d.seen && d'.slots == d.slots && d'.transfers == d.transfers
    && (Holding(d') ==> Holding(d))
    && (IsLive(d') ==> IsLive(d))
    && (d'.caller == Reserved ==> d.caller == Reserved)
  }

  lemma ActFades(d: Dial, act: Act)
    requires Sound(d) && Enabled(d, act)
    ensures Fades(d, After(d, act))
  {
  }

  lemma Recount(s: State, s': State, r: nat, d: Dial, d': Dial, e: Effect)
    requires CountsMatch(s) && r < |s.dials| && d == s.dials[r] && d.sc < |s.inflight|
    requires Tallies(d, d', e)
    requires s'.dials == s.dials[r := d']
    requires s'.inflight == s.inflight[d.sc := s.inflight[d.sc] + e.inflight]
    requires s'.active == s.active[d.sc := s.active[d.sc] + e.active]
    requires s'.pending == s.pending + e.pending
    ensures CountsMatch(s')
  {
    hide Those, Holding, IsCounted, IsAbandoned;
    Cardinality(s.dials, r, d', Abandoned);
    forall c: nat | c < |s.inflight|
      ensures s'.inflight[c] == |Those(s'.dials, Holders(c))| && s'.active[c] == |Those(s'.dials, Counted(c))|
    {
      Cardinality(s.dials, r, d', Holders(c));
      Cardinality(s.dials, r, d', Counted(c));
    }
  }

  lemma FadingKeepsTickets(s: State, s': State, r: nat, d': Dial)
    requires Tickets(s) && r < |s.dials| && Fades(s.dials[r], d')
    requires s'.dials == s.dials[r := d']
    ensures Tickets(s')
  {
    hide Holding, IsLive;
  }

  lemma MoveKeeps(s: State, r: nat, act: Act)
    requires Inv(s) && r < |s.dials| && Enabled(s.dials[r], act)
    ensures Inv(Next(s, Move(r, act)))
  {
    var d := s.dials[r];
    var d' := After(d, act);
    var s' := Next(s, Move(r, act));
    SoundAfter(d, act);
    EffectTallies(d, act);
    ActFades(d, act);
    hide Sound, After, EffectOf, Enabled, CountsMatch, Tickets;
    assert s'.dials == s.dials[r := d'];
    assert AllSound(s') by {
      hide Tallies, Fades;
    }
    Recount(s, s', r, d, d', EffectOf(d, act));
    FadingKeepsTickets(s, s', r, d');
  }

  lemma ReserveCounts(s: State, c: nat, d: Dial)
    requires CountsMatch(s) && c < |s.inflight|
    requires d.sc == c && Holding(d) && !IsCounted(d) && !IsAbandoned(d)
    ensures CountsMatch(State(s.dials + [d], s.inflight[c := s.inflight[c] + 1], s.active, s.pending))
  {
    assert forall k :: (Belongs(d, Holders(k)) <==> k == c) && !Belongs(d, Counted(k));
    assert !Belongs(d, Abandoned);
    hide Those, Belongs, Holding, IsCounted, IsAbandoned;
    var s' := State(s.dials + [d], s.inflight[c := s.inflight[c] + 1], s.active, s.pending);
    OneMore(s.dials, d, Abandoned);
    forall k: nat | k < |s.inflight|
      ensures s'.inflight[k] == |Those(s'.dials, Holders(k))| && s'.active[k] == |Those(s'.dials, Counted(k))|
    {
      OneMore(s.dials, d, Holders(k));
      OneMore(s.dials, d, Counted(k));
    }
  }

  lemma ReserveTickets(s: State, s': State, d: Dial)
    requires Tickets(s) && s'.dials == s.dials + [d]
    requires d.caller == Reserved && d.releases == 0 && !d.checked
    requires d.seen == Those(s'.dials, Holders(d.sc)) && d.got == |d.seen|
    ensures Tickets(s')
  {
  }

  lemma ReserveKeeps(s: State, c: nat)
    requires Inv(s) && c < |s.inflight|
    ensures Inv(Next(s, Reserve(c)))
  {
    var s' := Next(s, Reserve(c));
    var d := s'.dials[|s.dials|];
    assert s'.dials == s.dials + [d];
    OneMore(s.dials, d, Holders(c));
    ReserveCounts(s, c, d);
    assert Sound(d);
    assert |Those(s.dials, Holders(c))| == s.inflight[c];
    hide Sound, CountsMatch, Tickets;
    assert AllSound(s');
    ReserveTickets(s, s', d);
  }

  lemma UnionSize(a: set<int>, b: set<int>, c: set<int>)
    ensures |a + b + c| <= |a| + |b| + |c|
  {
  }

  lemma CheckedTicket(s: State, d: Dial)
    requires d.sc < |s.active| && s.active[d.sc] == |Those(s.dials, Counted(d.sc))|
    requires TicketOf(d) && d.caller == Reserved && Sound(d)
    ensures TicketOf(Checked(s, d)) && Checked(s, d).sc == d.sc && !d.checked && Holding(d)
  {
    UnionSize(d.seen, Those(s.dials, Counted(d.sc)), Those(s.dials, Transfers(d.sc)));
  }

  // Whoever is live at the check is accounted for.
  lemma CheckedSaw(s: State, d: Dial, r: int)
    requires d.sc < |s.active| && 0 <= r < |s.dials| && s.dials[r].sc == d.sc
    requires Saw(d, r, s.dials[r]) && d.caller == Reserved && !d.checked
    ensures Saw(Checked(s, d), r, s.dials[r])
  {
    var e := s.dials[r];
    if IsLive(e) {
      assert Holding(e) || Belongs(e, Counted(d.sc)) || Belongs(e, Transfers(d.sc));
    }
  }

  // A reservation that passes its check is already in the account of every later one.
  lemma SawChecked(s: State, d: Dial, later: Dial, r: int)
    requires d.sc < |s.active| && Holding(d) && TicketOf(later) && Saw(later, r, d)
    ensures Saw(later, r, Checked(s, d))
  {
  }

  lemma CheckTickets(s: State, s': State, r: nat, d: Dial, d': Dial)
    requires AllSound(s) && CountsMatch(s) && Tickets(s) && r < |s.dials| && s.dials[r] == d && d.caller == Reserved
    requires d' == Checked(s, d) && s'.dials == s.dials[r := d']
    ensures Tickets(s')
  {
    assert Sound(d) && TicketOf(d);
    CheckedTicket(s, d);
    hide TicketOf, Saw, Checked, Sound;
    forall i, q | 0 <= q <= i < |s'.dials| && s'.dials[q].sc == s'.dials[i].sc
      ensures Saw(s'.dials[i], q, s'.dials[q])
    {
      assert Saw(s.dials[i], q, s.dials[q]);
      if i == r {
        CheckedSaw(s, d, q);
      }
      if q == r {
        SawChecked(s, d, s'.dials[i], r);
      }
    }
  }

  lemma CheckedIs(s: State, d: Dial)
    requires d.sc < |s.active| && Sound(d) && d.caller == Reserved
    ensures Sound(Checked(s, d)) && Tallies(d, Checked(s, d), NOTHING)
  {
    hide Those;
  }

  lemma TalliesKeepsConn(d: Dial, d': Dial, e: Effect)
    requires Tallies(d, d', e)
    ensures d'.sc == d.sc
  {
  }

  lemma CheckKeeps(s: State, r: nat)
    requires Inv(s) && r < |s.dials| && s.dials[r].caller == Reserved
    ensures Inv(Next(s, Check(r)))
  {
    hide Sound, Checked, Tallies, CountsMatch, Tickets;
    var d := s.dials[r];
    var d' := Checked(s, d);
    var s' := Next(s, Check(r));
    CheckedIs(s, d);
    assert s' == s.(dials := s.dials[r := d']);
    TalliesKeepsConn(d, d', NOTHING);
    assert AllSound(s');
    CheckTickets(s, s', r, d, d');
    Recount(s, s', r, d, d', NOTHING);
  }

  lemma NextKeeps(s: State, step: Step)
    requires Inv(s)
    ensures Inv(Next(s, step))
  {
    hide Inv, Enabled, After, EffectOf, Checked;
    match step {
      case Reserve(c) =>
        if c < |s.inflight| {
          ReserveKeeps(s, c);
        }
      case Check(r) =>
        if r < |s.dials| && s.dials[r].caller == Reserved {
          CheckKeeps(s, r);
        }
      case Move(r, act) =>
        if r < |s.dials| && Enabled(s.dials[r], act) {
          MoveKeeps(s, r, act);
        }
    }
  }

  lemma {:induction false} RunKeeps(s: State, steps: seq<Step>)
    requires Inv(s)
    ensures Inv(Run(s, steps))
  {
    hide Inv, Next;
    if steps == [] {
    } else {
      RunKeeps(s, steps[..|steps| - 1]);
      NextKeeps(Run(s, steps[..|steps| - 1]), steps[|steps| - 1]);
    }
  }

  // ----- what holds in every run -----

  // The dial is over for both goroutines; Owner still has the channel it was given.
  predicate Settled(d: Dial) {
    && (d.dialer == Idle || d.dialer == Ended)
    && (d.caller == Left || d.caller == Owner || d.caller == Closing)
  }

  // A slot is given back at most once and a channel has at most one fate; when the dial has
  // settled the slot was given back exactly once and the channel, if there is one, was
  // either returned to the caller or discarded.
  lemma HandOff(conns: nat, steps: seq<Step>, r: nat)
    requires r < |Run(Init(conns), steps).dials|
    ensures var d := Run(Init(conns), steps).dials[r];
            && d.releases <= 1 && !(d.returned && d.discarded)
            && (d.returned || d.discarded ==> d.connected)
            && (Settled(d) ==> d.releases == 1 && d.connected == (d.returned || d.discarded))
  {
    InitInv(conns);
    RunKeeps(Init(conns), steps);
    assert Sound(Run(Init(conns), steps).dials[r]);
    hide Run;
  }

  // Every counter is the size of the set it stands for; in particular none is negative.
  lemma CountersExact(conns: nat, steps: seq<Step>)
    ensures var s := Run(Init(conns), steps);
            && s.pending == |Those(s.dials, Abandoned)|
            && |s.inflight| == |s.active|
            && forall c: nat :: c < |s.inflight| ==>
                 s.inflight[c] == |Those(s.dials, Holders(c))| && s.active[c] == |Those(s.dials, Counted(c))|
  {
    InitInv(conns);
    RunKeeps(Init(conns), steps);
  }

  // The check of the newest live dial accounted for every live slot.
  lemma NewestKnowsAll(s: State, c: nat, g: int)
    requires Tickets(s) && IsGreatest(g, Those(s.dials, Live(c)))
    ensures 0 <= g < |s.dials| && Those(s.dials, Live(c)) <= s.dials[g].slots
    ensures |s.dials[g].slots| <= 4 + |s.dials[g].transfers|
  {
    var d := s.dials[g];
    assert TicketOf(d) && IsLive(d);
    forall r | r in Those(s.dials, Live(c)) ensures r in d.slots {
      assert Saw(d, r, s.dials[r]);
    }
  }

  // Live slots on a connection exceed the limit by no more than the transfers that were
  // half done when the newest live dial made its check.
  lemma SlotBound(conns: nat, steps: seq<Step>, c: nat)
    ensures var s := Run(Init(conns), steps);
            var live := Those(s.dials, Live(c));
            live == {} || exists g :: IsGreatest(g, live) && 0 <= g < |s.dials|
                                      && |live| <= 4 + |s.dials[g].transfers|
  {
    InitInv(conns);
    RunKeeps(Init(conns), steps);
    hide Run, Those, AllSound, CountsMatch, Tickets;
    var s := Run(Init(conns), steps);
    var live := Those(s.dials, Live(c));
    if live != {} {
      var g := Greatest(live);
      NewestKnowsAll(s, c, g);
      SubsetSize(live, s.dials[g].slots);
    }
  }

  // Passing the check makes a reservation live; before it is not.
  lemma CheckMakesLive(s: State, d: Dial)
    requires d.sc < |s.active| && Sound(d) && d.caller == Reserved
    ensures !Belongs(d, Live(d.sc))
    ensures Belongs(Checked(s, d), Live(d.sc)) <==> s.active[d.sc] + d.got <= 4
  {
    hide Those;
  }

  // A slot given back is not held, and a transfer or a counted channel has given it back.
  predicate Apart(d: Dial) {
    Holding(d) ==> d.caller != Between && !IsCounted(d)
  }

  lemma SoundApart(d: Dial)
    requires Sound(d)
    ensures Apart(d)
  {
  }

  lemma LiveSplit(s: State, c: nat)
    requires AllSound(s)
    ensures |Those(s.dials, Live(c))| + |Those(s.dials, Undecided(c))|
         == |Those(s.dials, Holders(c))| + |Those(s.dials, Transfers(c))| + |Those(s.dials, Counted(c))|
  {
    forall r | 0 <= r < |s.dials| ensures Apart(s.dials[r]) {
      SoundApart(s.dials[r]);
    }
    hide Sound;
    var live, undecided := Those(s.dials, Live(c)), Those(s.dials, Undecided(c));
    var holders, transfers := Those(s.dials, Holders(c)), Those(s.dials, Transfers(c));
    var counted := Those(s.dials, Counted(c));
    assert live + undecided == holders + transfers + counted;
    assert live !! undecided && holders !! transfers && (holders + transfers) !! counted;
  }

  // The check admits against two counters and misses the transfers half done: on a
  // connection within the limit it admits a dial too many exactly when its own test passes
  // although both counters, the transfers added and the undecided reservations taken off,
  // already make four.
  lemma OverAdmitsExactly(conns: nat, steps: seq<Step>, r: nat)
    requires var s := Run(Init(conns), steps);
             && r < |s.dials| && s.dials[r].caller == Reserved
             && |Those(s.dials, Live(s.dials[r].sc))| <= 4
    ensures var s := Run(Init(conns), steps);
            var d := s.dials[r];
            && d.sc < |s.active| && d.sc < |s.inflight|
            && (|Those(Next(s, Check(r)).dials, Live(d.sc))| > 4 <==>
                && s.active[d.sc] + d.got <= 4
                && s.active[d.sc] + s.inflight[d.sc] + |Those(s.dials, Transfers(d.sc))|
                   - |Those(s.dials, Undecided(d.sc))| >= 4)
  {
    InitInv(conns);
    RunKeeps(Init(conns), steps);
    var s := Run(Init(conns), steps);
    var d := s.dials[r];
    assert Sound(d) && d.sc < |s.inflight|;
    var d' := Checked(s, d);
    CheckMakesLive(s, d);
    hide Run, Init, Tickets, Sound;
    LiveSplit(s, d.sc);
    assert Next(s, Check(r)).dials == s.dials[r := d'];
    Cardinality(s.dials, r, d', Live(d.sc));
  }

  // ----- the transfer as one step -----

  // Giving the inflight slot back is always followed at once by counting the channel.
  ghost predicate Fused(steps: seq<Step>) {
    forall i, r :: 0 <= i < |steps| - 1 && steps[i] == Move(r, CallerRelease) ==> steps[i + 1] == Move(r, CountActive)
  }

  ghost predicate NoneBetweenBut(s: State, steps: seq<Step>) {
    forall i :: 0 <= i < |s.dials| && s.dials[i].caller == Between ==>
      steps != [] && steps[|steps| - 1] == Move(i, CallerRelease)
  }

  ghost predicate NoTransfersSeen(s: State) {
    forall i :: 0 <= i < |s.dials| ==> s.dials[i].transfers == {}
  }

  lemma BetweenAct(d: Dial, act: Act)
    requires Enabled(d, act)
    ensures After(d, act).caller == Between ==> act == CallerRelease || (d.caller == Between && act != CountActive)
    ensures After(d, act).transfers == d.transfers
    ensures act == CountActive ==> After(d, act).caller != Between
  {
  }

  lemma CheckedPlain(s: State, d: Dial)
    requires d.sc < |s.active|
    ensures Checked(s, d).caller != Between
    ensures Those(s.dials, Transfers(d.sc)) == {} && d.transfers == {} ==> Checked(s, d).transfers == {}
  {
    hide Those;
  }

  lemma EnabledCount(d: Dial)
    ensures Enabled(d, CountActive) <==> d.caller == Between
  {
  }

  lemma BetweenStep(s: State, step: Step, i: nat)
    requires AllSound(s) && i < |Next(s, step).dials| && Next(s, step).dials[i].caller == Between
    ensures || step == Move(i, CallerRelease)
            || (i < |s.dials| && s.dials[i].caller == Between && step != Move(i, CountActive))
  {
    hide Sound, Checked, Those, Enabled, After, EffectOf;
    match step {
      case Reserve(c) =>
      case Check(r) =>
        if r < |s.dials| {
          CheckedPlain(s, s.dials[r]);
        }
      case Move(r, act) =>
        if r < |s.dials| && Enabled(s.dials[r], act) {
          BetweenAct(s.dials[r], act);
          EnabledCount(s.dials[r]);
        }
    }
    if i < |s.dials| {
      EnabledCount(s.dials[i]);
    }
  }

  lemma TransfersStep(s: State, step: Step)
    requires AllSound(s) && NoTransfersSeen(s)
    requires step.Check? ==> forall i :: 0 <= i < |s.dials| ==> s.dials[i].caller != Between
    ensures NoTransfersSeen(Next(s, step))
  {
    match step {
      case Reserve(c) =>
        hide Those;
      case Check(r) =>
        if r < |s.dials| {
          assert Those(s.dials, Transfers(s.dials[r].sc)) == {};
          CheckedPlain(s, s.dials[r]);
        }
        hide Those, Checked;
      case Move(r, act) =>
        if r < |s.dials| && Enabled(s.dials[r], act) {
          BetweenAct(s.dials[r], act);
        }
        hide Enabled, After, EffectOf;
    }
  }

  lemma FusedNext(s: State, before: seq<Step>, step: Step)
    requires AllSound(s) && NoneBetweenBut(s, before) && NoTransfersSeen(s) && Fused(before + [step])
    ensures NoneBetweenBut(Next(s, step), before + [step]) && NoTransfersSeen(Next(s, step))
  {
    hide Next;
    var steps := before + [step];
    forall i: nat | i < |s.dials| && s.dials[i].caller == Between ensures step == Move(i, CountActive) {
      assert steps[|before| - 1] == Move(i, CallerRelease) && steps[|before|] == step;
    }
    TransfersStep(s, step);
    forall i: nat | i < |Next(s, step).dials| && Next(s, step).dials[i].caller == Between
      ensures step == Move(i, CallerRelease)
    {
      BetweenStep(s, step, i);
    }
  }

  lemma FusedPrefix(before: seq<Step>, step: Step)
    requires Fused(before + [step])
    ensures Fused(before)
  {
    assert forall i :: 0 <= i < |before| ==> before[i] == (before + [step])[i];
  }

  lemma {:induction false} FusedRun(conns: nat, steps: seq<Step>)
    requires Fused(steps)
    ensures NoneBetweenBut(Run(Init(conns), steps), steps) && NoTransfersSeen(Run(Init(conns), steps))
  {
    if steps == [] {
    } else {
      hide Next, NoneBetweenBut, NoTransfersSeen, AllSound, CountsMatch, Tickets;
      var before := steps[..|steps| - 1];
      assert before + [steps[|steps| - 1]] == steps;
      FusedPrefix(before, steps[|steps| - 1]);
      hide Fused;
      FusedRun(conns, before);
      InitInv(conns);
      RunKeeps(Init(conns), before);
      FusedNext(Run(Init(conns), before), before, steps[|steps| - 1]);
    }
  }

  // Then no connection ever has more than four live slots.
  lemma FusedSlotBound(conns: nat, steps: seq<Step>, c: nat)
    requires Fused(steps)
    ensures |Those(Run(Init(conns), steps).dials, Live(c))| <= 4
  {
    hide Run, Those, Fused;
    FusedRun(conns, steps);
    SlotBound(conns, steps, c);
  }

  // ----- every dial can finish -----

  function CallerRank(c: Caller): nat {
    match c
    case Reserved => 21
    case Validated => 20
    case Waiting => 6
    case TimedOut => 5
    case Received(_) => 4
    case Between => 3
    case Owner => 2
    case Closing => 1
    case Refused => 1
    case Left => 0
  }

  function DialerRank(d: Dialer): nat {
    match d
    case Dialing => 8
    case Dialed => 7
    case Offering => 6
    case CtxTaken => 5
    case Cleanup(_) => 4
    case Discarded(_) => 3
    case Releasing => 2
    case _ => 0
  }

  // What one of the dial's own goroutines can do next; ok is what the SSH dial returns.
  function Onward(d: Dial, ok: bool): Act {
    match d.caller
    case Validated => Spawn
    case Refused => GiveBackRefused
    case Received(_) => CallerRelease
    case Between => CountActive
    case TimedOut => CallerLock
    case _ =>
      match d.dialer
      case Dialing => DialReturns(ok)
      case Dialed => Look
      case Offering => if d.caller == Waiting then Hand else DialerCtx
      case CtxTaken => DialerLock
      case Cleanup(_) => Discard
      case Discarded(_) => Uncount
      case Releasing => DialerRelease
      case _ => CallerCtx
  }

  function Rank(d: Dial): nat {
    CallerRank(d.caller) + DialerRank(d.dialer)
  }

  lemma OnwardWorks(d: Dial, ok: bool)
    requires Sound(d) && !Settled(d) && d.caller != Reserved
    ensures Enabled(d, Onward(d, ok))
    ensures Rank(After(d, Onward(d, ok))) < Rank(d)
  {
  }

  function OnwardStep(d: Dial, r: nat, ok: bool): Step {
    if d.caller == Reserved then Check(r) else Move(r, Onward(d, ok))
  }

  lemma RankFalls(s: State, r: nat, ok: bool)
    requires AllSound(s) && r < |s.dials| && !Settled(s.dials[r])
    ensures var s' := Next(s, OnwardStep(s.dials[r], r, ok));
            r < |s'.dials| && Rank(s'.dials[r]) < Rank(s.dials[r])
  {
    var d := s.dials[r];
    assert Sound(d);
    if d.caller != Reserved {
      OnwardWorks(d, ok);
      hide Sound, Enabled, After, Rank, Onward;
    }
  }

  // From every reachable state its own two goroutines can finish any dial, whether or not
  // the SSH dial succeeds and without waiting for the context to end.
  lemma {:induction false} CanFinish(conns: nat, steps: seq<Step>, r: nat, ok: bool) returns (more: seq<Step>)
    requires r < |Run(Init(conns), steps).dials|
    ensures forall m :: m in more ==>
              m == Check(r) || (m.Move? && m.dial == r && m.act != CtxEnds && m.act != DialReturns(!ok))
    ensures r < |Run(Init(conns), steps + more).dials| && Settled(Run(Init(conns), steps + more).dials[r])
    decreases Rank(Run(Init(conns), steps).dials[r])
  {
    hide Next, Sound, Rank, Settled, CountsMatch, Tickets;
    var s := Run(Init(conns), steps);
    var d := s.dials[r];
    if Settled(d) {
      more := [];
      assert steps + more == steps;
    } else {
      InitInv(conns);
      RunKeeps(Init(conns), steps);
      var step := OnwardStep(d, r, ok);
      RankFalls(s, r, ok);
      assert (steps + [step])[..|steps|] == steps;
      var rest := CanFinish(conns, steps + [step], r, ok);
      more := [step] + rest;
      assert steps + more == steps + [step] + rest;
    }
  }

  // ----- the limit is passed when the transfer takes two steps -----

  lemma RunSnoc(s: State, steps: seq<Step>, step: Step)
    ensures Run(s, steps + [step]) == Next(Run(s, steps), step)
  {
    assert (steps + [step])[..|steps|] == steps;
  }

  // n dials on the one connection between giving the inflight slot back and counting the
  // channel, both counters at rest, and after them the dial d.
  ghost predicate Stage(s: State, n: nat, inflight: int, d: Dial) {
    && s.inflight == [inflight] && s.active == [0] && |s.dials| == n + 1
    && (forall i :: 0 <= i < n ==> s.dials[i].sc == 0 && s.dials[i].caller == Between)
    && s.dials[n] == d
  }

  ghost predicate AllBetween(s: State, n: nat) {
    && s.inflight == [0] && s.active == [0] && |s.dials| == n
    && forall i :: 0 <= i < n ==> s.dials[i].sc == 0 && s.dials[i].caller == Between
  }

  predicate Fresh(d: Dial) {
    d.sc == 0 && d.caller == Validated && d.dialer == Idle && d.releases == 0 && !d.abandoned
  }

  // The counters show nothing, so the next dial is admitted.
  lemma Admitted(s: State, n: nat) returns (d: Dial)
    requires AllBetween(s, n)
    ensures Stage(Next(Next(s, Reserve(0)), Check(n)), n, 1, d) && Fresh(d)
  {
    var s1 := Next(s, Reserve(0));
    var d1 := NewDial(0, 1, Those(s.dials, Holders(0)) + {n});
    assert s1 == State(s.dials + [d1], [1], [0], s.pending);
    d := Checked(s1, d1);
    assert Fresh(d);
    hide NewDial, Checked, Those, Fresh;
    var s2 := Next(s1, Check(n));
    assert s1.dials[n] == d1 && s2.dials == s.dials + [d];
  }

  // The last dial takes one act of its own.
  lemma MoveLast(s: State, n: nat, inflight: int, d: Dial, act: Act)
    requires Stage(s, n, inflight, d)
    requires Enabled(d, act) && d.sc == 0 && EffectOf(d, act).active == 0
    ensures Stage(Next(s, Move(n, act)), n, inflight + EffectOf(d, act).inflight, After(d, act))
  {
    hide Enabled, After, EffectOf;
    assert Next(s, Move(n, act)) == Moving(s, n, act);
  }

  lemma StageDone(s: State, n: nat, d: Dial)
    requires Stage(s, n, 0, d) && d.sc == 0 && d.caller == Between
    ensures AllBetween(s, n + 1)
  {
  }

  // It succeeds and gives its inflight slot back.
  lemma HandedOver(s: State, n: nat, d: Dial)
    requires Stage(s, n, 1, d) && Fresh(d)
    ensures var s1 := Next(Next(Next(s, Move(n, Spawn)), Move(n, DialReturns(true))), Move(n, Look));
            AllBetween(Next(Next(s1, Move(n, Hand)), Move(n, CallerRelease)), n + 1)
  {
    var d1 := After(d, Spawn);
    var d2 := After(d1, DialReturns(true));
    var d3 := After(d2, Look);
    var d4 := After(d3, Hand);
    hide Next, Stage;
    MoveLast(s, n, 1, d, Spawn);
    MoveLast(Next(s, Move(n, Spawn)), n, 1, d1, DialReturns(true));
    var s2 := Next(Next(s, Move(n, Spawn)), Move(n, DialReturns(true)));
    MoveLast(s2, n, 1, d2, Look);
    MoveLast(Next(s2, Move(n, Look)), n, 1, d3, Hand);
    var s4 := Next(Next(s2, Move(n, Look)), Move(n, Hand));
    MoveLast(s4, n, 1, d4, CallerRelease);
    StageDone(Next(s4, Move(n, CallerRelease)), n, After(d4, CallerRelease));
  }

  // One dial after another, each left between the two steps.
  lemma {:induction false} BetweenMany(n: nat) returns (steps: seq<Step>)
    ensures AllBetween(Run(Init(1), steps), n)
  {
    if n == 0 {
      steps := [];
    } else {
      hide Run, Next, AllBetween, Stage, Fresh;
      var before := BetweenMany(n - 1);
      var m := n - 1;
      var s := Run(Init(1), before);
      var d := Admitted(s, m);
      HandedOver(Next(Next(s, Reserve(0)), Check(m)), m, d);
      RunSnoc(Init(1), before, Reserve(0));
      RunSnoc(Init(1), before + [Reserve(0)], Check(m));
      var admitted := before + [Reserve(0)] + [Check(m)];
      RunSnoc(Init(1), admitted, Move(m, Spawn));
      RunSnoc(Init(1), admitted + [Move(m, Spawn)], Move(m, DialReturns(true)));
      RunSnoc(Init(1), admitted + [Move(m, Spawn)] + [Move(m, DialReturns(true))], Move(m, Look));
      var looked := admitted + [Move(m, Spawn)] + [Move(m, DialReturns(true))] + [Move(m, Look)];
      RunSnoc(Init(1), looked, Move(m, Hand));
      RunSnoc(Init(1), looked + [Move(m, Hand)], Move(m, CallerRelease));
      steps := looked + [Move(m, Hand)] + [Move(m, CallerRelease)];
    }
  }

  lemma {:induction false} AllBelong(dials: seq<Dial>, k: Kind)
    requires forall i :: 0 <= i < |dials| ==> Belongs(dials[i], k)
    ensures |Those(dials, k)| == |dials|
  {
    hide Belongs;
    if dials == [] {
    } else {
      var before, last := dials[..|dials| - 1], dials[|dials| - 1];
      AllBelong(before, k);
      OneMore(before, last, k);
      assert before + [last] == dials;
    }
  }

  // So for every n some run has n live slots on one connection with both its counters at
  // zero: no constant bounds them.
  lemma AnyNumberLive(n: nat) returns (steps: seq<Step>)
    ensures var s := Run(Init(1), steps);
            |Those(s.dials, Live(0))| == n && s.inflight == [0] && s.active == [0]
  {
    hide Run, Those;
    steps := BetweenMany(n);
    AllBelong(Run(Init(1), steps).dials, Live(0));
  }
}
