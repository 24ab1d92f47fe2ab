// The two independent ways the connection pool grows, scale-up and replenish, and how
// far they can take it together (internal/upstream/pool.go).
module PoolGrowth {
  import opened Common

  const DEFAULT_POOL_SIZE := 4
  const MAX_POOL_SIZE := 12
  const SCALE_PARALLELISM := 2
  const REPLENISH_PARALLELISM := 2

  // scaling and replenishing count attempts whose connection is not in the pool yet,
  // scaled and replenished those that are done with the pool but still on their counter.
  // reading is the pool size a startScale saw while it holds scaleMu; counted is the
  // size maintainOnce saw before it reserves; resets counts the wake-up resets.
  datatype Growth = Growth(
    pool: nat,
    scaling: nat,
    scaled: nat,
    scaleInFlight: int,
    reading: Option<nat>,
    replenishing: nat,
    replenished: nat,
    replenishInFlight: int,
    counted: Option<nat>,
    resets: nat)

  datatype Step =
    | ScaleRead
    | ScaleReserve
    | ScaleConnected
    | ScaleFailed
    | ScaleDone
    | MaintainCount
    | MaintainReserve
    | MaintainBackoff
    | MaintainAtOnce
    | ReplenishConnected
    | ReplenishFailed
    | ReplenishDone
    | Remove
    | WakeReset

  function Init(pool: nat): Growth {
    Growth(pool, 0, 0, 0, None, 0, 0, 0, None, 0)
  }

  // What startScale decides from the pool size it read: one more attempt or none.
  function ScaleBy(poolSize: int, scaleInFlight: int): int {
    if poolSize + scaleInFlight >= MAX_POOL_SIZE || scaleInFlight >= SCALE_PARALLELISM then 0 else 1
  }

  // What reserveReplenish grants from the count it is given.
  function ReplenishBy(currentCount: int, replenishInFlight: int): int {
    var needed := DEFAULT_POOL_SIZE - currentCount;
    var available := REPLENISH_PARALLELISM - replenishInFlight;
    if needed <= 0 || available <= 0 then 0 else if needed > available then available else needed
  }

  function Reserved(g: Growth, count: nat): Growth {
    var n := ReplenishBy(count, g.replenishInFlight);
    if n < 0 then g
    else g.(replenishing := g.replenishing + n, replenishInFlight := g.replenishInFlight + n, counted := None)
  }

  function Next(g: Growth, step: Step): Growth {
    match step
    case ScaleRead =>
      if g.reading == None then g.(reading := Some(g.pool)) else g
    case ScaleReserve =>
      if g.reading.Some? && ScaleBy(g.reading.value, g.scaleInFlight) == 1
      then g.(reading := None, scaling := g.scaling + 1, scaleInFlight := g.scaleInFlight + 1)
      else g.(reading := None)
    case ScaleConnected =>
      if g.scaling > 0 then g.(scaling := g.scaling - 1, scaled := g.scaled + 1, pool := g.pool + 1) else g
    case ScaleFailed =>
      if g.scaling > 0 then g.(scaling := g.scaling - 1, scaled := g.scaled + 1) else g
    case ScaleDone =>
      // needs scaleMu, which a reading startScale holds
      if g.scaled > 0 && g.reading == None
      then g.(scaled := g.scaled - 1, scaleInFlight := g.scaleInFlight - 1)
      else g
    case MaintainCount =>
      if g.counted == None then g.(counted := Some(g.pool)) else g
    case MaintainReserve =>
      if g.counted.Some? then Reserved(g, g.counted.value) else g
    case MaintainBackoff =>
      g.(counted := None)
    case MaintainAtOnce =>
      if g.counted == None then Reserved(g, g.pool) else g
    case ReplenishConnected =>
      if g.replenishing > 0
      then g.(replenishing := g.replenishing - 1, replenished := g.replenished + 1, pool := g.pool + 1)
      else g
    case ReplenishFailed =>
      if g.replenishing > 0 then g.(replenishing := g.replenishing - 1, replenished := g.replenished + 1) else g
    case ReplenishDone =>
      if g.replenished > 0
      then g.(replenished := g.replenished - 1,
              replenishInFlight := if g.replenishInFlight > 0 then g.replenishInFlight - 1 else g.replenishInFlight)
      else g
    case Remove =>
      if g.pool > 0 then g.(pool := g.pool - 1) else g
    case WakeReset =>
      g.(replenishInFlight := 0, resets := g.resets + 1)
  }

  function Run(g: Growth, steps: seq<Step>): Growth {
    if steps == [] then g else Next(Run(g, steps[..|steps| - 1]), steps[|steps| - 1])
  }

  // Connections in the pool and on their way into it.
  function Total(g: Growth): nat {
    g.pool + g.scaling + g.replenishing
  }

  // What a startScale in the middle, and a maintainOnce in the middle, may still add.
  function ScaleDue(g: Growth): nat {
    if g.reading.Some? && ScaleBy(g.reading.value, g.scaleInFlight) == 1 then 1 else 0
  }

  function ReplenishDue(g: Growth): nat {
    if g.counted.Some? && g.counted.value < DEFAULT_POOL_SIZE then REPLENISH_PARALLELISM else 0
  }

  ghost predicate Counted(g: Growth) {
    && g.scaleInFlight == g.scaling + g.scaled <= SCALE_PARALLELISM
    && 0 <= g.replenishInFlight <= REPLENISH_PARALLELISM
    && g.replenishing + g.replenished <= g.replenishInFlight + REPLENISH_PARALLELISM * g.resets
  }

  lemma CountedNext(g: Growth, step: Step)
    requires Counted(g)
    ensures Counted(Next(g, step))
  {
  }

  // ----- three bounds -----

  ghost predicate Bounded(g: Growth) {
    Total(g) + ReplenishDue(g) + ScaleDue(g)
    <= MAX_POOL_SIZE + 2 * REPLENISH_PARALLELISM + REPLENISH_PARALLELISM * g.resets
  }

  lemma BoundedNext(g: Growth, step: Step)
    requires Counted(g) && Bounded(g)
    ensures Bounded(Next(g, step))
  {
  }

  // Whatever interleaves with whatever: at most 16 connections, and two more for each
  // wake-up reset.
  lemma {:induction false} GrowthBounded(pool: nat, steps: seq<Step>)
    requires pool <= DEFAULT_POOL_SIZE
    ensures var g := Run(Init(pool), steps);
            Counted(g) && Bounded(g) && Total(g) <= 16 + 2 * g.resets
  {
    if steps == [] {
    } else {
      GrowthBounded(pool, steps[..|steps| - 1]);
      CountedNext(Run(Init(pool), steps[..|steps| - 1]), steps[|steps| - 1]);
      BoundedNext(Run(Init(pool), steps[..|steps| - 1]), steps[|steps| - 1]);
    }
  }

  predicate Staggers(step: Step) {
    step == MaintainCount || step == WakeReset
  }

  ghost predicate AtomicBound(g: Growth) {
    && g.resets == 0 && g.counted == None
    && Total(g) + ScaleDue(g) <= MAX_POOL_SIZE + REPLENISH_PARALLELISM
  }

  lemma AtomicNext(g: Growth, step: Step)
    requires Counted(g) && AtomicBound(g) && !Staggers(step)
    ensures AtomicBound(Next(g, step))
  {
  }

  // When maintainOnce counts and reserves in one step and no wake-up resets the counter,
  // the bound is 14: startScale's stale reading does no harm of its own.
  lemma {:induction false} GrowthWithAtomicMaintain(pool: nat, steps: seq<Step>)
    requires pool <= DEFAULT_POOL_SIZE
    requires forall step :: step in steps ==> !Staggers(step)
    ensures var g := Run(Init(pool), steps);
            Counted(g) && Total(g) <= 14 && AtomicBound(g)
  {
    if steps == [] {
    } else {
      hide Next, Counted;
      GrowthWithAtomicMaintain(pool, steps[..|steps| - 1]);
      var g := Run(Init(pool), steps[..|steps| - 1]);
      assert steps[|steps| - 1] in steps;
      CountedNext(g, steps[|steps| - 1]);
      AtomicNext(g, steps[|steps| - 1]);
    }
  }

  predicate Replenishes(step: Step) {
    step == MaintainReserve || step == MaintainAtOnce || step == WakeReset
  }

  // With scale-up alone the hard cap of 12 holds.
  lemma {:induction false} GrowthByScalingAlone(pool: nat, steps: seq<Step>)
    requires pool <= DEFAULT_POOL_SIZE
    requires forall step :: step in steps ==> !Replenishes(step)
    ensures var g := Run(Init(pool), steps);
            && Counted(g) && g.replenishing == 0
            && Total(g) + ScaleDue(g) <= MAX_POOL_SIZE
  {
    if steps == [] {
    } else {
      GrowthByScalingAlone(pool, steps[..|steps| - 1]);
      assert steps[|steps| - 1] in steps;
      CountedNext(Run(Init(pool), steps[..|steps| - 1]), steps[|steps| - 1]);
    }
  }

  // ----- the bound is attained -----

  function Grow(n: nat): seq<Step> {
    if n == 0 then [] else Grow(n - 1) + [ScaleRead, ScaleReserve, ScaleConnected, ScaleDone]
  }

  lemma {:induction false} RunAppend(g: Growth, a: seq<Step>, b: seq<Step>)
    ensures Run(g, a + b) == Run(Run(g, a), b)
  {
    hide Next;
    if b == [] {
      assert a + b == a;
    } else {
      RunAppend(g, a, b[..|b| - 1]);
      assert (a + b)[..|a + b| - 1] == a + b[..|b| - 1];
    }
  }

  lemma RunTwo(g: Growth, x: Step, y: Step)
    ensures Run(g, [x, y]) == Next(Next(g, x), y)
  {
    hide Next;
    assert [x, y][..1] == [x] && [x][..0] == [];
    assert Run(g, [x]) == Next(g, x);
  }

  lemma RunFour(g: Growth, x: Step, y: Step, z: Step, w: Step)
    ensures Run(g, [x, y, z, w]) == Next(Next(Next(Next(g, x), y), z), w)
  {
    hide Next;
    RunTwo(g, x, y);
    RunTwo(Run(g, [x, y]), z, w);
    RunAppend(g, [x, y], [z, w]);
    assert [x, y] + [z, w] == [x, y, z, w];
  }

  lemma {:induction false} GrowsBy(g: Growth, n: nat)
    requires g.reading == None && g.scaleInFlight == g.scaling == g.scaled == 0
    requires g.pool + n <= MAX_POOL_SIZE
    ensures Run(g, Grow(n)) == g.(pool := g.pool + n)
  {
    if n == 0 {
    } else {
      GrowsBy(g, n - 1);
      var mid := g.(pool := g.pool + n - 1);
      RunAppend(g, Grow(n - 1), [ScaleRead, ScaleReserve, ScaleConnected, ScaleDone]);
      RunFour(mid, ScaleRead, ScaleReserve, ScaleConnected, ScaleDone);
    }
  }

  // Each wake-up reset forgets two running replenishes.
  function ResetSteps(n: nat): seq<Step> {
    if n == 0 then [] else ResetSteps(n - 1) + [MaintainAtOnce, WakeReset]
  }

  lemma {:induction false} ResetsForget(n: nat)
    ensures Run(Init(2), ResetSteps(n)) == Init(2).(replenishing := 2 * n, resets := n)
  {
    if n == 0 {
    } else {
      ResetsForget(n - 1);
      RunAppend(Init(2), ResetSteps(n - 1), [MaintainAtOnce, WakeReset]);
      RunTwo(Run(Init(2), ResetSteps(n - 1)), MaintainAtOnce, WakeReset);
    }
  }

  function Landings(n: nat): seq<Step> {
    if n == 0 then [] else Landings(n - 1) + [ReplenishConnected]
  }

  lemma RunOne(g: Growth, x: Step)
    ensures Run(g, [x]) == Next(g, x)
  {
    hide Next;
    assert [x][..0] == [];
  }

  lemma {:induction false} AllLand(g: Growth, n: nat)
    requires n <= g.replenishing
    ensures Run(g, Landings(n))
            == g.(pool := g.pool + n, replenishing := g.replenishing - n, replenished := g.replenished + n)
  {
    if n == 0 {
    } else {
      AllLand(g, n - 1);
      RunAppend(g, Landings(n - 1), [ReplenishConnected]);
      RunOne(Run(g, Landings(n - 1)), ReplenishConnected);
    }
  }

  lemma ReserveThenCount(g: Growth, n: nat)
    requires g == Init(2).(replenishing := 2 * n, resets := n)
    ensures Next(Next(g, MaintainAtOnce), MaintainCount)
            == g.(replenishing := 2 * n + 2, replenishInFlight := 2, counted := Some(2))
  {
  }

  lemma ReadIs(g: Growth)
    requires g.reading == None
    ensures Next(g, ScaleRead) == g.(reading := Some(g.pool))
  {
  }

  // maintainOnce reserves, counts 2 once more and stalls; scale-up fills the pool to 11 and
  // stalls in turn after reading; ...
  lemma BothStall(g: Growth, n: nat) returns (steps: seq<Step>)
    requires g == Init(2).(replenishing := 2 * n, resets := n)
    ensures Run(g, steps)
            == Init(11).(replenishing := 2 * n + 2, replenishInFlight := 2, counted := Some(2), reading := Some(11),
                         resets := n)
  {
    hide Run, Next;
    RunTwo(g, MaintainAtOnce, MaintainCount);
    ReserveThenCount(g, n);
    var g1 := Run(g, [MaintainAtOnce, MaintainCount]);
    GrowsBy(g1, 9);
    RunOne(Run(g1, Grow(9)), ScaleRead);
    ReadIs(Run(g1, Grow(9)));
    RunAppend(g, [MaintainAtOnce, MaintainCount], Grow(9));
    RunAppend(g, [MaintainAtOnce, MaintainCount] + Grow(9), [ScaleRead]);
    steps := [MaintainAtOnce, MaintainCount] + Grow(9) + [ScaleRead];
  }

  lemma StaleReserves(g: Growth, n: nat)
    requires g == Init(13 + 2 * n).(replenished := 2 * n + 2, replenishInFlight := 2, counted := Some(2),
                                    reading := Some(11), resets := n)
    ensures Next(Next(Next(Next(g, ReplenishDone), ReplenishDone), MaintainReserve), ScaleReserve)
            == Init(13 + 2 * n).(replenished := 2 * n, replenishing := 2, replenishInFlight := 2, scaling := 1,
                                 scaleInFlight := 1, resets := n)
  {
  }

  lemma ConnectedIs(g: Growth)
    requires g.scaling > 0
    ensures Next(g, ScaleConnected).pool == g.pool + 1 && Next(g, ScaleConnected).resets == g.resets
  {
  }

  // ... the running replenishes land; both stale decisions are carried out and land too.
  lemma BothLand(g: Growth, n: nat) returns (steps: seq<Step>)
    requires g == Init(11).(replenishing := 2 * n + 2, replenishInFlight := 2, counted := Some(2), reading := Some(11),
                            resets := n)
    ensures Run(g, steps).pool == 16 + 2 * n && Run(g, steps).resets == n
  {
    hide Run, Next;
    AllLand(g, 2 * n + 2);
    var g1 := Run(g, Landings(2 * n + 2));
    RunFour(g1, ReplenishDone, ReplenishDone, MaintainReserve, ScaleReserve);
    StaleReserves(g1, n);
    var stale := [ReplenishDone, ReplenishDone, MaintainReserve, ScaleReserve];
    var g2 := Run(g1, stale);
    AllLand(g2, 2);
    RunOne(Run(g2, Landings(2)), ScaleConnected);
    ConnectedIs(Run(g2, Landings(2)));
    RunAppend(g, Landings(2 * n + 2), stale);
    RunAppend(g, Landings(2 * n + 2) + stale, Landings(2));
    RunAppend(g, Landings(2 * n + 2) + stale + Landings(2), [ScaleConnected]);
    steps := Landings(2 * n + 2) + stale + Landings(2) + [ScaleConnected];
  }

  // So the bound of sixteen and two more for each wake-up reset is attained for every
  // number of resets: no constant caps the pool.
  lemma BoundAttained(n: nat) returns (steps: seq<Step>)
    ensures Run(Init(2), steps).pool == 16 + 2 * n && Run(Init(2), steps).resets == n
  {
    hide Run, Next;
    ResetsForget(n);
    var g0 := Run(Init(2), ResetSteps(n));
    var first := BothStall(g0, n);
    var second := BothLand(Run(g0, first), n);
    steps := ResetSteps(n) + first + second;
    RunAppend(Init(2), ResetSteps(n), first);
    RunAppend(Init(2), ResetSteps(n) + first, second);
  }

  // In particular the hard cap of 12 can be passed by four with no reset involved.
  lemma SixteenHappens() returns (steps: seq<Step>)
    ensures Run(Init(2), steps).pool == 16 && Run(Init(2), steps).resets == 0
  {
    steps := BoundAttained(0);
  }

  // ----- the bound of 14 is reached -----

  lemma {:induction false} GrowOnly(n: nat)
    ensures forall step :: step in Grow(n) ==> !Staggers(step)
  {
    if n == 0 {
    } else {
      GrowOnly(n - 1);
    }
  }

  // With counting and reserving in one step: startScale does not look at the replenishing
  // attempts under way, fills the pool to its cap, and they land on top.
  lemma FourteenHappens() returns (steps: seq<Step>)
    ensures Run(Init(2), steps).pool == 14 && forall step :: step in steps ==> !Staggers(step)
  {
    var g1 := Next(Init(2), MaintainAtOnce);
    RunOne(Init(2), MaintainAtOnce);
    assert g1 == Init(2).(replenishing := 2, replenishInFlight := 2);
    GrowsBy(g1, 10);
    GrowOnly(10);
    var g2 := Run(g1, Grow(10));
    RunTwo(g2, ReplenishConnected, ReplenishConnected);
    RunAppend(Init(2), [MaintainAtOnce], Grow(10));
    RunAppend(Init(2), [MaintainAtOnce] + Grow(10), [ReplenishConnected, ReplenishConnected]);
    steps := [MaintainAtOnce] + Grow(10) + [ReplenishConnected, ReplenishConnected];
  }

  // ----- exactly when the cap is passed -----

  // The reserve's own test passes, on the values it looks at.
  predicate GuardPasses(g: Growth, step: Step) {
    match step
    case ScaleReserve =>
      g.reading.Some? && g.reading.value + g.scaleInFlight < MAX_POOL_SIZE && g.scaleInFlight < SCALE_PARALLELISM
    case MaintainReserve =>
      g.counted.Some? && g.counted.value < DEFAULT_POOL_SIZE && g.replenishInFlight < REPLENISH_PARALLELISM
    case MaintainAtOnce =>
      g.counted == None && g.pool < DEFAULT_POOL_SIZE && g.replenishInFlight < REPLENISH_PARALLELISM
    case _ => false
  }

  function Smaller(a: int, b: int): int {
    if a < b then a else b
  }

  // How many attempts it then starts: what is missing, as far as attempts are free.
  function Asked(g: Growth, step: Step): int {
    match step
    case MaintainReserve =>
      Smaller(4 - if g.counted.Some? then g.counted.value else 4, 2 - g.replenishInFlight)
    case MaintainAtOnce => Smaller(4 - g.pool, 2 - g.replenishInFlight)
    case _ => 1
  }

  // An attempt ends with a connection in the pool, an attempt ends without, a connection
  // leaves the pool.
  predicate Lands(g: Growth, step: Step) {
    (step == ScaleConnected && g.scaling > 0) || (step == ReplenishConnected && g.replenishing > 0)
  }

  predicate Fails(g: Growth, step: Step) {
    (step == ScaleFailed && g.scaling > 0) || (step == ReplenishFailed && g.replenishing > 0)
  }

  predicate Leaves(g: Growth, step: Step) {
    step == Remove && g.pool > 0
  }

  // What a run has started, landed, failed and removed.
  datatype Ledger = Ledger(started: int, landed: nat, failed: nat, left: nat)

  function Enter(l: Ledger, g: Growth, step: Step): Ledger {
    Ledger(l.started + if GuardPasses(g, step) then Asked(g, step) else 0,
           l.landed + Bit(Lands(g, step)), l.failed + Bit(Fails(g, step)), l.left + Bit(Leaves(g, step)))
  }

  function Entered(g: Growth, steps: seq<Step>): Ledger {
    if steps == [] then Ledger(0, 0, 0, 0)
    else Enter(Entered(g, steps[..|steps| - 1]), Run(g, steps[..|steps| - 1]), steps[|steps| - 1])
  }

  lemma StepEnters(g: Growth, step: Step, l: Ledger)
    ensures var g', l' := Next(g, step), Enter(l, g, step);
            && g'.pool - g.pool == (l'.landed - l.landed) - (l'.left - l.left)
            && (g'.scaling + g'.replenishing) - (g.scaling + g.replenishing)
               == (l'.started - l.started) - (l'.landed - l.landed) - (l'.failed - l.failed)
  {
  }

  // No connection appears or vanishes in the counting: in every run the pool is what it was,
  // plus what landed, less what was removed, and every attempt started is under way, landed
  // or failed.
  lemma {:induction false} Conservation(pool: nat, steps: seq<Step>)
    ensures var g, l := Run(Init(pool), steps), Entered(Init(pool), steps);
            && g.pool == pool + l.landed - l.left
            && l.started == g.scaling + g.replenishing + l.landed + l.failed
  {
    if steps == [] {
    } else {
      hide Next, Enter;
      var before := steps[..|steps| - 1];
      Conservation(pool, before);
      StepEnters(Run(Init(pool), before), steps[|steps| - 1], Entered(Init(pool), before));
    }
  }

  // In every reachable state within the cap a step passes it exactly when it is a reserve
  // whose own test passes although pool, scale-ups and replenishes together leave no room.
  // Without a wake-up reset only a stale count can do so, or a scale-up that overlooks
  // replenishes under way.
  lemma CapPassedExactly(pool: nat, steps: seq<Step>, step: Step)
    requires pool <= DEFAULT_POOL_SIZE && Total(Run(Init(pool), steps)) <= MAX_POOL_SIZE
    ensures var g := Run(Init(pool), steps);
            && (Total(Next(g, step)) > MAX_POOL_SIZE <==>
                GuardPasses(g, step) && Asked(g, step) > MAX_POOL_SIZE - Total(g))
            && (Total(Next(g, step)) > MAX_POOL_SIZE && g.resets == 0 ==>
                  || (step == ScaleReserve && (g.replenishing > 0 || g.reading.value < g.pool))
                  || (step == MaintainReserve && g.counted.value < g.pool))
  {
    GrowthBounded(pool, steps);
  }

  // ----- the counters as the group updates them -----

  class Group {
    var conns: seq<nat>
    var scaleInFlight: int
    var scaleStartsTotal: nat
    var replenishInFlight: int
    var replenishFailures: nat
    var replenishNextAttempt: Option<int>

    constructor (conns: seq<nat>)
      ensures this.conns == conns && scaleInFlight == 0 && replenishInFlight == 0
      ensures replenishNextAttempt == None && replenishFailures == 0 && scaleStartsTotal == 0
    {
      this.conns := conns;
      scaleInFlight := 0;
      scaleStartsTotal := 0;
      replenishInFlight := 0;
      replenishFailures := 0;
      replenishNextAttempt := None;
    }

    // The counters of the growth model are the group's fields.
    ghost predicate Shows(g: Growth)
      reads this
    {
      g.pool == |conns| && g.scaleInFlight == scaleInFlight && g.replenishInFlight == replenishInFlight
    }

    // add: how many attempts to start in the background.
    method StartScale() returns (add: int)
      requires 0 <= scaleInFlight
      modifies `scaleInFlight, `scaleStartsTotal
      ensures add == if |conns| + old(scaleInFlight) < 12 && old(scaleInFlight) < 2 then 1 else 0
      ensures scaleInFlight == old(scaleInFlight) + add
      ensures forall g: Growth :: old(Shows(g)) && g.reading == None ==>
                Shows(Next(Next(g, ScaleRead), ScaleReserve))
                && Next(Next(g, ScaleRead), ScaleReserve).scaling == g.scaling + add
      ensures scaleStartsTotal == old(scaleStartsTotal) + add
    {
      var total := |conns| + scaleInFlight;
      if total >= MAX_POOL_SIZE {
        return 0;
      }
      if scaleInFlight >= SCALE_PARALLELISM {
        return 0;
      }
      var remainingPool := MAX_POOL_SIZE - total;
      var remainingParallel := SCALE_PARALLELISM - scaleInFlight;
      add := 1;
      if add > remainingPool {
        add := remainingPool;
      }
      if add > remainingParallel {
        add := remainingParallel;
      }
      if add <= 0 {
        return 0;
      }
      scaleInFlight := scaleInFlight + add;
      scaleStartsTotal := scaleStartsTotal + add;
    }

    predicate InBackoff(now: int)
      reads this
    {
      replenishNextAttempt.Some? && now < replenishNextAttempt.value
    }

    method ReserveReplenish(currentCount: int, now: int) returns (needed: int, wait: int)
      modifies `replenishInFlight
      ensures wait >= 0 && needed >= 0
      ensures wait > 0 <==> InBackoff(now)
      ensures wait > 0 ==> needed == 0 && now + wait == replenishNextAttempt.value
      // A grant never exceeds what is missing from four nor the two attempts allowed at once ...
      ensures needed > 0 ==> needed <= 4 - currentCount && needed <= 2 - old(replenishInFlight)
      // ... and reaches one of the two whenever both leave something.
      ensures wait == 0 && currentCount < 4 && old(replenishInFlight) < 2 ==>
                needed == 4 - currentCount || needed == 2 - old(replenishInFlight)
      ensures replenishInFlight == old(replenishInFlight) + needed
      ensures forall g: Growth :: old(Shows(g)) && g.counted.Some? && g.counted.value == currentCount && wait <= 0 ==>
                Shows(Next(g, MaintainReserve)) && Next(g, MaintainReserve).replenishing == g.replenishing + needed
    {
      if replenishNextAttempt.Some? && now < replenishNextAttempt.value {
        return 0, replenishNextAttempt.value - now;
      }
      needed := DEFAULT_POOL_SIZE - currentCount;
      if needed <= 0 {
        return 0, 0;
      }
      var available := REPLENISH_PARALLELISM - replenishInFlight;
      if available <= 0 {
        return 0, 0;
      }
      if needed > available {
        needed := available;
      }
      replenishInFlight := replenishInFlight + needed;
      return needed, 0;
    }

    // One attempt of the model ends; after a wake-up reset its place may be gone already,
    // and the counter never goes below zero.
    method FinishReplenish()
      modifies `replenishInFlight
      ensures forall g: Growth :: old(Shows(g)) && g.replenished > 0 ==> Shows(Next(g, ReplenishDone))
      ensures old(replenishInFlight) > 0 ==> replenishInFlight == old(replenishInFlight) - 1
      ensures old(replenishInFlight) <= 0 ==> replenishInFlight == old(replenishInFlight)
    {
      if replenishInFlight > 0 {
        replenishInFlight := replenishInFlight - 1;
      }
    }

    method ResetReplenishBackoff()
      modifies `replenishInFlight, `replenishFailures, `replenishNextAttempt
      ensures forall g: Growth :: old(Shows(g)) ==>
                Shows(Next(g, WakeReset)) && Next(g, WakeReset).replenishing == g.replenishing
      // The next maintainOnce is held back neither by the backoff nor by attempts still running.
      ensures forall now: int :: !InBackoff(now)
      ensures replenishInFlight == 0
      ensures replenishFailures == 0
    {
      replenishFailures := 0;
      replenishNextAttempt := None;
      replenishInFlight := 0;
    }
  }
}
