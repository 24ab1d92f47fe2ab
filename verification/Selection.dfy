// Choosing a pooled connection with room for one more channel
// (selectConnWithCapacity in internal/upstream/pool.go).
module Selection {
  import opened Common
  import opened Division

  const HUGE: int := 0x4000_0000_0000_0000

  // The counters of one connection as the scan loads them.
  datatype Conn = Conn(draining: bool, active: nat, inflight: nat)

  predicate Eligible(c: Conn) {
    !c.draining && c.active + c.inflight < MAX_CHANNELS_PER_CONN
  }

  // Fewer active channels first, then fewer dials in flight.
  predicate NoBusier(c: Conn, d: Conn) {
    c.active < d.active || (c.active == d.active && c.inflight <= d.inflight)
  }

  // Best among the first n.
  ghost predicate BestOf(conns: seq<Conn>, n: nat, i: nat) {
    && i < n <= |conns| && Eligible(conns[i])
    && forall j :: 0 <= j < n && Eligible(conns[j]) ==> NoBusier(conns[i], conns[j])
  }

  ghost predicate IsBest(conns: seq<Conn>, i: nat) {
    BestOf(conns, |conns|, i)
  }

  // The positions below n of the best connections, in pool order.
  ghost function BestUpTo(conns: seq<Conn>, n: nat): seq<nat> {
    if n == 0 then []
    else if IsBest(conns, n - 1) then BestUpTo(conns, n - 1) + [n - 1]
    else BestUpTo(conns, n - 1)
  }

  ghost predicate Ascending(s: seq<nat>) {
    forall i, j :: 0 <= i < j < |s| ==> s[i] < s[j]
  }

  lemma {:induction false} BestUpToIs(conns: seq<Conn>, n: nat)
    ensures Ascending(BestUpTo(conns, n))
    ensures forall k: nat :: k in BestUpTo(conns, n) <==> k < n && IsBest(conns, k)
  {
    if n == 0 {
    } else {
      BestUpToIs(conns, n - 1);
      var rest, all := BestUpTo(conns, n - 1), BestUpTo(conns, n);
      assert forall i :: 0 <= i < |rest| ==> rest[i] in rest;
      if IsBest(conns, n - 1) {
        assert all == rest + [n - 1];
        forall k: nat ensures k in all <==> k in rest || k == n - 1 {}
      }
    }
  }

  // An ascending list is determined by its members.
  lemma {:induction false} AscendingUnique(a: seq<nat>, b: seq<nat>)
    requires Ascending(a) && Ascending(b)
    requires forall k :: k in a <==> k in b
    ensures a == b
  {
    assert a != [] ==> a[0] in a;
    assert b != [] ==> b[0] in b;
    if a != [] && b != [] {
      var x, y := a[|a| - 1], b[|b| - 1];
      assert x in a && y in b;
      assert x in b && y in a;
      var i :| 0 <= i < |b| && b[i] == x;
      var j :| 0 <= j < |a| && a[j] == y;
      assert x == y;
      var a', b' := a[..|a| - 1], b[..|b| - 1];
      forall k ensures k in a' <==> k in b' {
        if k in a' {
          assert k in a && k != x;
        }
        if k in b' {
          assert k in b && k != y;
        }
      }
      AscendingUnique(a', b');
    }
  }

  ghost predicate NoneEligible(conns: seq<Conn>, i: nat)
    requires i <= |conns|
  {
    forall k :: 0 <= k < i ==> !Eligible(conns[k])
  }

  // What the scan holds after i connections: every position of a best one so far, and the
  // counters they share.
  ghost predicate Scanned(conns: seq<Conn>, i: nat, candidates: seq<nat>, minActive: nat, minInflight: nat) {
    && i <= |conns|
    && Ascending(candidates)
    && (forall k: nat :: k in candidates <==> BestOf(conns, i, k))
    && (candidates == [] ==> minActive == minInflight == HUGE && NoneEligible(conns, i))
    && (forall k: nat :: BestOf(conns, i, k) ==> conns[k].active == minActive && conns[k].inflight == minInflight)
  }

  // c is no busier than any of the first i.
  ghost predicate Leads(conns: seq<Conn>, i: nat, c: Conn)
    requires i <= |conns|
  {
    forall j :: 0 <= j < i && Eligible(conns[j]) ==> NoBusier(c, conns[j])
  }

  lemma BestNext(conns: seq<Conn>, i: nat, k: nat)
    requires i < |conns|
    ensures BestOf(conns, i + 1, k) <==>
              if k == i then Eligible(conns[i]) && Leads(conns, i, conns[i])
              else BestOf(conns, i, k) && (Eligible(conns[i]) ==> NoBusier(conns[k], conns[i]))
  {
  }

  lemma LeadsIs(conns: seq<Conn>, i: nat, candidates: seq<nat>, minActive: nat, minInflight: nat, c: Conn)
    requires Scanned(conns, i, candidates, minActive, minInflight) && Eligible(c)
    ensures Leads(conns, i, c) <==> c.active < minActive || (c.active == minActive && c.inflight <= minInflight)
  {
    if candidates != [] {
      var b := candidates[0];
      assert b in candidates && BestOf(conns, i, b);
    }
  }

  // What the next connection changes, for every position at once.
  ghost predicate BestMoves(conns: seq<Conn>, i: nat)
    requires i < |conns|
  {
    forall k: nat :: BestOf(conns, i + 1, k) <==>
      if k == i then Eligible(conns[i]) && Leads(conns, i, conns[i])
      else BestOf(conns, i, k) && (Eligible(conns[i]) ==> NoBusier(conns[k], conns[i]))
  }

  lemma AllBestNext(conns: seq<Conn>, i: nat)
    requires i < |conns|
    ensures BestMoves(conns, i)
  {
    forall k: nat
      ensures BestOf(conns, i + 1, k) <==>
                if k == i then Eligible(conns[i]) && Leads(conns, i, conns[i])
                else BestOf(conns, i, k) && (Eligible(conns[i]) ==> NoBusier(conns[k], conns[i]))
    {
      BestNext(conns, i, k);
    }
  }

  lemma CandidatesBelow(conns: seq<Conn>, i: nat, candidates: seq<nat>, minActive: nat, minInflight: nat)
    requires Scanned(conns, i, candidates, minActive, minInflight)
    ensures forall j :: 0 <= j < |candidates| ==> candidates[j] < i
    ensures forall k: nat :: k in candidates ==> k < i
  {
    assert forall j :: 0 <= j < |candidates| ==> candidates[j] in candidates;
    forall k: nat | k in candidates ensures k < i {
      assert BestOf(conns, i, k);
    }
  }

  // One more connection: a better one replaces the candidates, an equal one joins them,
  // any other changes nothing.
  lemma ScanNext(conns: seq<Conn>, i: nat, candidates: seq<nat>, minActive: nat, minInflight: nat)
    requires i < |conns| && Scanned(conns, i, candidates, minActive, minInflight)
    ensures var c := conns[i];
            if Eligible(c) && (c.active < minActive || (c.active == minActive && c.inflight < minInflight)) then
              Scanned(conns, i + 1, [i], c.active, c.inflight)
            else if Eligible(c) && c.active == minActive && c.inflight == minInflight then
              Scanned(conns, i + 1, candidates + [i], minActive, minInflight)
            else
              Scanned(conns, i + 1, candidates, minActive, minInflight)
  {
    hide BestOf, Leads;
    AllBestNext(conns, i);
    CandidatesBelow(conns, i, candidates, minActive, minInflight);
    var c := conns[i];
    if Eligible(c) {
      LeadsIs(conns, i, candidates, minActive, minInflight, c);
      if c.active < minActive || (c.active == minActive && c.inflight < minInflight) {
        forall k: nat ensures BestOf(conns, i + 1, k) <==> k in [i] {
          if BestOf(conns, i, k) {
            assert k in candidates;
          }
        }
      }
    }
  }

  lemma NothingScanned(conns: seq<Conn>)
    ensures Scanned(conns, 0, [], HUGE, HUGE)
  {
  }

  lemma ScanComplete(conns: seq<Conn>, candidates: seq<nat>, minActive: nat, minInflight: nat)
    requires Scanned(conns, |conns|, candidates, minActive, minInflight) && candidates != []
    ensures candidates == BestUpTo(conns, |conns|)
    ensures forall k :: 0 <= k < |candidates| ==>
              candidates[k] < |conns| && IsBest(conns, candidates[k]) && Eligible(conns[candidates[k]])
  {
    BestUpToIs(conns, |conns|);
    AscendingUnique(candidates, BestUpTo(conns, |conns|));
    assert forall k :: 0 <= k < |candidates| ==> candidates[k] in candidates;
  }

  // c has room for a channel, and among the connections that have, none carries fewer
  // channels, nor as many with fewer dials in flight.
  ghost predicate Least(conns: seq<Conn>, c: Conn) {
    && !c.draining && c.active + c.inflight < 4
    && forall d :: d in conns && !d.draining && d.active + d.inflight < 4 ==>
         c.active < d.active || (c.active == d.active && c.inflight <= d.inflight)
  }

  lemma BestIsLeast(conns: seq<Conn>, i: nat)
    ensures IsBest(conns, i) <==> i < |conns| && Least(conns, conns[i])
  {
    if i < |conns| && Least(conns, conns[i]) {
      forall j | 0 <= j < |conns| && Eligible(conns[j]) ensures NoBusier(conns[i], conns[j]) {
        assert conns[j] in conns;
      }
    }
  }

  class Selector {
    var nextConn: nat

    constructor ()
      ensures nextConn == 0
    {
      nextConn := 0;
    }

    // One pass over the pool; ties are broken round robin.
    method SelectConnWithCapacity(conns: seq<Conn>) returns (choice: Option<nat>)
      modifies this
      ensures choice == None <==>
                forall i :: 0 <= i < |conns| ==> conns[i].draining || conns[i].active + conns[i].inflight >= 4
      ensures choice == None ==> nextConn == old(nextConn)
      ensures choice.Some? ==>
                && choice.value < |conns| && Least(conns, conns[choice.value])
                && nextConn == (old(nextConn) + 1) % TWO_64
                && var best := BestUpTo(conns, |conns|);
                   best != [] && choice.value == best[nextConn % |best|]
    {
      hide BestOf, BestUpTo;
      if |conns| == 0 {
        return None;
      }
      var minActive: nat, minInflight: nat := HUGE, HUGE;
      var candidates: seq<nat> := [];
      var i := 0;
      NothingScanned(conns);
      while i < |conns|
        invariant Scanned(conns, i, candidates, minActive, minInflight)
        invariant nextConn == old(nextConn)
      {
        var sc := conns[i];
        ScanNext(conns, i, candidates, minActive, minInflight);
        if sc.draining || sc.active + sc.inflight >= MAX_CHANNELS_PER_CONN {
        } else if sc.active < minActive || (sc.active == minActive && sc.inflight < minInflight) {
          minActive, minInflight := sc.active, sc.inflight;
          candidates := [i];
        } else if sc.active == minActive && sc.inflight == minInflight {
          candidates := candidates + [i];
        }
        i := i + 1;
      }
      if |candidates| == 0 {
        return None;
      }
      ScanComplete(conns, candidates, minActive, minInflight);
      nextConn := (nextConn + 1) % TWO_64;
      BestIsLeast(conns, candidates[nextConn % |candidates|]);
      return Some(candidates[nextConn % |candidates|]);
    }
  }

  lemma {:induction false} BestUpToShort(conns: seq<Conn>, n: nat)
    ensures |BestUpTo(conns, n)| <= n
  {
    if n == 0 {
    } else {
      BestUpToShort(conns, n - 1);
    }
  }

  lemma {:induction false} TurnFor(start: nat, p: nat, n: nat) returns (turn: nat)
    requires p < n
    ensures start < turn <= start + n && turn % n == p
    decreases start
  {
    if start < n {
      turn := if start < p then p else p + n;
      QuotientIs(p, n, 0);
      QuotientNext(p, n);
    } else {
      var before := TurnFor(start - n, p, n);
      turn := before + n;
      QuotientNext(before, n);
    }
  }

  // The counter value, from start on, picks connection i.
  ghost predicate Picks(conns: seq<Conn>, counter: nat, i: nat) {
    var best := BestUpTo(conns, |conns|);
    best != [] && best[counter % |best|] == i
  }

  // Every connection no busier than any other eligible one has its turn within one round of
  // the pool, or two when the 64-bit counter wraps on the way.
  lemma EveryBestHasItsTurn(conns: seq<Conn>, i: nat, start: nat)
    requires i < |conns| && Least(conns, conns[i]) && start < TWO_64 && |conns| <= TWO_64
    ensures exists turn: nat :: start < turn <= start + 2 * |conns| && Picks(conns, turn % TWO_64, i)
    ensures start + |conns| < TWO_64 ==> exists turn: nat :: start < turn <= start + |conns| && Picks(conns, turn, i)
  {
    BestIsLeast(conns, i);
    BestUpToIs(conns, |conns|);
    BestUpToShort(conns, |conns|);
    var best := BestUpTo(conns, |conns|);
    assert i in best;
    var p :| 0 <= p < |best| && best[p] == i;
    hide BestUpTo, IsBest;
    if start + |conns| < TWO_64 {
      var turn := TurnFor(start, p, |best|);
      assert Picks(conns, turn, i);
      assert turn % TWO_64 == turn;
    } else {
      QuotientIs(p, |best|, 0);
      assert Picks(conns, p, i);
      assert (TWO_64 + p) % TWO_64 == p;
    }
  }

  // Two rounds can be needed: with three equal connections and the counter at 2^64 - 2 the
  // next three picks are 0, 0 and 1.
  lemma WrapMisses()
    ensures var conns := [Conn(false, 0, 0), Conn(false, 0, 0), Conn(false, 0, 0)];
            && Least(conns, conns[2])
            && forall turn: nat :: TWO_64 - 2 < turn <= TWO_64 + 1 ==> !Picks(conns, turn % TWO_64, 2)
  {
    var conns := [Conn(false, 0, 0), Conn(false, 0, 0), Conn(false, 0, 0)];
    assert IsBest(conns, 0) && IsBest(conns, 1) && IsBest(conns, 2);
    assert BestUpTo(conns, 1) == [0];
    assert BestUpTo(conns, 2) == [0, 1];
    assert BestUpTo(conns, 3) == [0, 1, 2];
    forall turn: nat | TWO_64 - 2 < turn <= TWO_64 + 1 ensures !Picks(conns, turn % TWO_64, 2) {
      assert turn == TWO_64 - 1 || turn == TWO_64 || turn == TWO_64 + 1;
      assert (TWO_64 - 1) % TWO_64 == TWO_64 - 1 && (TWO_64 - 1) % 3 == 0;
    }
  }
}
