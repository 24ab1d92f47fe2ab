// The send side's window of unacknowledged frames as a value: what ackOutgoing,
// addOutgoing, dropOutgoing, resendLoop and markOutgoingForRetransmit do to it
// (internal/protocol/adapter.go, internal/protocol/adapter_resume.go).
module Window {
  import opened Common
  import opened Bytes
  import opened Message
  import opened Sets

  const DEFAULT_RTO := 200 * MILLISECOND
  const MAX_RTO := SECOND
  const MAX_RESENDS := 60

  datatype Entry = Entry(id: Uuid, data: bytes, lastSent: int, resends: nat)

  // size: bytes of the tracked frames; oldest: least tracked number, -1 when empty.
  datatype Window = Window(outgoing: map<int, Entry>, size: int, oldest: int, rto: int, limit: int)

  function EmptyWindow(limit: int): Window {
    Window(map[], 0, -1, DEFAULT_RTO, limit)
  }

  // ----- least key and sum of lengths -----

  ghost function OldestOf(m: map<int, Entry>): int {
    if m == map[] then -1 else Least(m.Keys)
  }

  ghost function Sum(m: map<int, Entry>): (n: nat)
    decreases |m|
  {
    if m == map[] then 0
    else
      var k := Least(m.Keys);
      assert m.Keys == (m - {k}).Keys + {k};
      |m[k].data| + Sum(m - {k})
  }

  lemma {:induction false} SumRemove(m: map<int, Entry>, k: int)
    requires k in m
    ensures Sum(m) == |m[k].data| + Sum(m - {k})
    decreases |m|
  {
    var l := Least(m.Keys);
    if l != k {
      assert m.Keys == (m - {l}).Keys + {l};
      SumRemove(m - {l}, k);
      var n := m - {k};
      assert l in n && IsLeast(l, n.Keys);
      LeastUnique(l, n.Keys);
      assert m - {l} - {k} == n - {l};
    }
  }

  lemma SumInsert(m: map<int, Entry>, k: int, e: Entry)
    requires k !in m
    ensures Sum(m[k := e]) == Sum(m) + |e.data|
  {
    SumRemove(m[k := e], k);
    assert m[k := e] - {k} == m;
  }

  // Same numbers, same frame lengths: same sum, same oldest.
  lemma {:induction false} SumOfSameFrames(m: map<int, Entry>, n: map<int, Entry>)
    requires m.Keys == n.Keys
    requires forall k :: k in m ==> m[k].data == n[k].data
    ensures Sum(m) == Sum(n)
    decreases |m|
  {
    if m == map[] {
    } else {
      var k := Least(m.Keys);
      assert k in n;
      SumRemove(n, k);
      assert m.Keys == (m - {k}).Keys + {k};
      SumOfSameFrames(m - {k}, n - {k});
    }
  }

  // ----- the invariant -----

  ghost predicate Accounted(w: Window) {
    && (forall k :: k in w.outgoing ==> 0 <= k <= MAX_INT64)
    && w.size == Sum(w.outgoing)
    && w.oldest == OldestOf(w.outgoing)
    && DEFAULT_RTO <= w.rto <= MAX_RTO
  }

  ghost predicate WithinLimit(w: Window) {
    0 <= w.size <= w.limit
  }

  // ----- operations -----

  predicate HasRoom(w: Window, need: int) {
    w.size + need <= w.limit
  }

  function Add(w: Window, k: int, id: Uuid, data: bytes, now: int): Window {
    w.(outgoing := w.outgoing[k := Entry(id, data, now, 0)],
       size := w.size + |data|,
       oldest := if w.oldest == -1 || k < w.oldest then k else w.oldest)
  }

  ghost function Remove(w: Window, k: int): Window
    requires k in w.outgoing
  {
    var rest := w.outgoing - {k};
    w.(outgoing := rest, size := w.size - |w.outgoing[k].data|, oldest := OldestOf(rest))
  }

  // Twice the last round trip, kept between the two bounds.
  function NextRto(rto: int, roundTrip: int): int {
    if roundTrip <= 0 then rto
    else if 2 * roundTrip < DEFAULT_RTO then DEFAULT_RTO
    else if 2 * roundTrip > MAX_RTO then MAX_RTO
    else 2 * roundTrip
  }

  predicate Matches(w: Window, k: int, id: Uuid) {
    k in w.outgoing && w.outgoing[k].id == id
  }

  ghost function Ack(w: Window, k: int, id: Uuid, now: int): Window {
    if !Matches(w, k, id) then w
    else Remove(w.(rto := NextRto(w.rto, now - w.outgoing[k].lastSent)), k)
  }

  ghost function Drop(w: Window, k: int, id: Uuid): Window {
    if !Matches(w, k, id) then w else Remove(w, k)
  }

  datatype Resend = Idle | Again(seqNo: int, data: bytes) | GiveUp(seqNo: int)

  function EffectiveRto(w: Window, e: Entry): int {
    var rto := if w.rto <= 0 then DEFAULT_RTO else w.rto;
    if e.resends > 0 && rto < MAX_RTO then MAX_RTO else rto
  }

  predicate Due(w: Window, now: int)
    requires w.oldest in w.outgoing
  {
    now - w.outgoing[w.oldest].lastSent > EffectiveRto(w, w.outgoing[w.oldest])
  }

  // One pass of the resend loop, past its pause and reconnect checks.
  function Tick(w: Window, now: int): (Window, Resend) {
    if w.oldest !in w.outgoing || !Due(w, now) then (w, Idle)
    else
      var e := w.outgoing[w.oldest];
      if e.resends + 1 > MAX_RESENDS then
        (w.(outgoing := w.outgoing[w.oldest := e.(resends := e.resends + 1)]), GiveUp(w.oldest))
      else
        (w.(outgoing := w.outgoing[w.oldest := e.(resends := e.resends + 1, lastSent := now)]),
         Again(w.oldest, e.data))
  }

  function Marked(w: Window, now: int): Window {
    w.(outgoing := map k | k in w.outgoing ::
         w.outgoing[k].(lastSent := now - DEFAULT_RTO - MILLISECOND, resends := 0))
  }

  // ----- what every operation keeps -----

  lemma AddKeeps(w: Window, k: int, id: Uuid, data: bytes, now: int)
    requires Accounted(w) && 0 <= k <= MAX_INT64
    ensures k !in w.outgoing ==> Accounted(Add(w, k, id, data, now))
    ensures WithinLimit(w) ==> (WithinLimit(Add(w, k, id, data, now)) <==> w.size + |data| <= w.limit)
    // A number used twice loses the first frame but keeps its bytes on the books.
    ensures k in w.outgoing ==>
            (Accounted(Add(w, k, id, data, now)) <==> |w.outgoing[k].data| == 0)
  {
    var m := w.outgoing[k := Entry(id, data, now, 0)];
    if k !in w.outgoing {
      SumInsert(w.outgoing, k, Entry(id, data, now, 0));
    } else {
      SumRemove(w.outgoing, k);
      SumRemove(m, k);
      assert m - {k} == w.outgoing - {k};
    }
    assert IsLeast(if w.oldest == -1 || k < w.oldest then k else w.oldest, m.Keys);
  }

  lemma RemoveKeeps(w: Window, k: int)
    requires Accounted(w) && k in w.outgoing
    ensures Accounted(Remove(w, k)) && 0 <= Remove(w, k).size <= w.size
    ensures k != w.oldest ==> Remove(w, k).oldest == w.oldest
  {
    SumRemove(w.outgoing, k);
    var rest := w.outgoing - {k};
    if k != w.oldest {
      assert w.oldest in rest && IsLeast(w.oldest, rest.Keys);
    }
  }

  lemma AckKeeps(w: Window, k: int, id: Uuid, now: int)
    requires Accounted(w)
    ensures Accounted(Ack(w, k, id, now)) && Accounted(Drop(w, k, id))
    ensures WithinLimit(w) ==> WithinLimit(Ack(w, k, id, now)) && WithinLimit(Drop(w, k, id))
    ensures Ack(w, k, id, now).outgoing == Drop(w, k, id).outgoing
            == if k in w.outgoing && w.outgoing[k].id == id then w.outgoing - {k} else w.outgoing
    ensures Ack(w, k, id, now).limit == Drop(w, k, id).limit == w.limit
  {
    if Matches(w, k, id) {
      RemoveKeeps(w.(rto := NextRto(w.rto, now - w.outgoing[k].lastSent)), k);
      RemoveKeeps(w, k);
    }
  }

  predicate Between(x: int, lo: int, hi: int) {
    lo <= x <= hi
  }

  function Distance(x: int, y: int): nat {
    if x < y then y - x else x - y
  }

  // An acknowledgement under the right id, of a frame sent before now, moves the timeout as
  // near to twice the round trip as the bounds of 200 ms and 1 s let it; no other does.
  lemma AckTimeout(w: Window, k: int, id: Uuid, now: int)
    ensures var after := Ack(w, k, id, now);
            if k in w.outgoing && w.outgoing[k].id == id && now > w.outgoing[k].lastSent then
              && Between(after.rto, 200 * MILLISECOND, SECOND)
              && forall x :: Between(x, 200 * MILLISECOND, SECOND) ==>
                   Distance(after.rto, 2 * (now - w.outgoing[k].lastSent))
                   <= Distance(x, 2 * (now - w.outgoing[k].lastSent))
            else
              after.rto == w.rto
  {
  }

  lemma TickKeeps(w: Window, now: int)
    requires Accounted(w)
    ensures Accounted(Tick(w, now).0) && Tick(w, now).0.size == w.size
    // The "inconsistent pointer" branch of the loop is dead.
    ensures w.outgoing != map[] ==> w.oldest in w.outgoing && w.oldest != -1
  {
    SumOfSameFrames(w.outgoing, Tick(w, now).0.outgoing);
    if w.outgoing != map[] {
      assert w.outgoing.Keys == Tick(w, now).0.outgoing.Keys;
    }
  }

  // What a turn of the resend loop does, and when. The oldest frame is due when more than
  // the timeout has passed since it was sent, or more than a second once it has been resent;
  // the turn that finds it due for the 61st time gives up.
  lemma TickExactly(w: Window, now: int)
    requires Accounted(w)
    ensures var (after, action) := Tick(w, now);
            if w.outgoing == map[] then
              after == w && action == Idle
            else
              && w.oldest in w.outgoing
              && var e := w.outgoing[w.oldest];
                 var due := now - e.lastSent > if e.resends == 0 then w.rto else SECOND;
                 if !due then
                   after == w && action == Idle
                 else
                   && after.outgoing - {w.oldest} == w.outgoing - {w.oldest}
                   && w.oldest in after.outgoing
                   && after == w.(outgoing := after.outgoing)
                   && var e' := after.outgoing[w.oldest];
                      && e' == e.(resends := e.resends + 1, lastSent := e'.lastSent)
                      && if e.resends < 60 then action == Again(w.oldest, e.data) && e'.lastSent == now
                         else action == GiveUp(w.oldest) && e'.lastSent == e.lastSent
  {
    TickKeeps(w, now);
  }

  lemma MarkedKeeps(w: Window, now: int)
    requires Accounted(w)
    ensures Accounted(Marked(w, now)) && Marked(w, now).size == w.size
  {
    SumOfSameFrames(w.outgoing, Marked(w, now).outgoing);
    assert w.outgoing.Keys == Marked(w, now).outgoing.Keys;
  }

  // After a resume the oldest frame is due at once exactly while the timeout is under
  // 201 ms: the entries are backdated by that much whatever the current timeout is.
  lemma ResumeIsImmediate(w: Window, now: int)
    requires Accounted(w) && w.outgoing != map[]
    ensures Tick(Marked(w, now), now).1.Again? <==> w.rto < DEFAULT_RTO + MILLISECOND
  {
    MarkedKeeps(w, now);
    TickKeeps(Marked(w, now), now);
  }

  // The same frames under the same numbers and ids; only the timers may differ.
  ghost predicate SameFrames(w: Window, w': Window) {
    && w'.outgoing.Keys == w.outgoing.Keys
    && w'.limit == w.limit
    && forall k :: k in w.outgoing ==> w'.outgoing[k].data == w.outgoing[k].data
                                       && w'.outgoing[k].id == w.outgoing[k].id
  }

  lemma TimersOnly(w: Window, now: int)
    requires Accounted(w)
    ensures SameFrames(w, Tick(w, now).0) && SameFrames(w, Marked(w, now))
    ensures Tick(w, now).1.Again? ==>
              && w.oldest in w.outgoing && Tick(w, now).1.seqNo == w.oldest
              && Tick(w, now).1.data == w.outgoing[w.oldest].data
  {
    assert w.outgoing.Keys == Tick(w, now).0.outgoing.Keys;
  }

  // ----- conservation over whole runs -----

  datatype Op =
    | AddOp(k: int, id: Uuid, data: bytes, now: int)
    | AckOp(k: int, id: Uuid, now: int)
    | DropOp(k: int, id: Uuid)
    | TickOp(now: int)
    | ResumeOp(now: int)

  datatype Books = Books(w: Window, added: int, acked: int, dropped: int)

  // An add happens for a number not in use and only when there is room.
  ghost function Enter(b: Books, op: Op): Books {
    match op
    case AddOp(k, id, data, now) =>
      if 0 <= k <= MAX_INT64 && k !in b.w.outgoing && HasRoom(b.w, |data|)
      then b.(w := Add(b.w, k, id, data, now), added := b.added + |data|)
      else b
    case AckOp(k, id, now) =>
      b.(w := Ack(b.w, k, id, now),
         acked := b.acked + if Matches(b.w, k, id) then |b.w.outgoing[k].data| else 0)
    case DropOp(k, id) =>
      b.(w := Drop(b.w, k, id),
         dropped := b.dropped + if Matches(b.w, k, id) then |b.w.outgoing[k].data| else 0)
    case TickOp(now) => b.(w := Tick(b.w, now).0)
    case ResumeOp(now) => b.(w := Marked(b.w, now))
  }

  ghost function EnterAll(b: Books, ops: seq<Op>): Books {
    if ops == [] then b else Enter(EnterAll(b, ops[..|ops| - 1]), ops[|ops| - 1])
  }

  // Bytes added = acknowledged + dropped + outstanding, after every run of every operation;
  // and the timeout never leaves its bounds.
  lemma {:induction false} Conservation(limit: nat, ops: seq<Op>)
    ensures var b := EnterAll(Books(EmptyWindow(limit), 0, 0, 0), ops);
            && Accounted(b.w) && WithinLimit(b.w) && b.w.limit == limit
            && DEFAULT_RTO <= b.w.rto <= MAX_RTO
            && b.added == b.acked + b.dropped + Sum(b.w.outgoing)
  {
    if ops == [] {
    } else {
      Conservation(limit, ops[..|ops| - 1]);
      var b := EnterAll(Books(EmptyWindow(limit), 0, 0, 0), ops[..|ops| - 1]);
      match ops[|ops| - 1]
      case AddOp(k, id, data, now) =>
        if 0 <= k <= MAX_INT64 && k !in b.w.outgoing && HasRoom(b.w, |data|) {
          AddKeeps(b.w, k, id, data, now);
        }
      case AckOp(k, id, now) =>
        AckKeeps(b.w, k, id, now);
      case DropOp(k, id) =>
        AckKeeps(b.w, k, id, 0);
      case TickOp(now) =>
        TickKeeps(b.w, now);
      case ResumeOp(now) =>
        MarkedKeeps(b.w, now);
    }
  }
}
