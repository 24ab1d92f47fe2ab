// What the world does to a writer: the wake-ups while it waits for room in the window, and
// its turns at the publication gate and the transport, one for each chunk (addOutgoing and
// Write in internal/protocol/adapter.go).
module Turns {
  import opened Common
  import opened Bytes
  import opened Sets
  import opened Message
  import opened Window
  import opened Reorder
  import opened Segmentation

  datatype AckNotice = AckNotice(k: int, id: Uuid, now: int)

  // What other goroutines did while a writer slept on the window: acknowledgements that
  // came in, and whether Close ran.
  datatype Wake = Wake(acks: seq<AckNotice>, closes: bool)

  datatype AddResult = Added | ClosedPipe | TimedOut

  // The world's part in sending one chunk: whether the publication gate let it pass,
  // the frame's stamp, the wake-ups while the window is full, what happened while writeRaw
  // had the frame, how many broken writes left a copy on the wire, and whether a write got
  // through in the end.
  datatype Turn = Turn(admitted: bool, stamp: Stamp, wakes: seq<Wake>, now: int, during: Wake, leaks: nat, sent: bool)

  datatype WriteError = NoError | NotAdmitted | NotTracked | NotSent

  // ----- the window as seen after some wake-ups -----

  ghost function AckAll(w: Window, acks: seq<AckNotice>): Window {
    if acks == [] then w
    else
      var last := acks[|acks| - 1];
      Ack(AckAll(w, acks[..|acks| - 1]), last.k, last.id, last.now)
  }

  ghost function AfterWakes(w: Window, wakes: seq<Wake>): Window {
    if wakes == [] then w
    else AckAll(AfterWakes(w, wakes[..|wakes| - 1]), wakes[|wakes| - 1].acks)
  }

  lemma AfterNoWakes(w: Window, wakes: seq<Wake>)
    ensures AfterWakes(w, wakes[..0]) == w
  {
  }

  lemma AfterOneMore(w: Window, wakes: seq<Wake>, n: nat)
    requires n < |wakes|
    ensures AfterWakes(w, wakes[..n + 1]) == AckAll(AfterWakes(w, wakes[..n]), wakes[n].acks)
  {
    assert wakes[..n + 1][..n] == wakes[..n];
  }

  // An acknowledgement of frame k under its own id is among the wake-ups.
  ghost predicate Acknowledged(wakes: seq<Wake>, k: int, id: Uuid) {
    exists i, j :: 0 <= i < |wakes| && 0 <= j < |wakes[i].acks|
                   && wakes[i].acks[j].k == k && wakes[i].acks[j].id == id
  }

  ghost predicate AcksHave(acks: seq<AckNotice>, k: int, id: Uuid) {
    exists j :: 0 <= j < |acks| && acks[j].k == k && acks[j].id == id
  }

  // Only acknowledgements take frames out.
  lemma {:induction false} AckAllTakes(w: Window, acks: seq<AckNotice>, k: int)
    requires k in w.outgoing
    ensures k in AckAll(w, acks).outgoing ==> AckAll(w, acks).outgoing[k] == w.outgoing[k]
    ensures k !in AckAll(w, acks).outgoing ==> AcksHave(acks, k, w.outgoing[k].id)
  {
    if acks == [] {
    } else {
      var init, last := acks[..|acks| - 1], acks[|acks| - 1];
      AckAllTakes(w, init, k);
      if AcksHave(init, k, w.outgoing[k].id) {
        var j :| 0 <= j < |init| && init[j].k == k && init[j].id == w.outgoing[k].id;
        assert acks[j] == init[j];
      } else if k !in AckAll(w, acks).outgoing {
        assert last.k == k && last.id == w.outgoing[k].id;
      }
    }
  }

  lemma {:induction false} AckAllShrinks(w: Window, acks: seq<AckNotice>)
    ensures AckAll(w, acks).outgoing.Keys <= w.outgoing.Keys
  {
    if acks == [] {
    } else {
      AckAllShrinks(w, acks[..|acks| - 1]);
    }
  }

  lemma {:induction false} WakesTake(w: Window, wakes: seq<Wake>, k: int)
    requires k in w.outgoing
    ensures k in AfterWakes(w, wakes).outgoing ==> AfterWakes(w, wakes).outgoing[k] == w.outgoing[k]
    ensures k !in AfterWakes(w, wakes).outgoing ==> Acknowledged(wakes, k, w.outgoing[k].id)
  {
    if wakes == [] {
    } else {
      var init, last := wakes[..|wakes| - 1], wakes[|wakes| - 1];
      WakesTake(w, init, k);
      if k in AfterWakes(w, init).outgoing {
        AckAllTakes(AfterWakes(w, init), last.acks, k);
      } else {
        AckAllShrinks(AfterWakes(w, init), last.acks);
        var i, j :| 0 <= i < |init| && 0 <= j < |init[i].acks|
                    && init[i].acks[j].k == k && init[i].acks[j].id == w.outgoing[k].id;
        assert wakes[i] == init[i];
      }
    }
  }

  lemma AcknowledgedMore(wakes: seq<Wake>, used: nat, k: int, id: Uuid)
    requires used <= |wakes| && Acknowledged(wakes[..used], k, id)
    ensures Acknowledged(wakes, k, id)
  {
    var i, j :| 0 <= i < used && 0 <= j < |wakes[..used][i].acks|
                && wakes[..used][i].acks[j].k == k && wakes[..used][i].acks[j].id == id;
    assert wakes[..used][i] == wakes[i];
  }

  lemma {:induction false} AckAllKeeps(w: Window, acks: seq<AckNotice>)
    requires Accounted(w) && WithinLimit(w)
    ensures Accounted(AckAll(w, acks)) && WithinLimit(AckAll(w, acks))
    ensures AckAll(w, acks).outgoing.Keys <= w.outgoing.Keys
    ensures forall k :: k in AckAll(w, acks).outgoing ==> AckAll(w, acks).outgoing[k] == w.outgoing[k]
    ensures AckAll(w, acks).limit == w.limit
  {
    if acks == [] {
    } else {
      var last := acks[|acks| - 1];
      AckAllKeeps(w, acks[..|acks| - 1]);
      AckKeeps(AckAll(w, acks[..|acks| - 1]), last.k, last.id, last.now);
    }
  }

  lemma {:induction false} AfterWakesKeeps(w: Window, wakes: seq<Wake>)
    requires Accounted(w) && WithinLimit(w)
    ensures Accounted(AfterWakes(w, wakes)) && WithinLimit(AfterWakes(w, wakes))
    ensures AfterWakes(w, wakes).outgoing.Keys <= w.outgoing.Keys
    ensures forall k :: k in AfterWakes(w, wakes).outgoing ==> AfterWakes(w, wakes).outgoing[k] == w.outgoing[k]
    ensures AfterWakes(w, wakes).limit == w.limit
  {
    if wakes == [] {
    } else {
      AfterWakesKeeps(w, wakes[..|wakes| - 1]);
      AckAllKeeps(AfterWakes(w, wakes[..|wakes| - 1]), wakes[|wakes| - 1].acks);
    }
  }

  function Stamps(turns: nat -> Turn): nat -> Stamp {
    (i: nat) => turns(i).stamp
  }

  // Frame k was acknowledged under id while the turn slept on the window or was in writeRaw.
  ghost predicate AckedIn(turn: Turn, k: int, id: Uuid) {
    Acknowledged(turn.wakes, k, id) || AcksHave(turn.during.acks, k, id)
  }

  // The frame of turn i, numbered k, was acknowledged while it was in writeRaw itself or in
  // a later turn below n.
  ghost predicate AckedLater(turns: nat -> Turn, i: nat, n: nat, k: int) {
    || (i < n && AcksHave(turns(i).during.acks, k, turns(i).stamp.id))
    || exists t: nat :: i < t < n && AckedIn(turns(t), k, turns(i).stamp.id)
  }

  ghost predicate Tracks(outgoing: map<int, Entry>, k: int, frame: bytes, id: Uuid) {
    k in outgoing && outgoing[k].data == frame && outgoing[k].id == id
  }

  // The frame that carries a payload under number k.
  function ChunkFrame(sha: Hash, payload: bytes, k: int64, stamp: Stamp): bytes {
    Encode(sha, NewInputMessage(payload, k, stamp.id, stamp.created))
  }

  // Every frame sent is either still tracked or was acknowledged meanwhile.
  ghost predicate Safe(outgoing: map<int, Entry>, sha: Hash, segs: seq<bytes>, first: nat, turns: nat -> Turn,
                       sent: nat)
    requires sent <= |segs| && first + |segs| <= MAX_INT64
  {
    forall i :: 0 <= i < sent ==>
      Tracks(outgoing, first + i, ChunkFrame(sha, segs[i], first + i, turns(i).stamp), turns(i).stamp.id)
      || AckedLater(turns, i, sent + 1, first + i)
  }

  lemma AckedLaterStill(turns: nat -> Turn, i: nat, n: nat, k: int)
    ensures AckedLater(turns, i, n, k) ==> AckedLater(turns, i, n + 1, k)
  {
    hide AckedIn, AcksHave;
    if exists t: nat :: i < t < n && AckedIn(turns(t), k, turns(i).stamp.id) {
      var t: nat :| i < t < n && AckedIn(turns(t), k, turns(i).stamp.id);
      assert i < t < n + 1 && AckedIn(turns(t), k, turns(i).stamp.id);
    }
  }

  // One more chunk is tracked or already acknowledged, and what left the window was
  // acknowledged on the way.
  lemma SafeStep(before: map<int, Entry>, after: map<int, Entry>, sha: Hash, segs: seq<bytes>, first: nat,
                 turns: nat -> Turn, sent: nat)
    requires sent < |segs| && first + |segs| <= MAX_INT64
    requires Safe(before, sha, segs, first, turns, sent)
    requires forall j :: j in before ==>
               if j in after then after[j] == before[j] else AckedIn(turns(sent), j, before[j].id)
    ensures Safe(after, sha, segs, first, turns, sent)
    ensures Tracks(after, first + sent, ChunkFrame(sha, segs[sent], first + sent, turns(sent).stamp),
                   turns(sent).stamp.id)
            || AcksHave(turns(sent).during.acks, first + sent, turns(sent).stamp.id)
            ==> Safe(after, sha, segs, first, turns, sent + 1)
  {
    hide ChunkFrame, AckedIn, AcksHave;
    forall i | 0 <= i < sent
      ensures Tracks(after, first + i, ChunkFrame(sha, segs[i], first + i, turns(i).stamp), turns(i).stamp.id)
              || (AckedLater(turns, i, sent + 1, first + i) && AckedLater(turns, i, sent + 2, first + i))
    {
      AckedLaterStill(turns, i, sent + 1, first + i);
      if !AckedLater(turns, i, sent + 1, first + i) {
        assert Tracks(before, first + i, ChunkFrame(sha, segs[i], first + i, turns(i).stamp), turns(i).stamp.id);
      }
    }
  }

  lemma LeftByWakes(w: Window, turn: Turn, used: nat)
    requires used <= |turn.wakes|
    ensures forall j :: j in w.outgoing && j !in AfterWakes(w, turn.wakes[..used]).outgoing ==>
              AckedIn(turn, j, w.outgoing[j].id)
  {
    forall j | j in w.outgoing && j !in AfterWakes(w, turn.wakes[..used]).outgoing
      ensures Acknowledged(turn.wakes, j, w.outgoing[j].id)
    {
      WakesTake(w, turn.wakes[..used], j);
      AcknowledgedMore(turn.wakes, used, j, w.outgoing[j].id);
    }
  }

  lemma LeftDuring(w: Window, turn: Turn)
    ensures forall j :: j in w.outgoing && j !in AckAll(w, turn.during.acks).outgoing ==>
              AcksHave(turn.during.acks, j, w.outgoing[j].id)
  {
    forall j | j in w.outgoing && j !in AckAll(w, turn.during.acks).outgoing
      ensures AcksHave(turn.during.acks, j, w.outgoing[j].id)
    {
      AckAllTakes(w, turn.during.acks, j);
    }
  }

  function Repeated(frame: bytes, n: nat): seq<bytes> {
    if n == 0 then [] else Repeated(frame, n - 1) + [frame]
  }

  // What the first n chunks put on the wire: each its frame, after the copies of its broken
  // writes.
  function Transmitted(sha: Hash, segs: seq<bytes>, first: nat, turns: nat -> Turn, n: nat): seq<bytes>
    requires n <= |segs| && first + |segs| <= MAX_INT64
  {
    if n == 0 then []
    else
      var frame := ChunkFrame(sha, segs[n - 1], first + n - 1, turns(n - 1).stamp);
      Transmitted(sha, segs, first, turns, n - 1) + (Repeated(frame, turns(n - 1).leaks) + [frame])
  }

  lemma TransmittedMore(sha: Hash, segs: seq<bytes>, first: nat, turns: nat -> Turn, n: nat)
    requires n < |segs| && first + |segs| <= MAX_INT64
    ensures var frame := ChunkFrame(sha, segs[n], first + n, turns(n).stamp);
            Transmitted(sha, segs, first, turns, n + 1)
            == Transmitted(sha, segs, first, turns, n) + (Repeated(frame, turns(n).leaks) + [frame])
  {
    hide ChunkFrame;
  }

  lemma {:induction false} RepeatedOnly(frame: bytes, n: nat)
    ensures forall f :: f in Repeated(frame, n) ==> f == frame
  {
    if n == 0 {
    } else {
      RepeatedOnly(frame, n - 1);
    }
  }

  ghost predicate SameFrames(a: seq<bytes>, b: seq<bytes>) {
    forall f :: f in a <==> f in b
  }

  lemma SameFramesSnoc(a: seq<bytes>, b: seq<bytes>, frame: bytes, leaks: nat)
    requires SameFrames(a, b)
    ensures SameFrames(a + (Repeated(frame, leaks) + [frame]), b + [frame])
    ensures leaks == 0 && a == b ==> a + (Repeated(frame, leaks) + [frame]) == b + [frame]
  {
    RepeatedOnly(frame, leaks);
  }

  ghost predicate NoLeaks(turns: nat -> Turn, n: nat) {
    forall i: nat :: i < n ==> turns(i).leaks == 0
  }

  lemma TransmittedStep(sha: Hash, segs: seq<bytes>, first: nat, turns: nat -> Turn, n: nat)
    requires n < |segs| && first + |segs| <= MAX_INT64
    requires SameFrames(Transmitted(sha, segs, first, turns, n), Frames(sha, First(segs, n), first, Stamps(turns)))
    ensures SameFrames(Transmitted(sha, segs, first, turns, n + 1),
                       Frames(sha, First(segs, n + 1), first, Stamps(turns)))
    ensures turns(n).leaks == 0
            && Transmitted(sha, segs, first, turns, n) == Frames(sha, First(segs, n), first, Stamps(turns))
            ==> Transmitted(sha, segs, first, turns, n + 1)
                == Frames(sha, First(segs, n + 1), first, Stamps(turns))
  {
    hide Encode, NewInputMessage, SameFrames, Transmitted, Frames, Flatten, Repeated;
    TransmittedMore(sha, segs, first, turns, n);
    FramesSnoc(sha, segs, n, first, Stamps(turns));
    SameFramesSnoc(
      Transmitted(sha, segs, first, turns, n),
      Frames(sha, First(segs, n), first, Stamps(turns)),
      ChunkFrame(sha, segs[n], first + n, turns(n).stamp),
      turns(n).leaks);
  }

  // Broken writes add copies and nothing else: the frames on the wire are those of the
  // chunks, and without a broken write they are there in order, each once.
  lemma {:induction false} TransmittedFrames(sha: Hash, segs: seq<bytes>, first: nat, turns: nat -> Turn, n: nat)
    requires n <= |segs| && first + |segs| <= MAX_INT64
    ensures SameFrames(Transmitted(sha, segs, first, turns, n), Frames(sha, First(segs, n), first, Stamps(turns)))
    ensures NoLeaks(turns, n) ==>
              Transmitted(sha, segs, first, turns, n) == Frames(sha, First(segs, n), first, Stamps(turns))
  {
    if n == 0 {
      hide ChunkFrame, Encode, NewInputMessage;
      assert |Frames(sha, First(segs, 0), first, Stamps(turns))| == 0;
    } else {
      hide SameFrames, Transmitted, Frames, First, Stamps;
      TransmittedFrames(sha, segs, first, turns, n - 1);
      TransmittedStep(sha, segs, first, turns, n - 1);
    }
  }

  // Where the loop of Write stands: sent chunks done, `rest` still to go.
  ghost predicate Progress(segs: seq<bytes>, b: bytes, chunk: nat, sent: nat, n: nat, rest: bytes) {
    && 0 < chunk
    && sent <= |segs|
    && segs[sent..] == Segments(rest, chunk)
    && n == |Flatten(First(segs, sent))|
    && b == Flatten(First(segs, sent)) + rest
  }

  lemma ProgressStart(sha: Hash, segs: seq<bytes>, b: bytes, chunk: nat, first: nat, turns: nat -> Turn,
                      outgoing: map<int, Entry>)
    requires 0 < chunk && segs == Segments(b, chunk) && first + |b| <= MAX_INT64
    ensures Progress(segs, b, chunk, 0, 0, b)
    ensures first + |segs| <= MAX_INT64
    ensures Transmitted(sha, segs, first, turns, 0) == []
    ensures Safe(outgoing, sha, segs, first, turns, 0)
  {
    SegmentsShort(b, chunk);
  }

  lemma ProgressStep(segs: seq<bytes>, b: bytes, chunk: nat, sent: nat, n: nat, rest: bytes)
    requires Progress(segs, b, chunk, sent, n, rest) && rest != []
    ensures n <= |b| && b[..n] == Flatten(First(segs, sent))
    ensures sent < |segs|
    ensures var len := if |rest| > chunk then chunk else |rest|;
            && segs[sent] == rest[..len]
            && Progress(segs, b, chunk, sent + 1, n + len, rest[len..])
  {
    assert segs[sent] == segs[sent..][0];
    assert First(segs, sent + 1)[..sent] == First(segs, sent);
    assert segs[sent + 1..] == segs[sent..][1..];
  }

  lemma ProgressEnd(segs: seq<bytes>, b: bytes, chunk: nat, sent: nat, n: nat)
    requires Progress(segs, b, chunk, sent, n, [])
    ensures sent == |segs| && n == |b| && b[..n] == Flatten(First(segs, sent))
  {
  }

  // ----- which chunks get through -----

  // The window and whether Close has run, as a writer finds them under the lock.
  datatype Side = Side(w: Window, closed: bool)

  ghost predicate SawClose(wakes: seq<Wake>) {
    exists i :: 0 <= i < |wakes| && wakes[i].closes
  }

  ghost function Woken(s: Side, wakes: seq<Wake>): Side {
    Side(AfterWakes(s.w, wakes), s.closed || SawClose(wakes))
  }

  ghost predicate Full(s: Side, need: nat) {
    s.w.size + need > s.w.limit
  }

  // A frame gets into the window at wake-up u: there is room for the first time, and Close
  // has not run.
  ghost predicate LetsIn(s: Side, wakes: seq<Wake>, need: nat, u: nat) {
    && u <= |wakes|
    && !Woken(s, wakes[..u]).closed && !Full(Woken(s, wakes[..u]), need)
    && forall i :: 0 <= i < u ==> Full(Woken(s, wakes[..i]), need)
  }

  ghost predicate Admits(s: Side, wakes: seq<Wake>, need: nat) {
    exists u: nat :: LetsIn(s, wakes, need, u)
  }

  lemma WokenOneMore(s: Side, wakes: seq<Wake>, n: nat)
    requires n < |wakes|
    ensures Woken(s, wakes[..n + 1]).w == AckAll(Woken(s, wakes[..n]).w, wakes[n].acks)
    ensures Woken(s, wakes[..n + 1]).closed <==> Woken(s, wakes[..n]).closed || wakes[n].closes
  {
    AfterOneMore(s.w, wakes, n);
    var more := wakes[..n + 1];
    assert more[n] == wakes[n];
    if SawClose(wakes[..n]) {
      var i :| 0 <= i < n && wakes[..n][i].closes;
      assert more[i].closes;
    }
    if SawClose(more) && !wakes[n].closes {
      var i :| 0 <= i < n + 1 && more[i].closes;
      assert wakes[..n][i].closes;
    }
  }

  lemma NotWoken(s: Side, wakes: seq<Wake>)
    ensures Woken(s, wakes[..0]) == s
  {
    AfterNoWakes(s.w, wakes);
  }

  lemma LetInAdmits(s: Side, wakes: seq<Wake>, need: nat, u: nat)
    requires LetsIn(s, wakes, need, u)
    ensures Admits(s, wakes, need)
  {
  }

  lemma LetInHasRoom(s: Side, wakes: seq<Wake>, need: nat, u: nat)
    requires LetsIn(s, wakes, need, u)
    ensures AfterWakes(s.w, wakes[..u]).size + need <= AfterWakes(s.w, wakes[..u]).limit
    ensures !Woken(s, wakes[..u]).closed
  {
  }

  lemma FrameLength(sha: Hash, payload: bytes, k: int64, stamp: Stamp)
    ensures |ChunkFrame(sha, payload, k, stamp)| == TOTAL_HEADER_LEN + |payload|
  {
  }

  lemma LetInOnce(s: Side, wakes: seq<Wake>, need: nat, u: nat, v: nat)
    requires LetsIn(s, wakes, need, u) && LetsIn(s, wakes, need, v)
    ensures u == v
  {
    hide Full, Woken;
    assert !(u < v) && !(v < u);
  }

  lemma ClosedStays(s: Side, wakes: seq<Wake>, u: nat, v: nat)
    requires u <= v <= |wakes| && Woken(s, wakes[..u]).closed
    ensures Woken(s, wakes[..v]).closed
  {
    if !s.closed {
      var i :| 0 <= i < u && wakes[..u][i].closes;
      assert wakes[..v][i].closes;
    }
  }

  // A writer that slept on a full window until Close or the last wake-up is not let in.
  lemma NeverLetIn(s: Side, wakes: seq<Wake>, need: nat, u: nat)
    requires u <= |wakes| && forall i :: 0 <= i < u ==> Full(Woken(s, wakes[..i]), need)
    requires Woken(s, wakes[..u]).closed || (u == |wakes| && Full(Woken(s, wakes[..u]), need))
    ensures !Admits(s, wakes, need)
  {
    hide Full, Woken;
    forall v: nat ensures !LetsIn(s, wakes, need, v) {
      if u <= v <= |wakes| && Woken(s, wakes[..u]).closed {
        ClosedStays(s, wakes, u, v);
      }
    }
  }

  // What a chunk that gets through leaves behind.
  ghost function Through(s: Side, k: int, frame: bytes, turn: Turn): Side {
    if u: nat :| LetsIn(s, turn.wakes, |frame|, u) then
      var woken := Woken(s, turn.wakes[..u]);
      Side(AckAll(Add(woken.w, k, turn.stamp.id, frame, turn.now), turn.during.acks),
           woken.closed || turn.during.closes)
    else s
  }

  lemma ThroughAt(s: Side, k: int, frame: bytes, turn: Turn, u: nat)
    requires LetsIn(s, turn.wakes, |frame|, u)
    ensures Through(s, k, frame, turn)
            == Side(AckAll(Add(AfterWakes(s.w, turn.wakes[..u]), k, turn.stamp.id, frame, turn.now),
                           turn.during.acks),
                    turn.during.closes)
  {
    assert !Woken(s, turn.wakes[..u]).closed;
    hide LetsIn, AfterWakes, AckAll, SawClose;
    forall v: nat | LetsIn(s, turn.wakes, |frame|, v) ensures u == v {
      LetInOnce(s, turn.wakes, |frame|, u, v);
    }
  }

  // The gate opens, the frame gets into the window and a write gets through.
  ghost predicate GetsThrough(s: Side, need: nat, turn: Turn) {
    turn.admitted && Admits(s, turn.wakes, need) && turn.sent
  }

  // The window and the flag before chunk n of a Write whose earlier chunks got through.
  ghost function SideAt(s: Side, sha: Hash, segs: seq<bytes>, first: nat, turns: nat -> Turn, n: nat): Side
    requires n <= |segs| && first + |segs| <= MAX_INT64
  {
    if n == 0 then s
    else
      Through(SideAt(s, sha, segs, first, turns, n - 1), first + n - 1,
              ChunkFrame(sha, segs[n - 1], first + n - 1, turns(n - 1).stamp), turns(n - 1))
  }

  // Chunk n of such a Write gets through.
  ghost predicate ChunkGetsThrough(s: Side, sha: Hash, segs: seq<bytes>, first: nat, turns: nat -> Turn, n: nat)
    requires n < |segs| && first + |segs| <= MAX_INT64
  {
    GetsThrough(SideAt(s, sha, segs, first, turns, n), TOTAL_HEADER_LEN + |segs[n]|, turns(n))
  }

  ghost predicate AllGetThrough(s: Side, sha: Hash, segs: seq<bytes>, first: nat, turns: nat -> Turn, n: nat)
    requires n <= |segs| && first + |segs| <= MAX_INT64
  {
    forall i :: 0 <= i < n ==> ChunkGetsThrough(s, sha, segs, first, turns, i)
  }

  lemma OneMoreThrough(s: Side, sha: Hash, segs: seq<bytes>, first: nat, turns: nat -> Turn, n: nat)
    requires n < |segs| && first + |segs| <= MAX_INT64
    requires AllGetThrough(s, sha, segs, first, turns, n) && ChunkGetsThrough(s, sha, segs, first, turns, n)
    ensures AllGetThrough(s, sha, segs, first, turns, n + 1)
  {
    hide ChunkGetsThrough;
  }

  // How a Write ends: the first `sent` chunks got through, and the next one, if any, met
  // the closed gate, was not let into the window, or was not written.
  ghost predicate Outcome(s: Side, sha: Hash, segs: seq<bytes>, first: nat, turns: nat -> Turn, sent: nat,
                          err: WriteError)
    requires first + |segs| <= MAX_INT64
  {
    && sent <= |segs|
    && AllGetThrough(s, sha, segs, first, turns, sent)
    && (sent == |segs| <==> err.NoError?)
    && (sent < |segs| ==>
          var side, turn := SideAt(s, sha, segs, first, turns, sent), turns(sent);
          var letIn := Admits(side, turn.wakes, TOTAL_HEADER_LEN + |segs[sent]|);
          && (err.NotAdmitted? <==> !turn.admitted)
          && (err.NotTracked? <==> turn.admitted && !letIn)
          && (err.NotSent? <==> turn.admitted && letIn && !turn.sent))
  }

  // Where Write stands: `sent` chunks have got through and left things as they are now.
  ghost predicate Went(s: Side, now: Side, sha: Hash, segs: seq<bytes>, first: nat, turns: nat -> Turn, sent: nat)
    requires first + |segs| <= MAX_INT64
  {
    && sent <= |segs| && now == SideAt(s, sha, segs, first, turns, sent)
    && AllGetThrough(s, sha, segs, first, turns, sent)
  }

  lemma WentNowhere(s: Side, sha: Hash, segs: seq<bytes>, first: nat, turns: nat -> Turn)
    requires first + |segs| <= MAX_INT64
    ensures Went(s, s, sha, segs, first, turns, 0)
  {
  }

  lemma WentOneMore(s: Side, now: Side, next: Side, sha: Hash, segs: seq<bytes>, first: nat, turns: nat -> Turn,
                    sent: nat)
    requires first + |segs| <= MAX_INT64 && sent < |segs| && Went(s, now, sha, segs, first, turns, sent)
    requires turns(sent).admitted && turns(sent).sent
    requires Admits(now, turns(sent).wakes, TOTAL_HEADER_LEN + |segs[sent]|)
    requires next == Through(now, first + sent, ChunkFrame(sha, segs[sent], first + sent, turns(sent).stamp),
                             turns(sent))
    ensures Went(s, next, sha, segs, first, turns, sent + 1)
  {
    assert ChunkGetsThrough(s, sha, segs, first, turns, sent);
    hide Through, Admits, ChunkFrame, ChunkGetsThrough, AllGetThrough;
    OneMoreThrough(s, sha, segs, first, turns, sent);
  }

  lemma WentIs(s: Side, now: Side, sha: Hash, segs: seq<bytes>, first: nat, turns: nat -> Turn, sent: nat)
    requires first + |segs| <= MAX_INT64 && Went(s, now, sha, segs, first, turns, sent)
    ensures sent <= |segs| && now == SideAt(s, sha, segs, first, turns, sent)
  {
  }

  lemma WentToTheEnd(s: Side, now: Side, sha: Hash, segs: seq<bytes>, first: nat, turns: nat -> Turn, sent: nat,
                     err: WriteError)
    requires first + |segs| <= MAX_INT64 && Went(s, now, sha, segs, first, turns, sent)
    requires err.NoError? <==> sent == |segs|
    requires sent < |segs| ==>
               && (err.NotAdmitted? <==> !turns(sent).admitted)
               && (turns(sent).admitted ==>
                     && (err.NotTracked? <==>
                           !Admits(now, turns(sent).wakes, TOTAL_HEADER_LEN + |segs[sent]|))
                     && (err.NotSent? <==>
                           Admits(now, turns(sent).wakes, TOTAL_HEADER_LEN + |segs[sent]|) && !turns(sent).sent))
    ensures Outcome(s, sha, segs, first, turns, sent, err)
  {
    hide SideAt, Admits, AllGetThrough;
  }

  // ----- the frames that stay and the frames that leave while a writer is at work -----

  ghost predicate Sane(w: Window) {
    Accounted(w) && WithinLimit(w)
  }

  // Nothing new, nothing changed, and what has left was acknowledged during the turn.
  ghost predicate Narrowed(w: Window, w': Window, turn: Turn) {
    && w'.limit == w.limit
    && (forall j :: j in w'.outgoing ==> j in w.outgoing && w'.outgoing[j] == w.outgoing[j])
    && forall j :: j in w.outgoing && j !in w'.outgoing ==> AckedIn(turn, j, w.outgoing[j].id)
  }

  // The same, with a frame k added that may be acknowledged already.
  ghost predicate Joined(w: Window, w': Window, k: int, e: Entry, turn: Turn) {
    && w'.limit == w.limit
    && (forall j :: j in w'.outgoing && j != k ==> j in w.outgoing && w'.outgoing[j] == w.outgoing[j])
    && (forall j :: j in w.outgoing && j !in w'.outgoing ==> AckedIn(turn, j, w.outgoing[j].id))
    && if k in w'.outgoing then w'.outgoing[k] == e else AcksHave(turn.during.acks, k, e.id)
  }

  lemma WakesNarrow(w: Window, turn: Turn, used: nat)
    requires Sane(w) && used <= |turn.wakes|
    ensures Sane(AfterWakes(w, turn.wakes[..used]))
    ensures Narrowed(w, AfterWakes(w, turn.wakes[..used]), turn)
  {
    AfterWakesKeeps(w, turn.wakes[..used]);
    LeftByWakes(w, turn, used);
    hide AfterWakes, Accounted, WithinLimit, AckedIn;
  }

  lemma AddedAndAcked(w: Window, after: Window, k: int, frame: bytes, turn: Turn)
    requires Sane(after) && Narrowed(w, after, turn) && k !in w.outgoing && 0 <= k <= MAX_INT64
    requires after.size + |frame| <= after.limit
    ensures var acked := AckAll(Add(after, k, turn.stamp.id, frame, turn.now), turn.during.acks);
            Sane(acked) && Joined(w, acked, k, Entry(turn.stamp.id, frame, turn.now, 0), turn)
  {
    var tracked := Add(after, k, turn.stamp.id, frame, turn.now);
    AddKeeps(after, k, turn.stamp.id, frame, turn.now);
    AckAllKeeps(tracked, turn.during.acks);
    LeftDuring(tracked, turn);
    hide AckAll, Accounted, WithinLimit, AcksHave, Acknowledged;
    var acked := AckAll(tracked, turn.during.acks);
    forall j | j in w.outgoing && j !in acked.outgoing ensures AckedIn(turn, j, w.outgoing[j].id) {
      if j in after.outgoing {
        assert tracked.outgoing[j] == w.outgoing[j];
      }
    }
  }

  lemma DroppedAgain(w: Window, acked: Window, k: int, e: Entry, turn: Turn)
    requires Sane(acked) && Joined(w, acked, k, e, turn) && k !in w.outgoing
    ensures var dropped := Drop(acked, k, e.id);
            && Sane(dropped) && k !in dropped.outgoing
            && Narrowed(w, dropped, turn)
  {
    AckKeeps(acked, k, e.id, 0);
    hide Drop, Accounted, WithinLimit, AckedIn, AcksHave;
  }

  // ----- a Write that succeeds -----

  lemma {:induction false} AckAllLighter(w: Window, acks: seq<AckNotice>)
    requires Sane(w)
    ensures Sane(AckAll(w, acks)) && AckAll(w, acks).size <= w.size && AckAll(w, acks).limit == w.limit
    ensures AckAll(w, acks).outgoing.Keys <= w.outgoing.Keys
  {
    AckAllKeeps(w, acks);
    if acks == [] {
    } else {
      var init, last := acks[..|acks| - 1], acks[|acks| - 1];
      AckAllLighter(w, init);
      var before := AckAll(w, init);
      if Matches(before, last.k, last.id) {
        RemoveKeeps(before.(rto := NextRto(before.rto, last.now - before.outgoing[last.k].lastSent)), last.k);
      }
    }
  }

  // An open adapter with room for `more` bytes, whose frames are numbered below next.
  ghost predicate Roomy(s: Side, next: int, more: nat) {
    !s.closed && Sane(s.w) && s.w.size + more <= s.w.limit && forall k :: k in s.w.outgoing ==> k < next
  }

  lemma RoomAtOnce(s: Side, k: nat, frame: bytes, turn: Turn, more: nat)
    requires Roomy(s, k, |frame| + more) && k <= MAX_INT64 && !turn.during.closes
    ensures Admits(s, turn.wakes, |frame|)
    ensures Roomy(Through(s, k, frame, turn), k + 1, more)
  {
    hide Accounted, WithinLimit, AckAll, AckedIn;
    NotWoken(s, turn.wakes);
    AfterNoWakes(s.w, turn.wakes);
    assert LetsIn(s, turn.wakes, |frame|, 0);
    ThroughAt(s, k, frame, turn, 0);
    AddKeeps(s.w, k, turn.stamp.id, frame, turn.now);
    AckAllLighter(Add(s.w, k, turn.stamp.id, frame, turn.now), turn.during.acks);
  }

  // The bytes of the frames from chunk n on.
  function StillToSend(segs: seq<bytes>, n: nat): nat
    requires n <= |segs|
  {
    FrameBytesUpTo(segs, n);
    FrameBytes(segs) - FrameBytes(segs[..n])
  }

  lemma StillToSendOneLess(segs: seq<bytes>, n: nat)
    requires n < |segs|
    ensures StillToSend(segs, n) == TOTAL_HEADER_LEN + |segs[n]| + StillToSend(segs, n + 1)
    ensures StillToSend(segs, 0) == FrameBytes(segs)
  {
    FrameBytesUpTo(segs, n);
    assert segs[..0] == [];
  }

  // The gate, the transport and Close leave the turns alone.
  ghost predicate Unhindered(turns: nat -> Turn, n: nat) {
    forall i: nat :: i < n ==> turns(i).admitted && turns(i).sent && !turns(i).during.closes
  }

  lemma RoomStays(s: Side, sha: Hash, segs: seq<bytes>, first: nat, turns: nat -> Turn, n: nat)
    requires n < |segs| && first + |segs| <= MAX_INT64
    requires Roomy(SideAt(s, sha, segs, first, turns, n), first + n, StillToSend(segs, n))
    requires turns(n).admitted && turns(n).sent && !turns(n).during.closes
    ensures Roomy(SideAt(s, sha, segs, first, turns, n + 1), first + n + 1, StillToSend(segs, n + 1))
    ensures ChunkGetsThrough(s, sha, segs, first, turns, n)
  {
    var frame := ChunkFrame(sha, segs[n], first + n, turns(n).stamp);
    assert SideAt(s, sha, segs, first, turns, n + 1)
        == Through(SideAt(s, sha, segs, first, turns, n), first + n, frame, turns(n));
    hide Roomy, Through, Admits, ChunkFrame, StillToSend, SideAt;
    StillToSendOneLess(segs, n);
    FrameLength(sha, segs[n], first + n, turns(n).stamp);
    RoomAtOnce(SideAt(s, sha, segs, first, turns, n), first + n, frame, turns(n), StillToSend(segs, n + 1));
  }

  lemma {:induction false} RoomAllAlong(s: Side, sha: Hash, segs: seq<bytes>, first: nat, turns: nat -> Turn, n: nat)
    requires n <= |segs| && first + |segs| <= MAX_INT64
    requires Roomy(s, first, StillToSend(segs, 0)) && Unhindered(turns, |segs|)
    ensures Roomy(SideAt(s, sha, segs, first, turns, n), first + n, StillToSend(segs, n))
    ensures AllGetThrough(s, sha, segs, first, turns, n)
  {
    if n == 0 {
      hide Roomy, ChunkGetsThrough, StillToSend, Through, Unhindered;
    } else {
      hide Roomy, ChunkGetsThrough, AllGetThrough, StillToSend, SideAt;
      RoomAllAlong(s, sha, segs, first, turns, n - 1);
      RoomStays(s, sha, segs, first, turns, n - 1);
      OneMoreThrough(s, sha, segs, first, turns, n - 1);
    }
  }

  lemma StoppedShort(s: Side, sha: Hash, segs: seq<bytes>, first: nat, turns: nat -> Turn, sent: nat,
                     err: WriteError)
    requires first + |segs| <= MAX_INT64 && Outcome(s, sha, segs, first, turns, sent, err) && sent < |segs|
    ensures !ChunkGetsThrough(s, sha, segs, first, turns, sent)
  {
    hide SideAt, Admits;
  }

  // On an open adapter, with room for all its frames, a Write whose every chunk passes the
  // gate and is written succeeds, whatever is acknowledged meanwhile.
  lemma SucceedsWithRoom(s: Side, sha: Hash, segs: seq<bytes>, first: nat, turns: nat -> Turn, sent: nat,
                         err: WriteError)
    requires first + |segs| <= MAX_INT64 && Outcome(s, sha, segs, first, turns, sent, err)
    requires !s.closed && Accounted(s.w) && 0 <= s.w.size && s.w.size + FrameBytes(segs) <= s.w.limit
    requires forall k :: k in s.w.outgoing ==> k < first
    requires Unhindered(turns, |segs|)
    ensures err == NoError && sent == |segs|
  {
    hide Accounted, SideAt, Admits, ChunkGetsThrough, Unhindered;
    assert StillToSend(segs, 0) == FrameBytes(segs) by {
      assert segs[..0] == [];
    }
    RoomAllAlong(s, sha, segs, first, turns, |segs|);
    if sent < |segs| {
      StoppedShort(s, sha, segs, first, turns, sent, err);
    }
  }

  lemma ClosedStaysOut(s: Side, wakes: seq<Wake>, need: nat)
    requires s.closed
    ensures !Admits(s, wakes, need)
  {
  }

  // On a closed adapter no Write sends anything: it stops at its first chunk.
  lemma FailsWhenClosed(s: Side, sha: Hash, segs: seq<bytes>, first: nat, turns: nat -> Turn, sent: nat,
                        err: WriteError)
    requires first + |segs| <= MAX_INT64 && Outcome(s, sha, segs, first, turns, sent, err)
    requires s.closed && segs != []
    ensures sent == 0 && err == if turns(0).admitted then NotTracked else NotAdmitted
  {
    ClosedStaysOut(s, turns(0).wakes, TOTAL_HEADER_LEN + |segs[0]|);
    assert SideAt(s, sha, segs, first, turns, 0) == s;
    assert !ChunkGetsThrough(s, sha, segs, first, turns, 0);
    hide SideAt, Admits, ChunkGetsThrough;
  }
}
