// How often and for how long one frame is retransmitted, over every run of the channel.
module Budget {
  import opened Common
  import opened Bytes
  import opened Message
  import opened Window
  import opened Reorder
  import opened Segmentation
  import opened Channel
  import opened EndToEnd

  // How many frames on the wire carry number k.
  ghost function Copies(wire: seq<bytes>, k: int): nat {
    if wire == [] then 0
    else
      var rest, last := wire[..|wire| - 1], wire[|wire| - 1];
      Copies(rest, k) + if HasNumber(last, k) then 1 else 0
  }

  function Min(a: int, b: int): int {
    if a < b then a else b
  }

  // Number k has yet to enter the window.
  predicate Unborn(s: System, k: int) {
    k >= s.base + |s.slots| || (k == s.base + |s.slots| - 1 && LastIs(s, Claimed))
  }

  // Copies the writer may still make before the next resume: a broken write has to wait
  // for one.
  predicate WriterMaySend(s: System, k: int) {
    || Unborn(s, k)
    || (k == s.base + |s.slots| - 1
        && (LastIs(s, Sending) || (LastIs(s, Tracked) && !s.down && !s.closed)))
  }

  predicate LoopHasNumber(s: System, k: int) {
    (s.loop.Calling? || s.loop.Writing?) && s.loop.k == k
  }

  predicate LoopMaySend(s: System, k: int) {
    LoopHasNumber(s, k) && (s.loop.Writing? || (!s.down && !s.closed))
  }

  // Resends of number k still allowed before the next resume.
  function ResendsLeft(s: System, k: int): nat {
    if k in s.window.outgoing then MAX_RESENDS - Min(s.window.outgoing[k].resends, MAX_RESENDS)
    else if Unborn(s, k) then MAX_RESENDS
    else 0
  }

  // The most copies of number k that can follow before the next resume.
  function Allowance(s: System, k: int): nat {
    Bit(WriterMaySend(s, k)) + Bit(LoopMaySend(s, k)) + ResendsLeft(s, k)
  }

  ghost predicate LateEnough(e: Entry, first: int) {
    e.lastSent >= first + (Min(e.resends, MAX_RESENDS) - 1) * (SECOND + 1)
  }

  // Only the oldest frame has been resent, and each resend waited more than a second
  // after the one before. first: when a frame was first resent, since the last resume.
  ghost predicate Paced(w: Window, first: map<int, int>) {
    forall k :: k in w.outgoing ==>
      if w.outgoing[k].resends == 0 then k !in first
      else k == w.oldest && k in first && LateEnough(w.outgoing[k], first[k])
  }

  // Only numbers that were tracked have a first resend on record.
  ghost predicate Recorded(s: System) {
    forall k :: k in s.firstResend ==> Numbers(s, k) && MayBeOnWire(At(s, k).fate)
  }

  // ----- pacing, one window operation at a time -----

  lemma PacedAck(w: Window, first: map<int, int>, k: int, id: Uuid, now: int)
    requires Accounted(w) && Paced(w, first)
    ensures Paced(Ack(w, k, id, now), first) && Paced(Drop(w, k, id), first)
  {
    hide Sum;
    if Matches(w, k, id) {
      RemoveKeeps(w, k);
      RemoveKeeps(w.(rto := NextRto(w.rto, now - w.outgoing[k].lastSent)), k);
    }
  }

  lemma PacedAdd(w: Window, first: map<int, int>, k: int, id: Uuid, data: bytes, now: int)
    requires Accounted(w) && Paced(w, first) && 0 <= k && k !in first
    requires forall j :: j in w.outgoing ==> j < k
    ensures Paced(Add(w, k, id, data, now), first)
  {
    hide Sum;
    if w.outgoing != map[] {
      assert w.oldest in w.outgoing;
    }
  }

  lemma PacedMarked(w: Window, now: int)
    ensures Paced(Marked(w, now), map[])
  {
  }

  lemma PacedTick(w: Window, first: map<int, int>, now: int)
    requires Accounted(w) && Paced(w, first)
    ensures var (w', action) := Tick(w, now);
            match action
            case Again(k, data) => Paced(w', if k in first then first else first[k := now])
            case _ => Paced(w', first)
  {
    hide Sum;
  }

  // The resend limit is reached only after 60 resends and more than 60 s after the first.
  lemma GiveUpIsLate(w: Window, first: map<int, int>, now: int)
    requires Accounted(w) && Paced(w, first)
    ensures Tick(w, now).1.GiveUp? ==>
              && w.oldest in w.outgoing && w.outgoing[w.oldest].resends >= MAX_RESENDS
              && w.oldest in first && now - first[w.oldest] > 60 * SECOND
  {
    hide Sum;
  }

  // Steps that change no timer of a tracked frame.
  predicate TouchesWindow(step: Step) {
    step.Track? || step.Fail? || step.Break? || step.AckArrives? || step.LoopTake? || step.Resume?
  }

  lemma WindowElsewhere(sha: Hash, s: System, step: Step)
    requires !TouchesWindow(step)
    ensures Next(sha, s, step).window == s.window && Next(sha, s, step).firstResend == s.firstResend
  {
    hide Encode, Decode, NewInputMessage, Handle, Note, HasRoom;
  }

  ghost predicate PacedState(s: System) {
    Paced(s.window, s.firstResend)
  }

  lemma PacedDrop(s: System)
    requires Accounted(s.window) && Paced(s.window, s.firstResend)
    ensures s.slots != [] ==> Paced(DropLast(s), s.firstResend)
  {
    if s.slots != [] {
      var n := |s.slots| - 1;
      PacedAck(s.window, s.firstResend, s.base + n, s.slots[n].msg.header.messageId, 0);
    }
  }

  lemma PacedDropStep(sha: Hash, s: System, step: Step)
    requires Accounted(s.window) && PacedState(s) && (step.Fail? || step.Break?)
    ensures PacedState(Next(sha, s, step))
  {
    hide Paced, Accounted, Encode, DropLast;
    PacedDrop(s);
  }

  lemma PacedTimerStep(sha: Hash, s: System, step: Step)
    requires Accounted(s.window) && PacedState(s) && (step.AckArrives? || step.LoopTake? || step.Resume?)
    ensures PacedState(Next(sha, s, step))
  {
    hide Paced, Accounted, Tick, Marked, Ack;
    match step
    case AckArrives(ack, now) =>
      if ack < |s.acks| {
        PacedAck(s.window, s.firstResend, s.acks[ack].k, s.acks[ack].id, now);
      }
    case LoopTake(now) => PacedTick(s.window, s.firstResend, now);
    case Resume(now) => PacedMarked(s.window, now);
  }

  lemma PacedTrack(sha: Hash, s: System, now: int)
    requires Inv(sha, s) && Paced(s.window, s.firstResend) && Recorded(s)
    ensures PacedState(Next(sha, s, Track(now)))
  {
    hide Encode, Decode, Sealed, Describes, WithinLimit, NewInputMessage, WireHolds, ArrivedHolds, Covered, LoopHolds,
         WellNumbered, OneWriter, Accounted, Paced, Add, AcksHold, HasRoom;
    if LastIs(s, Claimed) {
      LastNotTracked(sha, s);
      var n := |s.slots| - 1;
      assert At(s, s.base + n) == s.slots[n];
      PacedAdd(s.window, s.firstResend, s.base + n, s.slots[n].msg.header.messageId, LastFrame(sha, s), now);
    }
  }

  // A number that may be on the wire goes on being one.
  lemma NextFixesWire(sha: Hash, s: System, step: Step)
    ensures var s' := Next(sha, s, step);
            |s.slots| <= |s'.slots|
            && forall i :: 0 <= i < |s.slots| && MayBeOnWire(s.slots[i].fate) ==> MayBeOnWire(s'.slots[i].fate)
  {
    hide Encode, Decode, NewInputMessage, Ack, DropLast, Add, Marked, Tick, Handle, Note, HasRoom;
  }

  lemma FirstResendGrowsBy(sha: Hash, s: System, step: Step)
    requires Accounted(s.window)
    ensures forall k :: k in Next(sha, s, step).firstResend ==> k in s.firstResend || k in s.window.outgoing
  {
    hide Encode, Ack, DropLast, Add, Marked, HasRoom, Accounted, Tick;
    if !TouchesWindow(step) {
      WindowElsewhere(sha, s, step);
      hide Next;
    } else if step.LoopTake? {
      TimersOnly(s.window, step.now);
    }
  }

  lemma RecordedNext(sha: Hash, s: System, step: Step)
    requires Inv(sha, s) && Recorded(s)
    ensures Recorded(Next(sha, s, step))
  {
    hide Next, Encode, Describes, Accounted, WithinLimit, WireHolds, ArrivedHolds, Covered, LoopHolds, WellNumbered,
         OneWriter, AcksHold;
    var s' := Next(sha, s, step);
    NextFixesWire(sha, s, step);
    NextFixes(sha, s, step);
    FirstResendGrowsBy(sha, s, step);
    forall k | k in s'.firstResend ensures Numbers(s', k) && MayBeOnWire(At(s', k).fate) {
      if k in s.firstResend {
        assert Numbers(s, k) && MayBeOnWire(At(s, k).fate);
      } else {
        assert k in s.window.outgoing;
      }
    }
  }

  lemma PacingNext(sha: Hash, s: System, step: Step)
    requires Inv(sha, s) && PacedState(s) && Recorded(s)
    ensures PacedState(Next(sha, s, step)) && Recorded(Next(sha, s, step))
  {
    RecordedNext(sha, s, step);
    Balanced(sha, s);
    hide Inv, Next, Paced, Recorded, Accounted;
    if !TouchesWindow(step) {
      WindowElsewhere(sha, s, step);
    } else if step.Track? {
      PacedTrack(sha, s, step.now);
    } else if step.Fail? || step.Break? {
      PacedDropStep(sha, s, step);
    } else {
      PacedTimerStep(sha, s, step);
    }
  }

  // ----- copies -----

  lemma CopiesMore(wire: seq<bytes>, frame: bytes, k: int)
    ensures Copies(wire + [frame], k)
            == Copies(wire, k) + if HasNumber(frame, k) then 1 else 0
  {
    hide Decode;
    assert (wire + [frame])[..|wire|] == wire;
  }

  // What the step itself puts on the wire for number k.
  predicate Emits(s: System, step: Step, k: int) {
    || ((step == Transmit || step == Break(true)) && LastIs(s, Sending) && k == s.base + |s.slots| - 1)
    || ((step == LoopSend || step == LoopBreak(true)) && s.loop.Writing? && k == s.loop.k)
  }

  lemma WireExactly(sha: Hash, s: System, step: Step)
    ensures var s' := Next(sha, s, step);
            if (step == Transmit || step == Break(true)) && LastIs(s, Sending)
            then s'.wire == s.wire + [LastFrame(sha, s)]
            else if (step == LoopSend || step == LoopBreak(true)) && s.loop.Writing?
            then s'.wire == s.wire + [s.loop.data]
            else s'.wire == s.wire
  {
    hide Encode, Decode, NewInputMessage, Ack, Drop, Add, Marked, Tick, Handle, Note, HasRoom;
  }

  lemma CopiesNext(sha: Hash, s: System, step: Step, k: int)
    requires Inv(sha, s)
    ensures Copies(Next(sha, s, step).wire, k) == Copies(s.wire, k) + Bit(Emits(s, step, k))
  {
    hide Inv, Next, Copies, HasNumber;
    WireExactly(sha, s, step);
    FrameNumbers(sha, s);
    if s.slots != [] {
      CopiesMore(s.wire, LastFrame(sha, s), k);
    }
    if s.loop.Writing? {
      CopiesMore(s.wire, s.loop.data, k);
    }
  }

  // What a step other than a resume does to the window's entry for number k.
  ghost predicate EntryMoves(s: System, s': System, step: Step, k: int) {
    k in s'.window.outgoing ==>
      if k in s.window.outgoing then s'.window.outgoing[k].resends >= s.window.outgoing[k].resends
      else step.Track? && Unborn(s, k) && s'.window.outgoing[k].resends == 0
  }

  lemma EntryTracked(sha: Hash, s: System, step: Step, k: int)
    requires Inv(sha, s) && step.Track?
    ensures EntryMoves(s, Next(sha, s, step), step, k)
  {
    hide Inv, Encode, HasRoom;
    if LastIs(s, Claimed) {
      LastNotTracked(sha, s);
    }
  }

  lemma DropTakes(s: System)
    requires Accounted(s.window)
    ensures s.slots != [] ==> forall k :: k in DropLast(s).outgoing ==>
              k in s.window.outgoing && DropLast(s).outgoing[k] == s.window.outgoing[k]
  {
    if s.slots != [] {
      AckKeeps(s.window, s.base + |s.slots| - 1, s.slots[|s.slots| - 1].msg.header.messageId, 0);
    }
  }

  // A turn of the loop pays for its copy with the resend count.
  lemma TickPays(w: Window, now: int)
    requires Accounted(w)
    ensures var (w', action) := Tick(w, now);
            && w'.outgoing.Keys == w.outgoing.Keys
            && (forall k :: k in w.outgoing ==> w'.outgoing[k].resends >= w.outgoing[k].resends)
            && (action.Again? ==>
                  && w.oldest in w.outgoing && action.seqNo == w.oldest
                  && w'.outgoing[w.oldest].resends == w.outgoing[w.oldest].resends + 1 <= MAX_RESENDS)
  {
    TimersOnly(w, now);
  }

  lemma EntryTimed(sha: Hash, s: System, step: Step, k: int)
    requires Accounted(s.window) && (step.Fail? || step.Break? || step.AckArrives? || step.LoopTake?)
    ensures EntryMoves(s, Next(sha, s, step), step, k)
  {
    hide Encode, Accounted, Tick, Ack, Drop, DropLast;
    match step
    case AckArrives(ack, now) =>
      if ack < |s.acks| {
        AckKeeps(s.window, s.acks[ack].k, s.acks[ack].id, now);
      }
    case LoopTake(now) => TickPays(s.window, now);
    case _ => DropTakes(s);
  }

  lemma EntryNext(sha: Hash, s: System, step: Step, k: int)
    requires Inv(sha, s) && !step.Resume?
    ensures EntryMoves(s, Next(sha, s, step), step, k)
  {
    Balanced(sha, s);
    hide Inv, Next, Accounted;
    if !TouchesWindow(step) {
      WindowElsewhere(sha, s, step);
    } else if step.Track? {
      EntryTracked(sha, s, step, k);
    } else {
      EntryTimed(sha, s, step, k);
    }
  }

  lemma NoneBorn(sha: Hash, s: System, step: Step, k: int)
    ensures Unborn(Next(sha, s, step), k) ==> Unborn(s, k)
  {
    hide Encode, Decode, NewInputMessage, Marked, Handle, Note, HasRoom, Tick, Ack, Drop, Add;
  }

  lemma TrackedIsBorn(s: System, k: int)
    requires Numbers(s, k) && Live(At(s, k).fate)
    ensures !Unborn(s, k)
  {
  }

  lemma UnbornNext(sha: Hash, s: System, step: Step, k: int)
    requires Inv(sha, s)
    ensures var s' := Next(sha, s, step);
            Unborn(s', k) ==> Unborn(s, k) && k !in s.window.outgoing
  {
    NoneBorn(sha, s, step, k);
    hide Next, Unborn, Accounted, WithinLimit, WellNumbered, OneWriter, WireHolds, ArrivedHolds, Covered, LoopHolds,
         AcksHold, Describes, Encode;
    if k in s.window.outgoing {
      assert Numbers(s, k) && Live(At(s, k).fate);
      TrackedIsBorn(s, k);
    }
  }

  lemma LeftNext(sha: Hash, s: System, step: Step, k: int)
    requires Inv(sha, s) && !step.Resume?
    ensures ResendsLeft(Next(sha, s, step), k) <= ResendsLeft(s, k)
    ensures Unborn(Next(sha, s, step), k) ==> Unborn(s, k)
  {
    EntryNext(sha, s, step, k);
    UnbornNext(sha, s, step, k);
    hide Inv, Next, Unborn;
  }

  lemma WriterNextPays(sha: Hash, s: System, step: Step, k: int)
    requires !step.Resume?
    ensures var s' := Next(sha, s, step);
            var sends := (step == Transmit || step == Break(true)) && LastIs(s, Sending) && k == s.base + |s.slots| - 1;
            Bit(WriterMaySend(s', k)) + Bit(sends) <= Bit(WriterMaySend(s, k))
  {
    hide Encode, Decode, NewInputMessage, Marked, Handle, Note, HasRoom, Tick, Ack, Drop, Add;
  }

  lemma LoopNextPays(sha: Hash, s: System, step: Step, k: int)
    requires !step.Resume? && !step.LoopTake?
    ensures var s' := Next(sha, s, step);
            var sends := (step == LoopSend || step == LoopBreak(true)) && s.loop.Writing? && k == s.loop.k;
            Bit(LoopMaySend(s', k)) + Bit(sends) <= Bit(LoopMaySend(s, k))
  {
    hide Encode, Decode, NewInputMessage, Marked, Handle, Note, HasRoom, Tick, Ack, Drop, Add;
  }

  lemma TakeIs(sha: Hash, s: System, now: int)
    ensures var s' := Next(sha, s, LoopTake(now));
            var (w, action) := Tick(s.window, now);
            || s' == s
            || (s.loop == Checked && action.Again? && s'.window == w && s'.loop == Calling(action.seqNo, action.data))
            || (!s'.loop.Calling? && !s'.loop.Writing?)
  {
    hide Tick;
  }

  lemma TakenPays(s: System, s': System, now: int, k: int)
    requires s.loop == Checked && Tick(s.window, now).1.Again?
    requires s'.window == Tick(s.window, now).0 && s'.loop == Calling(s.window.oldest, Tick(s.window, now).1.data)
    requires s.window.oldest in s.window.outgoing && s.window.oldest in s'.window.outgoing
    requires s'.window.outgoing[s.window.oldest].resends
             == s.window.outgoing[s.window.oldest].resends + 1 <= MAX_RESENDS
    requires ResendsLeft(s', k) <= ResendsLeft(s, k)
    ensures Bit(LoopMaySend(s', k)) + ResendsLeft(s', k) <= ResendsLeft(s, k)
  {
    hide Tick, Unborn;
  }

  lemma TakePays(sha: Hash, s: System, now: int, k: int)
    requires Inv(sha, s)
    ensures var s' := Next(sha, s, LoopTake(now));
            Bit(LoopMaySend(s', k)) + ResendsLeft(s', k) <= Bit(LoopMaySend(s, k)) + ResendsLeft(s, k)
  {
    LeftNext(sha, s, LoopTake(now), k);
    Balanced(sha, s);
    TickPays(s.window, now);
    TakeIs(sha, s, now);
    hide Inv, Next, Tick, Accounted, Unborn, ResendsLeft;
    var s' := Next(sha, s, LoopTake(now));
    if s' != s && s'.loop.Calling? {
      TakenPays(s, s', now, k);
    }
  }

  // Every step other than a resume pays for the copies it makes.
  lemma BudgetNext(sha: Hash, s: System, step: Step, k: int)
    requires Inv(sha, s) && !step.Resume?
    ensures var s' := Next(sha, s, step);
            Copies(s'.wire, k) + Allowance(s', k) <= Copies(s.wire, k) + Allowance(s, k)
  {
    hide Inv, Next, Copies, WriterMaySend, LoopMaySend, ResendsLeft;
    CopiesNext(sha, s, step, k);
    WriterNextPays(sha, s, step, k);
    LeftNext(sha, s, step, k);
    if step.LoopTake? {
      TakePays(sha, s, step.now, k);
    } else {
      LoopNextPays(sha, s, step, k);
    }
  }

  // A resume makes no copy, and allows at most 62.
  lemma ResumeAllows(sha: Hash, s: System, now: int, k: int)
    ensures var s' := Next(sha, s, Resume(now));
            s'.wire == s.wire && (s'.resumes == s.resumes + 1 || s' == s) && Allowance(s', k) <= MAX_RESENDS + 2
  {
    hide Marked;
  }

  lemma ResumesCount(sha: Hash, s: System, step: Step)
    ensures !step.Resume? ==> Next(sha, s, step).resumes == s.resumes
  {
    hide Encode, Decode, NewInputMessage, Marked, Handle, Note, HasRoom, Tick, Ack, Drop, Add;
  }

  lemma BudgetStart(sha: Hash, base: nat, limit: nat, k: int)
    ensures var s := Init(base, limit);
            Copies(s.wire, k) == 0 && Allowance(s, k) <= MAX_RESENDS + 1
  {
  }

  lemma {:induction false} BudgetRun(sha: Hash, base: nat, limit: nat, steps: seq<Step>, k: int)
    requires base <= MAX_INT64
    ensures var s := Run(sha, Init(base, limit), steps);
            Copies(s.wire, k) + Allowance(s, k) <= MAX_RESENDS + 1 + (MAX_RESENDS + 2) * s.resumes
  {
    hide Inv, Next, Copies, Allowance;
    if steps == [] {
      BudgetStart(sha, base, limit, k);
    } else {
      var s := Run(sha, Init(base, limit), steps[..|steps| - 1]);
      var step := steps[|steps| - 1];
      BudgetRun(sha, base, limit, steps[..|steps| - 1], k);
      Reachable(sha, base, limit, steps[..|steps| - 1]);
      hide Run;
      ResumesCount(sha, s, step);
      if step.Resume? {
        ResumeAllows(sha, s, step.now, k);
      } else {
        BudgetNext(sha, s, step, k);
      }
    }
  }

  lemma PacingStart(base: nat, limit: nat)
    ensures PacedState(Init(base, limit)) && Recorded(Init(base, limit))
  {
  }

  lemma {:induction false} PacingRun(sha: Hash, base: nat, limit: nat, steps: seq<Step>)
    requires base <= MAX_INT64
    ensures var s := Run(sha, Init(base, limit), steps);
            Inv(sha, s) && PacedState(s) && Recorded(s)
  {
    hide Inv, Next, Paced, Recorded;
    Reachable(sha, base, limit, steps);
    if steps == [] {
      PacingStart(base, limit);
    } else {
      PacingRun(sha, base, limit, steps[..|steps| - 1]);
      PacingNext(sha, Run(sha, Init(base, limit), steps[..|steps| - 1]), steps[|steps| - 1]);
    }
  }

  lemma AllowanceAtMost(s: System, k: int)
    ensures Allowance(s, k) <= 1 + MAX_RESENDS + Bit(LoopHasNumber(s, k))
  {
  }

  // Between resumes: from any reachable state at most 61 more copies of a number go out,
  // and one more only when the loop already has it in writeRaw, retrying after a resume.
  lemma {:induction false} StretchBudget(sha: Hash, s: System, steps: seq<Step>, k: int)
    requires Inv(sha, s) && forall step :: step in steps ==> !step.Resume?
    ensures var s' := Run(sha, s, steps);
            && Copies(s'.wire, k) + Allowance(s', k) <= Copies(s.wire, k) + Allowance(s, k)
            && Copies(s'.wire, k) - Copies(s.wire, k) <= 1 + MAX_RESENDS + Bit(LoopHasNumber(s, k))
  {
    hide Inv, Next, Copies;
    if steps == [] {
    } else {
      hide Allowance;
      StretchBudget(sha, s, steps[..|steps| - 1], k);
      RunKeeps(sha, s, steps[..|steps| - 1]);
      BudgetNext(sha, Run(sha, s, steps[..|steps| - 1]), steps[|steps| - 1], k);
      AllowanceAtMost(s, k);
    }
  }

  // Every copy of a number is the same byte string.
  ghost predicate OneFramePerNumber(wire: seq<bytes>) {
    forall a, b, k :: a in wire && b in wire && HasNumber(a, k) && HasNumber(b, k) ==> a == b
  }

  lemma CopiesAgree(sha: Hash, s: System)
    requires Inv(sha, s)
    ensures OneFramePerNumber(s.wire)
  {
    hide Encode, Decode, Sealed, Describes, WithinLimit, NewInputMessage, ArrivedHolds, Covered, WindowHolds,
         WellNumbered, OneWriter, Accounted;
    forall a, b, k | a in s.wire && b in s.wire && HasNumber(a, k) && HasNumber(b, k) ensures a == b {
      assert Genuine(sha, s, a) && Genuine(sha, s, b);
    }
  }

  // In every run: at most 61 copies of a number before the first resume and 62 for each
  // resume, all the same bytes; only the oldest frame has been resent; and the resend limit
  // is hit only more than 60 s after that frame's first resend.
  lemma RetransmissionBudget(sha: Hash, base: nat, limit: nat, steps: seq<Step>, now: int)
    requires base <= MAX_INT64
    ensures var s := Run(sha, Init(base, limit), steps);
            && (forall k :: Copies(s.wire, k) <= 1 + MAX_RESENDS + (2 + MAX_RESENDS) * s.resumes)
            && OneFramePerNumber(s.wire)
            && (forall k :: k in s.window.outgoing && s.window.outgoing[k].resends > 0 ==> k == s.window.oldest)
            && (Tick(s.window, now).1.GiveUp? ==>
                  s.window.oldest in s.firstResend && now - s.firstResend[s.window.oldest] > 60 * SECOND)
  {
    hide Run, Copies, HasNumber, Accounted, Tick, Allowance;
    var s := Run(sha, Init(base, limit), steps);
    PacingRun(sha, base, limit, steps);
    CopiesAgree(sha, s);
    forall k ensures Copies(s.wire, k) <= 1 + MAX_RESENDS + (2 + MAX_RESENDS) * s.resumes {
      BudgetRun(sha, base, limit, steps, k);
    }
    GiveUpIsLate(s.window, s.firstResend, now);
  }
}
