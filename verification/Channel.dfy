// One writer, its retransmission loop, a network that loses, repeats and reorders, and a
// receiver with the adapter's own reorder rule, as a step system. Every check, locked
// section and transport write of the loop is a step of its own. A WebSocket resume is one
// more step: it keeps the numbers, the window and the reorder buffer.
module Channel {
  import opened Common
  import opened Bytes
  import opened Message
  import opened Window
  import opened Reorder
  import opened Segmentation

  const MAX_PAUSE := 45 * SECOND

  // What became of a number: Claimed by the writer, then Tracked in the window and on its
  // way through writeRaw, Sending while the transport has the frame, then Sent; Refused
  // when tracking failed; Dropped when its transmission failed.
  datatype Fate = Claimed | Tracked | Sending | Sent | Refused | Dropped

  datatype Slot = Slot(msg: AgentMessage, fate: Fate)

  datatype AckMsg = AckMsg(k: int, id: Uuid)

  // The resend loop between two ticks; past its look at reconnecting; past its look at
  // paused; in writeRaw with a frame; with the transport; over.
  datatype Loop = Waiting | Looked | Checked | Calling(k: int, data: bytes) | Writing(k: int, data: bytes) | Ended

  // base is the first data number; slot i has number base + i. down: a reconnect is under
  // way. wire holds every frame ever transmitted and acks every acknowledgement ever sent:
  // delivering one of them any number of times, in any order, or never, is up to the
  // network. inHand is the message the receiver has acknowledged and not yet processed,
  // arrived what it has processed. firstResend and resumes record the retransmission.
  datatype System = System(
    base: nat,
    slots: seq<Slot>,
    window: Window,
    paused: bool,
    pausedSince: int,
    closed: bool,
    down: bool,
    loop: Loop,
    wire: seq<bytes>,
    acks: seq<AckMsg>,
    inHand: Option<AgentMessage>,
    receiver: Receiver,
    clock: int,
    arrived: Arrived,
    firstResend: map<int, int>,
    resumes: nat)

  datatype Step =
    // the writer
    | Claim(payload: bytes, stamp: Stamp)
    | Track(now: int)
    | Refuse
    | Begin
    | Transmit
    | Break(leaked: bool)
    | Fail
    // the network and the receiver
    | Deliver(frame: nat)
    | Process
    | AckArrives(ack: nat, now: int)
    | Pause(now: int)
    | Publish
    // the resend loop
    | LoopLook
    | LoopCheck(now: int)
    | LoopTake(now: int)
    | LoopBegin
    | LoopSend
    | LoopBreak(leaked: bool)
    | LoopFail
    | LoopDone
    // the transport
    | Lose
    | Resume(now: int)
    | Close

  function Init(base: nat, limit: nat): System {
    System(base, [], EmptyWindow(limit), false, 0, false, false, Waiting, [], [], None, Start(base), 0, map[], map[], 0)
  }

  predicate UnderWay(fate: Fate) {
    fate == Claimed || fate == Tracked || fate == Sending
  }

  predicate IsIdle(s: System) {
    s.slots == [] || !UnderWay(s.slots[|s.slots| - 1].fate)
  }

  predicate LastIs(s: System, fate: Fate) {
    s.slots != [] && s.slots[|s.slots| - 1].fate == fate
  }

  function SetLast(s: System, fate: Fate): seq<Slot>
    requires s.slots != []
  {
    var n := |s.slots| - 1;
    s.slots[n := s.slots[n].(fate := fate)]
  }

  function LastFrame(sha: Hash, s: System): bytes
    requires s.slots != []
  {
    Encode(sha, s.slots[|s.slots| - 1].msg)
  }

  // The last number's frame leaves the window.
  ghost function DropLast(s: System): Window
    requires s.slots != []
  {
    Drop(s.window, s.base + |s.slots| - 1, s.slots[|s.slots| - 1].msg.header.messageId)
  }

  function Leak(frame: bytes, leaked: bool): seq<bytes> {
    if leaked then [frame] else []
  }

  // Write: past the publication gate it takes a number, tracks the frame and calls
  // writeRaw, which waits out a reconnect and retries after a broken write.
  ghost function WriterNext(sha: Hash, s: System, step: Step): System {
    match step
    case Claim(payload, stamp) =>
      if IsIdle(s) && !s.paused && 0 < |payload| <= DEFAULT_CHUNK && s.base + |s.slots| <= MAX_INT64
      then
        var m := NewInputMessage(payload, s.base + |s.slots|, stamp.id, stamp.created);
        s.(slots := s.slots + [Slot(m, Claimed)])
      else s
    case Track(now) =>
      if LastIs(s, Claimed) && !s.closed && s.clock <= now && HasRoom(s.window, |LastFrame(sha, s)|)
      then
        var n := |s.slots| - 1;
        s.(slots := SetLast(s, Tracked), clock := now,
           window := Add(s.window, s.base + n, s.slots[n].msg.header.messageId, LastFrame(sha, s), now))
      else s
    case Refuse =>
      if LastIs(s, Claimed) && (s.closed || !HasRoom(s.window, |LastFrame(sha, s)|))
      then s.(slots := SetLast(s, Refused))
      else s
    case Begin =>
      if LastIs(s, Tracked) && !s.closed && !s.down then s.(slots := SetLast(s, Sending)) else s
    case Transmit =>
      if LastIs(s, Sending) then s.(slots := SetLast(s, Sent), wire := s.wire + [LastFrame(sha, s)]) else s
    case Break(leaked) =>
      if !LastIs(s, Sending) then s
      else if s.closed
      then s.(slots := SetLast(s, Dropped), window := DropLast(s), wire := s.wire + Leak(LastFrame(sha, s), leaked))
      else s.(slots := SetLast(s, Tracked), down := true, wire := s.wire + Leak(LastFrame(sha, s), leaked))
    case Fail =>
      if LastIs(s, Tracked) && (s.closed || s.down)
      then s.(slots := SetLast(s, Dropped), window := DropLast(s))
      else s
    case _ => s
  }

  // The receiver acknowledges every data message and only then applies the reorder rule.
  ghost function NetworkNext(s: System, step: Step): System {
    match step
    case Deliver(frame) =>
      if s.inHand == None && frame < |s.wire| && Decode(s.wire[frame]).Ok?
      then
        var m := Decode(s.wire[frame]).message;
        s.(acks := s.acks + [AckMsg(SeqOf(m), m.header.messageId)], inHand := Some(m))
      else s
    case Process =>
      if s.inHand.Some?
      then s.(receiver := Handle(s.receiver, s.inHand.value), arrived := Note(s.base, s.arrived, s.inHand.value),
              inHand := None)
      else s
    case AckArrives(ack, now) =>
      if ack < |s.acks| && s.clock <= now
      then s.(window := Ack(s.window, s.acks[ack].k, s.acks[ack].id, now), paused := false, clock := now)
      else s
    case Pause(now) =>
      if s.paused || now < s.clock then s else s.(paused := true, pausedSince := now, clock := now)
    case Publish => s.(paused := false)
    case _ => s
  }

  // One turn of resendLoop looks at reconnecting, then at paused, then takes the oldest
  // frame under the lock, and calls writeRaw. When writeRaw fails the loop is over,
  // although the adapter need not be closed.
  function LoopNext(s: System, step: Step): System {
    match step
    case LoopLook =>
      if s.loop == Waiting && !s.down then s.(loop := Looked) else s
    case LoopCheck(now) =>
      if s.loop != Looked || now < s.clock then s
      else if !s.paused then s.(loop := Checked, clock := now)
      else if now - s.pausedSince > MAX_PAUSE then s.(closed := true, down := false, loop := Ended, clock := now)
      else s.(loop := Waiting, clock := now)
    case LoopTake(now) =>
      if s.loop != Checked || now < s.clock then s
      else
        var (w, action) := Tick(s.window, now);
        (match action
         case Idle => s.(loop := Waiting, clock := now)
         case GiveUp(_) => s.(window := w, closed := true, down := false, loop := Ended, clock := now)
         case Again(k, data) =>
           s.(window := w, loop := Calling(k, data), clock := now,
              firstResend := if k in s.firstResend then s.firstResend else s.firstResend[k := now]))
    case LoopBegin =>
      if s.loop.Calling? && !s.closed && !s.down then s.(loop := Writing(s.loop.k, s.loop.data)) else s
    case LoopSend =>
      if s.loop.Writing? then s.(wire := s.wire + [s.loop.data], loop := Waiting) else s
    case LoopBreak(leaked) =>
      if !s.loop.Writing? then s
      else if s.closed then s.(wire := s.wire + Leak(s.loop.data, leaked), loop := Ended)
      else s.(wire := s.wire + Leak(s.loop.data, leaked), loop := Calling(s.loop.k, s.loop.data), down := true)
    case LoopFail =>
      if s.loop.Calling? && (s.closed || s.down) then s.(loop := Ended) else s
    case LoopDone =>
      if s.loop == Waiting && s.closed then s.(loop := Ended) else s
    case _ => s
  }

  // A resume swaps the transport in, marks the window and ends a pause; the loop that
  // does it may still be running after Close.
  function LinkNext(s: System, step: Step): System {
    match step
    case Lose => if s.closed then s else s.(down := true)
    case Resume(now) =>
      if now < s.clock || !(s.down || s.closed) then s
      else s.(window := Marked(s.window, now), paused := false, down := false, clock := now,
              firstResend := map[], resumes := s.resumes + 1)
    case Close => s.(closed := true, down := false)
    case _ => s
  }

  // A step that is not possible in s leaves it as it is.
  ghost function Next(sha: Hash, s: System, step: Step): System {
    match step
    case Claim(_, _) => WriterNext(sha, s, step)
    case Track(_) => WriterNext(sha, s, step)
    case Refuse => WriterNext(sha, s, step)
    case Begin => WriterNext(sha, s, step)
    case Transmit => WriterNext(sha, s, step)
    case Break(_) => WriterNext(sha, s, step)
    case Fail => WriterNext(sha, s, step)
    case Deliver(_) => NetworkNext(s, step)
    case Process => NetworkNext(s, step)
    case AckArrives(_, _) => NetworkNext(s, step)
    case Pause(_) => NetworkNext(s, step)
    case Publish => NetworkNext(s, step)
    case Lose => LinkNext(s, step)
    case Resume(_) => LinkNext(s, step)
    case Close => LinkNext(s, step)
    case _ => LoopNext(s, step)
  }

  ghost function Run(sha: Hash, s: System, steps: seq<Step>): System {
    if steps == [] then s else Next(sha, Run(sha, s, steps[..|steps| - 1]), steps[|steps| - 1])
  }

  // ----- the invariant -----

  ghost predicate IsStreamMessage(m: AgentMessage, k: int) {
    && -MAX_INT64 <= k <= MAX_INT64
    && 0 < |m.payload| <= DEFAULT_CHUNK
    && m == NewInputMessage(m.payload, k, m.header.messageId, m.header.createdDate)
  }

  // Slot i holds a stream message numbered base + i.
  ghost predicate WellNumbered(base: nat, slots: seq<Slot>) {
    && base + |slots| <= MAX_INT64 + 1
    && forall i :: 0 <= i < |slots| ==> IsStreamMessage(slots[i].msg, base + i)
  }

  // Only the last number can be under way.
  ghost predicate OneWriter(slots: seq<Slot>) {
    forall i :: 0 <= i < |slots| - 1 ==> !UnderWay(slots[i].fate)
  }

  predicate Live(fate: Fate) {
    fate == Tracked || fate == Sending || fate == Sent
  }

  predicate MayBeOnWire(fate: Fate) {
    fate != Claimed && fate != Refused
  }

  ghost predicate Numbers(s: System, k: int) {
    s.base <= k < s.base + |s.slots|
  }

  ghost function At(s: System, k: int): Slot
    requires Numbers(s, k)
  {
    s.slots[k - s.base]
  }

  ghost predicate WindowHolds(sha: Hash, s: System) {
    forall k :: k in s.window.outgoing ==>
      && Numbers(s, k) && Live(At(s, k).fate)
      && s.window.outgoing[k].data == Encode(sha, At(s, k).msg)
      && s.window.outgoing[k].id == At(s, k).msg.header.messageId
  }

  // A frame on the wire is the encoding of the slot whose number it carries.
  ghost predicate Genuine(sha: Hash, s: System, frame: bytes) {
    && Decode(frame).Ok?
    && var k := SeqOf(Decode(frame).message);
       Numbers(s, k) && frame == Encode(sha, At(s, k).msg) && MayBeOnWire(At(s, k).fate)
  }

  ghost predicate WireHolds(sha: Hash, s: System) {
    forall j :: 0 <= j < |s.wire| ==> Genuine(sha, s, s.wire[j])
  }

  // The loop carries the frame of the number it names.
  ghost predicate LoopHolds(sha: Hash, s: System) {
    s.loop.Calling? || s.loop.Writing? ==>
      && Numbers(s, s.loop.k) && MayBeOnWire(At(s, s.loop.k).fate)
      && s.loop.data == Encode(sha, At(s, s.loop.k).msg)
  }

  // m is the message of its number as it comes off the wire.
  ghost predicate OffTheWire(sha: Hash, s: System, m: AgentMessage) {
    Numbers(s, SeqOf(m)) && MayBeOnWire(At(s, SeqOf(m)).fate) && m == Sealed(sha, At(s, SeqOf(m)).msg)
  }

  ghost predicate ArrivedHolds(sha: Hash, s: System) {
    && (forall k :: k in s.arrived ==> SeqOf(s.arrived[k]) == k && OffTheWire(sha, s, s.arrived[k]))
    && (s.inHand.Some? ==> OffTheWire(sha, s, s.inHand.value))
  }

  ghost predicate InHand(s: System, k: int) {
    s.inHand.Some? && SeqOf(s.inHand.value) == k
  }

  // The receiver has number k, processed or about to be.
  ghost predicate Reached(s: System, k: int) {
    k in s.arrived || InHand(s, k)
  }

  ghost predicate AcksHold(s: System) {
    forall j :: 0 <= j < |s.acks| ==> Reached(s, s.acks[j].k)
  }

  // A number that was tracked and is tracked no more has reached the receiver.
  ghost predicate Covered(s: System) {
    forall k :: Numbers(s, k) && Live(At(s, k).fate) && k !in s.window.outgoing ==> Reached(s, k)
  }

  ghost predicate Inv(sha: Hash, s: System) {
    && WellNumbered(s.base, s.slots) && OneWriter(s.slots)
    && Accounted(s.window) && WithinLimit(s.window)
    && WindowHolds(sha, s) && WireHolds(sha, s) && LoopHolds(sha, s)
    && ArrivedHolds(sha, s) && AcksHold(s) && Covered(s)
    && Describes(s.receiver, s.base, s.arrived)
    && (s.closed ==> !s.down)
  }

  lemma Balanced(sha: Hash, s: System)
    requires Inv(sha, s)
    ensures Accounted(s.window)
  {
  }

  lemma StreamMessage(sha: Hash, m: AgentMessage, k: int)
    requires IsStreamMessage(m, k)
    ensures Decode(Encode(sha, m)) == Ok(Sealed(sha, m))
    ensures SeqOf(m) == SeqOf(Sealed(sha, m)) == k
    ensures StreamBytes(Sealed(sha, m)) == m.payload
    ensures Sealed(sha, m).header.messageId == m.header.messageId
  {
    InputRoundTrip(sha, m.payload, k, m.header.messageId, m.header.createdDate);
  }

  // ----- steps that change what the last number's fate is -----

  // Nothing that was true of a number before stops being true.
  ghost predicate Extends(s: System, s': System) {
    && s'.base == s.base
    && |s.slots| <= |s'.slots|
    && (forall i :: 0 <= i < |s.slots| ==> s'.slots[i].msg == s.slots[i].msg)
    && (forall i :: 0 <= i < |s.slots| && MayBeOnWire(s.slots[i].fate) ==> MayBeOnWire(s'.slots[i].fate))
  }

  lemma WireExtends(sha: Hash, s: System, s': System)
    requires Extends(s, s') && WireHolds(sha, s) && ArrivedHolds(sha, s) && LoopHolds(sha, s)
    ensures forall j :: 0 <= j < |s.wire| ==> Genuine(sha, s', s.wire[j])
    ensures s'.arrived == s.arrived && s'.inHand == s.inHand ==> ArrivedHolds(sha, s')
    ensures s'.loop == s.loop ==> LoopHolds(sha, s')
  {
    hide Encode, Decode, Sealed;
    forall j | 0 <= j < |s.wire| ensures Genuine(sha, s', s.wire[j]) {
      assert Genuine(sha, s, s.wire[j]);
      assert Numbers(s', SeqOf(Decode(s.wire[j]).message));
    }
    forall k | k in s.arrived ensures SeqOf(s.arrived[k]) == k && OffTheWire(sha, s', s.arrived[k]) {
      assert OffTheWire(sha, s, s.arrived[k]);
    }
  }

  lemma LastGenuine(sha: Hash, s: System, s': System)
    requires WellNumbered(s.base, s.slots) && s.slots != [] && Extends(s, s') && |s'.slots| == |s.slots|
    requires MayBeOnWire(s'.slots[|s.slots| - 1].fate)
    ensures Genuine(sha, s', LastFrame(sha, s))
  {
    hide Encode, Decode, Sealed, IsStreamMessage;
    var n := |s.slots| - 1;
    StreamMessage(sha, s.slots[n].msg, s.base + n);
    assert Numbers(s', s.base + n) && At(s', s.base + n).msg == s.slots[n].msg;
  }

  lemma NewStreamMessage(payload: bytes, k: int64, stamp: Stamp)
    requires 0 < |payload| <= DEFAULT_CHUNK && 0 <= k
    ensures IsStreamMessage(NewInputMessage(payload, k, stamp.id, stamp.created), k)
    ensures NewInputMessage(payload, k, stamp.id, stamp.created).payload == payload
    ensures NewInputMessage(payload, k, stamp.id, stamp.created).header.messageId == stamp.id
  {
  }

  lemma ClaimKeeps(sha: Hash, s: System, payload: bytes, stamp: Stamp)
    requires Inv(sha, s)
    ensures Inv(sha, Next(sha, s, Claim(payload, stamp)))
  {
    hide Encode, Decode, Sealed, Describes, Accounted, NewInputMessage, ArrivedHolds, LoopHolds;
    var s' := Next(sha, s, Claim(payload, stamp));
    if s' != s {
      WireExtends(sha, s, s');
      NewStreamMessage(payload, s.base + |s.slots|, stamp);
      assert s'.slots[..|s.slots|] == s.slots;
      assert forall k :: Numbers(s, k) ==> At(s', k) == At(s, k);
    }
  }

  // The last number changes its fate, and the window may gain or lose it.
  ghost predicate FateStep(sha: Hash, s: System, fate: Fate, w: Window) {
    && s.slots != []
    && var last := s.slots[|s.slots| - 1];
       var k := s.base + |s.slots| - 1;
       && UnderWay(last.fate)
       && (MayBeOnWire(last.fate) ==> MayBeOnWire(fate))
       && Accounted(w) && WithinLimit(w)
       && w.outgoing - {k} == s.window.outgoing - {k}
       && (k in w.outgoing ==> Live(fate) && w.outgoing[k].data == Encode(sha, last.msg)
                               && w.outgoing[k].id == last.msg.header.messageId)
       && (k !in w.outgoing && Live(fate) ==> Reached(s, k))
  }

  lemma FateWindow(sha: Hash, s: System, fate: Fate, w: Window, s': System)
    requires WindowHolds(sha, s) && Covered(s) && FateStep(sha, s, fate, w)
    requires s' == s.(slots := SetLast(s, fate), window := w)
    ensures WindowHolds(sha, s') && Covered(s')
  {
    hide Encode, Accounted, WithinLimit;
    var last := s.base + |s.slots| - 1;
    forall k | Numbers(s, k) && k != last ensures At(s', k) == At(s, k) {}
    forall k | k in w.outgoing && k != last
      ensures k in s.window.outgoing && s.window.outgoing[k] == w.outgoing[k]
    {
      assert k in w.outgoing - {last};
    }
    forall k | k in s.window.outgoing && k != last ensures k in w.outgoing {
      assert k in s.window.outgoing - {last};
    }
  }

  lemma FateStepKeeps(sha: Hash, s: System, fate: Fate, w: Window, s': System)
    requires Inv(sha, s) && FateStep(sha, s, fate, w)
    requires s' == s.(slots := SetLast(s, fate), window := w)
    ensures Inv(sha, s')
  {
    hide Encode, Decode, Sealed, Describes, Accounted, WithinLimit, NewInputMessage, WindowHolds, Covered,
         ArrivedHolds, LoopHolds;
    FateWindow(sha, s, fate, w, s');
    WireExtends(sha, s, s');
  }

  // A new fate for the last number with the window as it is.
  lemma FateOnly(sha: Hash, s: System, fate: Fate)
    requires Inv(sha, s) && s.slots != [] && Live(s.slots[|s.slots| - 1].fate) && Live(fate)
    requires UnderWay(s.slots[|s.slots| - 1].fate)
    ensures Inv(sha, s.(slots := SetLast(s, fate)))
  {
    hide Encode, Decode, Sealed, Describes, Accounted, WithinLimit, NewInputMessage, WireHolds, ArrivedHolds,
         LoopHolds, WellNumbered, OneWriter, Reached;
    var k := s.base + |s.slots| - 1;
    assert Numbers(s, k) && At(s, k) == s.slots[|s.slots| - 1];
    FateStepKeeps(sha, s, fate, s.window, s.(slots := SetLast(s, fate)));
  }

  // A number that is only claimed has not been tracked yet, and fits in 64 bits.
  lemma LastNotTracked(sha: Hash, s: System)
    requires Inv(sha, s) && LastIs(s, Claimed)
    ensures s.base + |s.slots| - 1 !in s.window.outgoing
    ensures 0 <= s.base + |s.slots| - 1 <= MAX_INT64
  {
    hide Encode, Decode, Sealed, Describes, Accounted, WithinLimit, NewInputMessage;
    var k := s.base + |s.slots| - 1;
    assert Numbers(s, k) && At(s, k).fate == Claimed;
  }

  // A step that touches the window, too: frames that leave have reached the receiver.
  lemma WindowStep(sha: Hash, s: System, s': System)
    requires Inv(sha, s) && LoopHolds(sha, s') && (s'.closed ==> !s'.down)
    requires s' == s.(paused := s'.paused, pausedSince := s'.pausedSince, closed := s'.closed, down := s'.down,
                      loop := s'.loop, clock := s'.clock, firstResend := s'.firstResend, resumes := s'.resumes,
                      window := s'.window)
    requires Accounted(s'.window) && WithinLimit(s'.window)
    requires s'.window.outgoing.Keys <= s.window.outgoing.Keys
    requires forall k :: k in s'.window.outgoing ==>
               && s'.window.outgoing[k].data == s.window.outgoing[k].data
               && s'.window.outgoing[k].id == s.window.outgoing[k].id
    requires forall k :: k in s.window.outgoing && k !in s'.window.outgoing ==> Reached(s, k)
    ensures Inv(sha, s')
  {
    hide Encode, Decode, Sealed, Describes, Accounted, WithinLimit, NewInputMessage, OneWriter, WellNumbered;
    WireExtends(sha, s, s');
    assert forall k :: Numbers(s, k) ==> At(s', k) == At(s, k);
  }

  // A step that touches only clocks, switches and the loop.
  lemma Retimed(sha: Hash, s: System, s': System)
    requires Inv(sha, s) && LoopHolds(sha, s') && (s'.closed ==> !s'.down)
    requires s' == s.(paused := s'.paused, pausedSince := s'.pausedSince, closed := s'.closed, down := s'.down,
                      loop := s'.loop, clock := s'.clock, firstResend := s'.firstResend, resumes := s'.resumes)
    ensures Inv(sha, s')
  {
    hide Encode, Decode, Sealed, Describes, Accounted, WithinLimit, NewInputMessage, OneWriter, WellNumbered;
    WindowStep(sha, s, s');
  }

  lemma LoopElsewhere(sha: Hash, s: System, s': System)
    requires LoopHolds(sha, s) && s'.base == s.base && s'.slots == s.slots
    requires s'.loop == s.loop || (!s'.loop.Calling? && !s'.loop.Writing?)
             || (s.loop.Calling? && s'.loop == Writing(s.loop.k, s.loop.data))
             || (s.loop.Writing? && s'.loop == Calling(s.loop.k, s.loop.data))
    ensures LoopHolds(sha, s')
  {
    hide Encode;
  }

  lemma TrackKeeps(sha: Hash, s: System, now: int)
    requires Inv(sha, s)
    ensures Inv(sha, Next(sha, s, Track(now)))
  {
    hide Encode, Decode, Sealed, Describes, Accounted, WithinLimit, NewInputMessage, WireHolds, ArrivedHolds,
         LoopHolds, WellNumbered, OneWriter, Reached;
    var s' := Next(sha, s, Track(now));
    if s' != s {
      var n := |s.slots| - 1;
      LastNotTracked(sha, s);
      AddKeeps(s.window, s.base + n, s.slots[n].msg.header.messageId, LastFrame(sha, s), now);
      var mid := s'.(clock := s.clock);
      FateStepKeeps(sha, s, Tracked, s'.window, mid);
      LoopElsewhere(sha, mid, s');
      Retimed(sha, mid, s');
    }
  }

  lemma RefuseKeeps(sha: Hash, s: System)
    requires Inv(sha, s)
    ensures Inv(sha, Next(sha, s, Refuse))
  {
    hide Encode, Decode, Sealed, Describes, Accounted, WithinLimit, NewInputMessage, WireHolds, ArrivedHolds,
         LoopHolds, WellNumbered, OneWriter, Reached;
    if Next(sha, s, Refuse) != s {
      LastNotTracked(sha, s);
      FateStepKeeps(sha, s, Refused, s.window, Next(sha, s, Refuse));
    }
  }

  lemma MoreOnWire(sha: Hash, s: System, frame: bytes, s': System)
    requires Inv(sha, s) && Genuine(sha, s, frame) && s' == s.(wire := s.wire + [frame])
    ensures Inv(sha, s')
  {
    hide Encode, Decode, Sealed, Describes, Accounted, WithinLimit, NewInputMessage, OneWriter, WellNumbered;
    WireExtends(sha, s, s');
    assert forall k :: Numbers(s, k) ==> At(s', k) == At(s, k);
  }

  lemma TransmitKeeps(sha: Hash, s: System)
    requires Inv(sha, s)
    ensures Inv(sha, Next(sha, s, Transmit))
  {
    hide Encode, Decode, Sealed, Describes, Accounted, WithinLimit, NewInputMessage, WireHolds, ArrivedHolds,
         LoopHolds, WindowHolds, Covered, AcksHold;
    if LastIs(s, Sending) {
      var mid := s.(slots := SetLast(s, Sent));
      FateOnly(sha, s, Sent);
      LastGenuine(sha, s, mid);
      MoreOnWire(sha, mid, LastFrame(sha, s), Next(sha, s, Transmit));
    }
  }

  // The frame leaves the window because its transmission has failed for good.
  lemma DropKeeps(sha: Hash, s: System)
    requires Inv(sha, s) && (LastIs(s, Tracked) || LastIs(s, Sending))
    ensures Inv(sha, s.(slots := SetLast(s, Dropped), window := DropLast(s)))
    ensures DropLast(s).outgoing == s.window.outgoing - {s.base + |s.slots| - 1}
  {
    hide Encode, Decode, Sealed, Describes, Accounted, WithinLimit, NewInputMessage, WireHolds, ArrivedHolds,
         LoopHolds, Drop, Ack, Covered, Reached;
    var n := |s.slots| - 1;
    AckKeeps(s.window, s.base + n, s.slots[n].msg.header.messageId, 0);
    if s.base + n in s.window.outgoing {
      assert At(s, s.base + n) == s.slots[n];
    } else {
      assert s.window.outgoing - {s.base + n} == s.window.outgoing;
    }
    FateStepKeeps(sha, s, Dropped, DropLast(s), s.(slots := SetLast(s, Dropped), window := DropLast(s)));
  }

  lemma FailKeeps(sha: Hash, s: System)
    requires Inv(sha, s)
    ensures Inv(sha, Next(sha, s, Fail))
  {
    hide Inv, DropLast;
    if LastIs(s, Tracked) {
      DropKeeps(sha, s);
    }
  }

  lemma BrokenWrite(sha: Hash, s: System, mid: System, s': System, leaked: bool)
    requires Inv(sha, s) && s.slots != [] && Inv(sha, mid) && Extends(s, mid) && |mid.slots| == |s.slots|
    requires MayBeOnWire(mid.slots[|s.slots| - 1].fate)
    requires s' == mid.(wire := mid.wire + Leak(LastFrame(sha, s), leaked))
    ensures Inv(sha, s')
  {
    hide Encode, WindowHolds, WireHolds, LoopHolds, ArrivedHolds, AcksHold, Covered, OneWriter, Describes, Accounted,
         WithinLimit, Genuine;
    if leaked {
      LastGenuine(sha, s, mid);
      MoreOnWire(sha, mid, LastFrame(sha, s), s');
    } else {
      assert s' == mid;
    }
  }

  lemma BreakKeeps(sha: Hash, s: System, leaked: bool)
    requires Inv(sha, s)
    ensures Inv(sha, Next(sha, s, Break(leaked)))
  {
    hide Encode, Decode, Sealed, Describes, Accounted, WithinLimit, NewInputMessage, WireHolds, ArrivedHolds,
         LoopHolds, WindowHolds, Covered, AcksHold, OneWriter, Drop, Ack;
    if LastIs(s, Sending) {
      var s' := Next(sha, s, Break(leaked));
      if s.closed {
        DropKeeps(sha, s);
        BrokenWrite(sha, s, s.(slots := SetLast(s, Dropped), window := DropLast(s)), s', leaked);
      } else {
        FateOnly(sha, s, Tracked);
        var mid := s.(slots := SetLast(s, Tracked));
        LoopElsewhere(sha, mid, mid.(down := true));
        Retimed(sha, mid, mid.(down := true));
        BrokenWrite(sha, s, mid.(down := true), s', leaked);
      }
    }
  }

  // ----- steps of the network, the loop and the transport -----

  // The parts of the invariant that look only at numbers, window, wire and loop.
  lemma SameNumbers(sha: Hash, s: System, s': System)
    requires s'.base == s.base && s'.slots == s.slots && s'.window == s.window && s'.wire == s.wire && s'.loop == s.loop
    requires WindowHolds(sha, s) && WireHolds(sha, s) && LoopHolds(sha, s)
    ensures WindowHolds(sha, s') && WireHolds(sha, s') && LoopHolds(sha, s')
  {
    hide Encode, Decode;
    assert forall k :: Numbers(s, k) ==> At(s', k) == At(s, k);
    forall j | 0 <= j < |s.wire| ensures Genuine(sha, s', s'.wire[j]) {
      assert Genuine(sha, s, s.wire[j]);
    }
  }

  lemma SameOffTheWire(sha: Hash, s: System, s': System, m: AgentMessage)
    requires s'.base == s.base && s'.slots == s.slots
    ensures OffTheWire(sha, s, m) <==> OffTheWire(sha, s', m)
  {
    hide Sealed;
  }

  lemma HandTaken(sha: Hash, s: System, s': System, m: AgentMessage)
    requires Inv(sha, s) && s.inHand == None && OffTheWire(sha, s, m)
    requires s' == s.(acks := s.acks + [AckMsg(SeqOf(m), m.header.messageId)], inHand := Some(m))
    ensures Inv(sha, s')
  {
    hide Encode, Decode, Sealed, Describes, Accounted, WithinLimit, WindowHolds, WireHolds, LoopHolds, WellNumbered,
         OneWriter;
    SameNumbers(sha, s, s');
    SameOffTheWire(sha, s, s', m);
    forall k | k in s'.arrived ensures OffTheWire(sha, s', s'.arrived[k]) {
      SameOffTheWire(sha, s, s', s.arrived[k]);
    }
    hide OffTheWire;
  }

  lemma DeliverKeeps(sha: Hash, s: System, frame: nat)
    requires Inv(sha, s)
    ensures Inv(sha, Next(sha, s, Deliver(frame)))
  {
    hide Encode, Decode, Sealed, Describes, Accounted, WithinLimit, NewInputMessage, WindowHolds, LoopHolds;
    var s' := Next(sha, s, Deliver(frame));
    if s' != s {
      assert Genuine(sha, s, s.wire[frame]);
      var m := Decode(s.wire[frame]).message;
      StreamMessage(sha, At(s, SeqOf(m)).msg, SeqOf(m));
      assert OffTheWire(sha, s, m);
      HandTaken(sha, s, s', m);
    }
  }

  lemma NoteAdds(from: int, got: Arrived, m: AgentMessage)
    ensures got.Keys <= Note(from, got, m).Keys
    ensures forall k :: k in Note(from, got, m) ==>
              (k in got && Note(from, got, m)[k] == got[k]) || (k == SeqOf(m) && Note(from, got, m)[k] == m)
    ensures from <= SeqOf(m) ==> SeqOf(m) in Note(from, got, m)
  {
  }

  lemma ProcessArrives(sha: Hash, s: System, s': System, m: AgentMessage)
    requires ArrivedHolds(sha, s) && s.inHand == Some(m) && SeqOf(m) >= s.base
    requires s'.base == s.base && s'.slots == s.slots
    requires s'.arrived == Note(s.base, s.arrived, m) && s'.inHand == None
    ensures ArrivedHolds(sha, s')
    ensures forall k :: Reached(s, k) ==> Reached(s', k)
  {
    hide OffTheWire;
    NoteAdds(s.base, s.arrived, m);
    forall k | k in s'.arrived ensures SeqOf(s'.arrived[k]) == k && OffTheWire(sha, s', s'.arrived[k]) {
      SameOffTheWire(sha, s, s', s'.arrived[k]);
    }
  }

  lemma ProcessKeeps(sha: Hash, s: System)
    requires Inv(sha, s)
    ensures Inv(sha, Next(sha, s, Process))
  {
    hide Encode, Decode, Sealed, Describes, Accounted, WithinLimit, Handle, Note, WindowHolds, WireHolds, LoopHolds,
         WellNumbered, OneWriter;
    if s.inHand.Some? {
      var m := s.inHand.value;
      var s' := Next(sha, s, Process);
      HandleDescribes(s.receiver, s.base, s.arrived, m);
      SameNumbers(sha, s, s');
      ProcessArrives(sha, s, s', m);
      hide ArrivedHolds, OffTheWire, Reached;
    }
  }

  lemma AckArrivesKeeps(sha: Hash, s: System, ack: nat, now: int)
    requires Inv(sha, s)
    ensures Inv(sha, Next(sha, s, AckArrives(ack, now)))
  {
    hide Encode, Decode, Sealed, Describes, Accounted, WithinLimit, NewInputMessage, Ack, Drop, Reached,
         WellNumbered, OneWriter, WindowHolds, WireHolds, ArrivedHolds, Covered;
    var s' := Next(sha, s, AckArrives(ack, now));
    if s' != s {
      AckKeeps(s.window, s.acks[ack].k, s.acks[ack].id, now);
      LoopElsewhere(sha, s, s');
      WindowStep(sha, s, s');
    }
  }

  lemma ResumeKeeps(sha: Hash, s: System, now: int)
    requires Inv(sha, s)
    ensures Inv(sha, Next(sha, s, Resume(now)))
  {
    hide Encode, Decode, Sealed, Describes, Accounted, NewInputMessage, Marked, Tick, Reached,
         WellNumbered, OneWriter, WindowHolds, WireHolds, ArrivedHolds, Covered, LoopHolds, AcksHold;
    var s' := Next(sha, s, Resume(now));
    if s' != s {
      MarkedKeeps(s.window, now);
      TimersOnly(s.window, now);
      LoopElsewhere(sha, s, s');
      WindowStep(sha, s, s');
    }
  }

  // Steps that only look, wait or switch.
  predicate Switches(step: Step) {
    || step.Pause? || step.Publish? || step.Lose? || step.Close? || step.LoopLook? || step.LoopCheck?
    || step.LoopBegin? || step.LoopFail? || step.LoopDone?
  }

  lemma SwitchKeeps(sha: Hash, s: System, step: Step)
    requires Inv(sha, s) && Switches(step)
    ensures Inv(sha, Next(sha, s, step))
  {
    hide Encode, Decode, Sealed, Describes, Accounted, WithinLimit, NewInputMessage,
         WellNumbered, OneWriter, WindowHolds, WireHolds, ArrivedHolds, Covered, AcksHold, LoopHolds;
    LoopElsewhere(sha, s, Next(sha, s, step));
    Retimed(sha, s, Next(sha, s, step));
  }

  lemma SameFramesSelf(w: Window)
    ensures SameFrames(w, w)
  {
  }

  lemma TickKeepsLimit(w: Window, now: int)
    requires Accounted(w) && WithinLimit(w)
    ensures WithinLimit(Tick(w, now).0)
  {
  }

  // Taking the oldest frame changes timers and the loop.
  lemma TakeShape(s: System, now: int)
    requires Accounted(s.window) && WithinLimit(s.window)
    ensures var s' := LoopNext(s, LoopTake(now));
            && s' == s.(window := s'.window, loop := s'.loop, closed := s'.closed, down := s'.down, clock := s'.clock,
                        firstResend := s'.firstResend)
            && SameFrames(s.window, s'.window) && Accounted(s'.window) && WithinLimit(s'.window)
            && (s.closed && !s.down ==> s'.closed && !s'.down) && (s'.closed && !s.closed ==> !s'.down)
            && (s' == s || s'.loop == Waiting || s'.loop == Ended
                || (s.window.oldest in s.window.outgoing
                    && s'.loop == Calling(s.window.oldest, s.window.outgoing[s.window.oldest].data)))
  {
    hide Tick, Accounted, WithinLimit, SameFrames;
    TickKeeps(s.window, now);
    TimersOnly(s.window, now);
    TickKeepsLimit(s.window, now);
    SameFramesSelf(s.window);
  }

  lemma TakenHolds(sha: Hash, s: System, s': System)
    requires WindowHolds(sha, s) && s'.base == s.base && s'.slots == s.slots
    requires s'.loop == Waiting || s'.loop == Ended
             || (s.window.oldest in s.window.outgoing
                 && s'.loop == Calling(s.window.oldest, s.window.outgoing[s.window.oldest].data))
    ensures LoopHolds(sha, s')
  {
    hide Encode;
    if s.window.oldest in s.window.outgoing {
      assert At(s', s.window.oldest) == At(s, s.window.oldest);
    }
  }

  lemma TakeKeeps(sha: Hash, s: System, now: int)
    requires Inv(sha, s)
    ensures Inv(sha, Next(sha, s, LoopTake(now)))
  {
    hide Encode, Describes, Accounted, WithinLimit, LoopNext, Reached,
         WellNumbered, OneWriter, WireHolds, ArrivedHolds, Covered, AcksHold, LoopHolds;
    var s' := Next(sha, s, LoopTake(now));
    if s' != s {
      TakeShape(s, now);
      TakenHolds(sha, s, s');
      hide WindowHolds;
      WindowStep(sha, s, s');
    }
  }

  lemma LoopGenuine(sha: Hash, s: System, s': System)
    requires WellNumbered(s.base, s.slots) && LoopHolds(sha, s) && s.loop.Writing?
    requires s'.base == s.base && s'.slots == s.slots
    ensures Genuine(sha, s', s.loop.data)
  {
    hide Encode, Decode, Sealed;
    StreamMessage(sha, At(s, s.loop.k).msg, s.loop.k);
    assert At(s', s.loop.k) == At(s, s.loop.k);
  }

  // The loop's write, complete or broken.
  lemma LoopWriteKeeps(sha: Hash, s: System, step: Step)
    requires Inv(sha, s) && (step.LoopSend? || step.LoopBreak?)
    ensures Inv(sha, Next(sha, s, step))
  {
    hide Encode, Decode, Sealed, Describes, Accounted, WithinLimit, NewInputMessage,
         WellNumbered, OneWriter, WindowHolds, WireHolds, ArrivedHolds, Covered, AcksHold, LoopHolds, Genuine;
    if s.loop.Writing? {
      var s' := Next(sha, s, step);
      var mid := s'.(wire := s.wire);
      LoopElsewhere(sha, s, mid);
      Retimed(sha, s, mid);
      LoopGenuine(sha, s, mid);
      if s'.wire == s.wire {
        assert s' == mid;
      } else {
        MoreOnWire(sha, mid, s.loop.data, s');
      }
    }
  }

  lemma BeginKeeps(sha: Hash, s: System)
    requires Inv(sha, s)
    ensures Inv(sha, Next(sha, s, Begin))
  {
    hide Inv;
    if Next(sha, s, Begin) != s {
      FateOnly(sha, s, Sending);
    }
  }

  lemma NextKeeps(sha: Hash, s: System, step: Step)
    requires Inv(sha, s)
    ensures Inv(sha, Next(sha, s, step))
  {
    hide Inv, Next;
    match step
    case Claim(payload, stamp) => ClaimKeeps(sha, s, payload, stamp);
    case Track(now) => TrackKeeps(sha, s, now);
    case Refuse => RefuseKeeps(sha, s);
    case Begin => BeginKeeps(sha, s);
    case Transmit => TransmitKeeps(sha, s);
    case Break(leaked) => BreakKeeps(sha, s, leaked);
    case Fail => FailKeeps(sha, s);
    case Deliver(frame) => DeliverKeeps(sha, s, frame);
    case Process => ProcessKeeps(sha, s);
    case AckArrives(ack, now) => AckArrivesKeeps(sha, s, ack, now);
    case LoopTake(now) => TakeKeeps(sha, s, now);
    case LoopSend => LoopWriteKeeps(sha, s, step);
    case LoopBreak(_) => LoopWriteKeeps(sha, s, step);
    case Resume(now) => ResumeKeeps(sha, s, now);
    case _ => SwitchKeeps(sha, s, step);
  }

  lemma {:induction false} RunKeeps(sha: Hash, s: System, steps: seq<Step>)
    requires Inv(sha, s)
    ensures Inv(sha, Run(sha, s, steps))
  {
    hide Inv, Next;
    if steps == [] {
    } else {
      RunKeeps(sha, s, steps[..|steps| - 1]);
      NextKeeps(sha, Run(sha, s, steps[..|steps| - 1]), steps[|steps| - 1]);
    }
  }

  lemma Reachable(sha: Hash, base: nat, limit: nat, steps: seq<Step>)
    requires base <= MAX_INT64
    ensures Inv(sha, Run(sha, Init(base, limit), steps))
  {
    RunKeeps(sha, Init(base, limit), steps);
  }

  lemma EmptyRun(sha: Hash, s: System)
    ensures Run(sha, s, []) == s
  {
  }

  lemma FirstStep(sha: Hash, s: System, step: Step)
    ensures Run(sha, s, [step]) == Next(sha, s, step)
  {
    hide Next;
    assert [step][..0] == [];
  }

  lemma RunSnoc(sha: Hash, s: System, steps: seq<Step>, step: Step)
    ensures Run(sha, s, steps + [step]) == Next(sha, Run(sha, s, steps), step)
  {
    hide Next;
    assert (steps + [step])[..|steps|] == steps;
  }

  lemma {:induction false} RunAppend(sha: Hash, s: System, a: seq<Step>, b: seq<Step>)
    ensures Run(sha, s, a + b) == Run(sha, Run(sha, s, a), b)
  {
    hide Next;
    if b == [] {
      assert a + b == a;
    } else {
      RunAppend(sha, s, a, b[..|b| - 1]);
      assert (a + b)[..|a + b| - 1] == a + b[..|b| - 1];
    }
  }
}
