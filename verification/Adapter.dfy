// The adapter's mutable state: the unacknowledged window on the send side and the
// reorder buffer on the receive side, updated in place as the source does
// (internal/protocol/adapter.go, internal/protocol/adapter_resume.go).
module Adapter {
  import opened Common
  import opened Bytes
  import opened Sets
  import opened Message
  import opened Window
  import opened Reorder
  import opened Segmentation
  import opened Turns

  method LeastKey(m: map<int, Entry>) returns (min: int)
    requires m != map[]
    requires forall k :: k in m ==> k <= MAX_INT64
    ensures IsLeast(min, m.Keys)
  {
    min := MAX_INT64;
    var todo := m.Keys;
    while todo != {}
      invariant todo <= m.Keys
      invariant min == MAX_INT64 || min in m
      invariant forall k :: k in m && k !in todo ==> min <= k
      invariant min <= MAX_INT64
      decreases |todo|
    {
      Inhabited(todo);
      var k :| k in todo;
      if k < min {
        min := k;
      }
      todo := todo - {k};
    }
    Inhabited(m.Keys);
    var some :| some in m;
    assert min <= some;
  }

  // The sequential scan after the old minimum `from` left, with the full search as fallback.
  method ScanOldest(m: map<int, Entry>, from: int) returns (oldest: int)
    requires m != map[]
    requires forall k :: k in m ==> from < k <= MAX_INT64
    ensures IsLeast(oldest, m.Keys)
  {
    oldest := from;
    var i := 0;
    var found := false;
    while i < 1024 && !found
      invariant from <= oldest
      invariant i == 0 ==> oldest == from
      invariant found <==> oldest in m
      invariant forall k :: k in m ==> oldest <= k
      // The counter stays below a tracked number, so it cannot overflow 64 bits.
      invariant !found ==> oldest < MAX_INT64
      decreases 1024 - i, !found
    {
      oldest := oldest + 1;
      found := oldest in m;
      i := i + 1;
    }
    if oldest !in m {
      oldest := LeastKey(m);
    }
  }

  class Adapter {
    const sha: Hash
    const chunkSize: int
    const maxOutgoingUnackedBytes: nat

    var seqNum: int
    var outgoing: map<int, Entry>
    var outgoingOldestSeq: int
    var outgoingBytes: int
    var outgoingClosed: bool
    var rto: int

    var expectedSeqNum: int
    var incomingMsgBuffer: map<int, AgentMessage>
    var stream: bytes

    // Every frame handed to the WebSocket, in order.
    var wire: seq<bytes>

    function Send(): Window
      reads this
    {
      Window(outgoing, outgoingBytes, outgoingOldestSeq, rto, maxOutgoingUnackedBytes)
    }

    function Sending(): Side
      reads this
    {
      Side(Send(), outgoingClosed)
    }

    function Recv(): Receiver
      reads this
    {
      Receiver(expectedSeqNum, incomingMsgBuffer, stream)
    }

    // Numbers in use are below the next one, and the books balance.
    ghost predicate Valid()
      reads this
    {
      && Accounted(Send()) && WithinLimit(Send())
      && 0 <= seqNum
      && (forall k :: k in outgoing ==> k < seqNum)
    }

    constructor (sha: Hash, chunkSize: int, limit: nat)
      ensures Valid()
      ensures Send() == EmptyWindow(limit) && Recv() == Start(0) && wire == [] && seqNum == 0
      ensures !outgoingClosed && this.chunkSize == chunkSize && this.sha == sha
    {
      this.sha := sha;
      this.chunkSize := chunkSize;
      maxOutgoingUnackedBytes := limit;
      seqNum := 0;
      outgoing := map[];
      outgoingOldestSeq := -1;
      outgoingBytes := 0;
      outgoingClosed := false;
      rto := DEFAULT_RTO;
      expectedSeqNum := 0;
      incomingMsgBuffer := map[];
      stream := [];
      wire := [];
    }

    // ----- send side -----

    method AckOutgoing(k: int, id: Uuid, now: int)
      requires Accounted(Send())
      modifies `outgoing, `outgoingBytes, `outgoingOldestSeq, `rto
      ensures Send() == Ack(old(Send()), k, id, now)
    {
      if k !in outgoing || outgoing[k].id != id {
        return;
      }
      ghost var before := Send();
      var om := outgoing[k];
      var rtt := now - om.lastSent;
      if rtt > 0 {
        var newRto := rtt * 2;
        if newRto < DEFAULT_RTO {
          newRto := DEFAULT_RTO;
        }
        if newRto > MAX_RTO {
          newRto := MAX_RTO;
        }
        rto := newRto;
      }
      RemoveKeeps(before, k);
      outgoing := outgoing - {k};
      outgoingBytes := outgoingBytes - |om.data|;
      if outgoing == map[] {
        outgoingOldestSeq := -1;
      } else if k == outgoingOldestSeq {
        outgoingOldestSeq := ScanOldest(outgoing, k);
        LeastUnique(outgoingOldestSeq, outgoing.Keys);
      }
    }

    method DropOutgoing(k: int, id: Uuid)
      requires Accounted(Send())
      modifies `outgoing, `outgoingBytes, `outgoingOldestSeq
      ensures Send() == Drop(old(Send()), k, id)
    {
      if k !in outgoing || outgoing[k].id != id {
        return;
      }
      RemoveKeeps(Send(), k);
      outgoingBytes := outgoingBytes - |outgoing[k].data|;
      outgoing := outgoing - {k};
      if outgoing == map[] {
        outgoingOldestSeq := -1;
      } else if k == outgoingOldestSeq {
        outgoingOldestSeq := LeastKey(outgoing);
        LeastUnique(outgoingOldestSeq, outgoing.Keys);
      }
    }

    // The lock is released while the writer sleeps.
    method Sleep(wake: Wake)
      requires Accounted(Send()) && WithinLimit(Send())
      modifies `outgoing, `outgoingBytes, `outgoingOldestSeq, `rto, `outgoingClosed
      ensures Send() == AckAll(old(Send()), wake.acks)
      ensures outgoingClosed <==> old(outgoingClosed) || wake.closes
    {
      ghost var before := Send();
      var i := 0;
      while i < |wake.acks|
        invariant 0 <= i <= |wake.acks|
        invariant Send() == AckAll(before, wake.acks[..i])
        invariant Accounted(Send())
        invariant outgoingClosed == old(outgoingClosed)
      {
        AckOutgoing(wake.acks[i].k, wake.acks[i].id, wake.acks[i].now);
        assert wake.acks[..i + 1][..i] == wake.acks[..i];
        AckAllKeeps(before, wake.acks[..i + 1]);
        i := i + 1;
      }
      assert wake.acks[..i] == wake.acks;
      outgoingClosed := outgoingClosed || wake.closes;
    }

    // Waits for room, one wake-up after another; running out of wake-ups is the write
    // deadline passing.
    method AddOutgoing(k: int, id: Uuid, data: bytes, wakes: seq<Wake>, now: int)
      returns (result: AddResult, used: nat)
      requires Accounted(Send()) && WithinLimit(Send())
      modifies `outgoing, `outgoingBytes, `outgoingOldestSeq, `rto, `outgoingClosed
      ensures used <= |wakes|
      // It sleeps exactly while the window is full and Close has not run.
      ensures forall i :: 0 <= i < used ==>
                !Woken(old(Sending()), wakes[..i]).closed && Full(Woken(old(Sending()), wakes[..i]), |data|)
      ensures outgoingClosed == Woken(old(Sending()), wakes[..used]).closed
      ensures result.Added? <==> Admits(old(Sending()), wakes, |data|)
      ensures result.Added? ==>
                && LetsIn(old(Sending()), wakes, |data|, used)
                && Send() == Add(AfterWakes(old(Send()), wakes[..used]), k, id, data, now)
      ensures !result.Added? ==> Send() == AfterWakes(old(Send()), wakes[..used])
      ensures result.ClosedPipe? <==> outgoingClosed
      ensures result.TimedOut? ==> used == |wakes| && Full(Sending(), |data|)
    {
      hide AfterWakes, AckAll, Accounted, WithinLimit, SawClose, Admits;
      ghost var before := Sending();
      used := 0;
      NotWoken(before, wakes);
      while outgoingBytes + |data| > maxOutgoingUnackedBytes
        invariant used <= |wakes|
        invariant Sending() == Woken(before, wakes[..used])
        invariant Accounted(Send()) && WithinLimit(Send())
        invariant forall i :: 0 <= i < used ==>
                    !Woken(before, wakes[..i]).closed && Full(Woken(before, wakes[..i]), |data|)
        decreases |wakes| - used
      {
        if outgoingClosed {
          NeverLetIn(before, wakes, |data|, used);
          return ClosedPipe, used;
        }
        if used == |wakes| {
          NeverLetIn(before, wakes, |data|, used);
          return TimedOut, used;
        }
        WokenOneMore(before, wakes, used);
        Sleep(wakes[used]);
        AfterWakesKeeps(before.w, wakes[..used + 1]);
        used := used + 1;
      }
      if outgoingClosed {
        NeverLetIn(before, wakes, |data|, used);
        return ClosedPipe, used;
      }
      assert LetsIn(before, wakes, |data|, used);
      LetInAdmits(before, wakes, |data|, used);
      outgoing := outgoing[k := Entry(id, data, now, 0)];
      outgoingBytes := outgoingBytes + |data|;
      if outgoingOldestSeq == -1 || k < outgoingOldestSeq {
        outgoingOldestSeq := k;
      }
      return Added, used;
    }

    function Chunk(): nat
      reads this
    {
      if chunkSize <= 0 then DEFAULT_CHUNK else chunkSize
    }

    // Writes until the transport takes the frame or gives up for good; each broken write
    // may have put a copy on the wire.
    method WriteRaw(data: bytes, leaks: nat, sent: bool)
      modifies `wire
      ensures wire == old(wire) + Repeated(data, leaks) + if sent then [data] else []
    {
      for broken := 0 to leaks
        invariant wire == old(wire) + Repeated(data, broken)
      {
        wire := wire + [data];
      }
      if sent {
        wire := wire + [data];
      }
    }

    // One chunk past the publication gate: number it, track it, send it.
    method SendChunk(payload: bytes, turn: Turn) returns (err: WriteError)
      requires Valid() && seqNum <= MAX_INT64
      modifies `seqNum, `outgoing, `outgoingBytes, `outgoingOldestSeq, `rto, `outgoingClosed, `wire
      ensures Valid() && seqNum == old(seqNum) + 1
      // The outcome: tracked exactly when the window lets the frame in, sent exactly when it
      // is tracked and a write gets through.
      ensures !err.NotAdmitted?
      ensures err.NotTracked? <==> !Admits(old(Sending()), turn.wakes, TOTAL_HEADER_LEN + |payload|)
      ensures err.NotSent? <==> Admits(old(Sending()), turn.wakes, TOTAL_HEADER_LEN + |payload|) && !turn.sent
      ensures var k, frame := old(seqNum), ChunkFrame(sha, payload, old(seqNum), turn.stamp);
              && (err.NoError? ==>
                    && wire == old(wire) + Repeated(frame, turn.leaks) + [frame]
                    && Sending() == Through(old(Sending()), k, frame, turn)
                    && if k in outgoing then outgoing[k] == Entry(turn.stamp.id, frame, turn.now, 0)
                       else AcksHave(turn.during.acks, k, turn.stamp.id))
              && (!err.NoError? ==> k !in outgoing)
              && (err.NotTracked? ==> wire == old(wire))
              && (err.NotSent? ==> wire == old(wire) + Repeated(frame, turn.leaks))
      ensures forall j :: j in outgoing && j != old(seqNum) ==> j in old(outgoing)
      ensures forall j :: j in old(outgoing) ==>
                if j in outgoing then outgoing[j] == old(outgoing[j])
                else AckedIn(turn, j, old(outgoing[j].id))
    {
      hide Encode, NewInputMessage, AfterWakes, AckAll, Accounted, WithinLimit, Woken, Full, Admits, LetsIn, Through,
           AckedIn, AcksHave, Drop, Repeated;
      ghost var before := Sending();
      var k: int64 := seqNum;
      seqNum := seqNum + 1;
      var msg := NewInputMessage(payload, k, turn.stamp.id, turn.stamp.created);
      var data := MarshalBinary(sha, msg);
      FrameLength(sha, payload, k, turn.stamp);
      ghost var e := Entry(turn.stamp.id, data, turn.now, 0);
      var result, used := AddOutgoing(k, turn.stamp.id, data, turn.wakes, turn.now);
      ghost var after := AfterWakes(before.w, turn.wakes[..used]);
      WakesNarrow(before.w, turn, used);
      if !result.Added? {
        return NotTracked;
      }
      LetInHasRoom(before, turn.wakes, |data|, used);
      AddedAndAcked(before.w, after, k, data, turn);
      AddKeeps(after, k, turn.stamp.id, data, turn.now);
      ThroughAt(before, k, data, turn, used);
      Sleep(turn.during);
      ghost var acked := Send();
      WriteRaw(data, turn.leaks, turn.sent);
      if !turn.sent {
        DroppedAgain(before.w, acked, k, e, turn);
        DropOutgoing(k, turn.stamp.id);
        return NotSent;
      }
      return NoError;
    }

    // Cuts b into chunks and sends them one after another; n counts the bytes of the
    // chunks sent in full, sent the chunks themselves.
    method Write(b: bytes, turns: nat -> Turn) returns (n: nat, err: WriteError, sent: nat)
      requires Valid() && seqNum + |b| <= MAX_INT64
      modifies `seqNum, `outgoing, `outgoingBytes, `outgoingOldestSeq, `rto, `outgoingClosed, `wire
      ensures Valid()
      ensures var segs := Segments(b, Chunk());
              && sent <= |segs|
              && n <= |b| && b[..n] == Flatten(First(segs, sent))
              && (err.NoError? ==> n == |b|)
              && old(seqNum) + |segs| <= MAX_INT64
              && Outcome(old(Sending()), sha, segs, old(seqNum), turns, sent, err)
              && (err.NoError? || err.NotAdmitted? ==>
                    Sending() == SideAt(old(Sending()), sha, segs, old(seqNum), turns, sent))
      ensures Chunk() == if chunkSize > 0 then chunkSize else 1024
      ensures seqNum == old(seqNum) + sent + if err.NotTracked? || err.NotSent? then 1 else 0
      ensures err.NotTracked? || err.NotSent? ==> old(seqNum) + sent !in outgoing
      ensures wire
              == old(wire) + Transmitted(sha, Segments(b, Chunk()), old(seqNum), turns, sent)
                 + if err.NotSent?
                   then Repeated(ChunkFrame(sha, Segments(b, Chunk())[sent], old(seqNum) + sent, turns(sent).stamp),
                                 turns(sent).leaks)
                   else []
      ensures Safe(outgoing, sha, Segments(b, Chunk()), old(seqNum), turns, sent)
    {
      hide Encode, NewInputMessage, Accounted, WithinLimit, AckedIn, AcksHave, Segments, Safe, Transmitted,
           Repeated, Flatten, Went, Outcome, SideAt, Through, Admits, ChunkFrame, First, Add, LetsIn, Woken, Full,
           AfterWakes, AckAll, AllGetThrough;
      n, err, sent := 0, NoError, 0;
      ghost var segs := Segments(b, Chunk());
      ghost var before := Sending();
      var chunk := Chunk();
      var rest := b;
      ghost var first := seqNum;
      ProgressStart(sha, segs, b, chunk, first, turns, outgoing);
      WentNowhere(before, sha, segs, first, turns);
      while rest != []
        invariant Valid() && seqNum == first + sent && err.NoError?
        invariant Progress(segs, b, chunk, sent, n, rest)
        invariant first + |segs| <= MAX_INT64
        invariant Went(before, Sending(), sha, segs, first, turns, sent)
        invariant wire == old(wire) + Transmitted(sha, segs, first, turns, sent)
        invariant Safe(outgoing, sha, segs, first, turns, sent)
        decreases |rest|
      {
        ProgressStep(segs, b, chunk, sent, n, rest);
        ghost var now := Sending();
        if !turns(sent).admitted {
          WentToTheEnd(before, now, sha, segs, first, turns, sent, NotAdmitted);
          WentIs(before, now, sha, segs, first, turns, sent);
          return n, NotAdmitted, sent;
        }
        var sendLen := if |rest| > chunk then chunk else |rest|;
        var payload := rest[..sendLen];
        err := SendChunk(payload, turns(sent));
        SafeStep(now.w.outgoing, outgoing, sha, segs, first, turns, sent);
        if !err.NoError? {
          WentToTheEnd(before, now, sha, segs, first, turns, sent, err);
          return n, err, sent;
        }
        WentOneMore(before, now, Sending(), sha, segs, first, turns, sent);
        TransmittedMore(sha, segs, first, turns, sent);
        n := n + sendLen;
        rest := rest[sendLen..];
        sent := sent + 1;
      }
      ProgressEnd(segs, b, chunk, sent, n);
      WentToTheEnd(before, Sending(), sha, segs, first, turns, sent, NoError);
      WentIs(before, Sending(), sha, segs, first, turns, sent);
    }

    // One turn of the resend loop that found the publication open.
    // alive: whether the loop goes on.
    method ResendOldest(now: int, leaks: nat, sent: bool) returns (action: Resend, alive: bool)
      requires Accounted(Send())
      modifies `outgoing, `outgoingOldestSeq, `outgoingClosed, `wire
      ensures (Send(), action) == Tick(old(Send()), now)
      ensures wire == old(wire) + if action.Again?
                                  then Repeated(action.data, leaks) + if sent then [action.data] else []
                                  else []
      // Giving up closes the adapter; a failed write only ends the loop.
      ensures outgoingClosed <==> old(outgoingClosed) || action.GiveUp?
      ensures alive <==> action.Idle? || (action.Again? && sent)
    {
      TickKeeps(Send(), now);
      if outgoingOldestSeq == -1 || outgoing == map[] {
        return Idle, true;
      }
      var k := outgoingOldestSeq;
      var om := outgoing[k];
      var timeout := rto;
      if timeout <= 0 {
        timeout := DEFAULT_RTO;
      }
      if om.resends > 0 && timeout < MAX_RTO {
        timeout := MAX_RTO;
      }
      if now - om.lastSent <= timeout {
        return Idle, true;
      }
      om := om.(resends := om.resends + 1);
      outgoing := outgoing[k := om];
      if om.resends > MAX_RESENDS {
        outgoingClosed := true;
        return GiveUp(k), false;
      }
      om := om.(lastSent := now);
      outgoing := outgoing[k := om];
      assert outgoing == old(outgoing)[k := om];
      WriteRaw(om.data, leaks, sent);
      return Again(k, om.data), sent;
    }

    method MarkOutgoingForRetransmit(now: int)
      requires Accounted(Send())
      modifies `outgoing
      ensures Send() == Marked(old(Send()), now)
    {
      ghost var before := outgoing;
      ghost var target := Marked(Send(), now);
      var todo := outgoing.Keys;
      while todo != {}
        invariant todo <= before.Keys == outgoing.Keys
        invariant forall k :: k in todo ==> outgoing[k] == before[k]
        invariant forall k :: k in before && k !in todo ==>
                    outgoing[k] == before[k].(lastSent := now - DEFAULT_RTO - MILLISECOND, resends := 0)
        decreases |todo|
      {
        Inhabited(todo);
        var k :| k in todo;
        outgoing := outgoing[k := outgoing[k].(lastSent := now - DEFAULT_RTO - MILLISECOND, resends := 0)];
        todo := todo - {k};
      }
      forall k | k in before ensures outgoing[k] == target.outgoing[k] {
        assert k in target.outgoing;
      }
      assert outgoing == target.outgoing;
    }

    // ----- receive side -----

    method ProcessMessage(m: AgentMessage)
      modifies `stream
      ensures stream == old(stream) + StreamBytes(m)
      ensures m.header.payloadType == 1 ==> stream == old(stream) + m.payload
      ensures m.header.payloadType != 1 ==> stream == old(stream)
    {
      if m.header.payloadType != PAYLOAD_TYPE_OUTPUT {
        return;
      }
      stream := stream + m.payload;
    }

    method ProcessBufferedMessages()
      modifies `expectedSeqNum, `incomingMsgBuffer, `stream
      ensures Recv() == Drain(old(Recv()))
    {
      while expectedSeqNum in incomingMsgBuffer
        invariant Drain(Recv()) == Drain(old(Recv()))
        decreases |incomingMsgBuffer|
      {
        var m := incomingMsgBuffer[expectedSeqNum];
        ghost var keys := incomingMsgBuffer.Keys;
        incomingMsgBuffer := incomingMsgBuffer - {expectedSeqNum};
        assert keys == incomingMsgBuffer.Keys + {expectedSeqNum};
        ProcessMessage(m);
        expectedSeqNum := expectedSeqNum + 1;
      }
    }

    // ackSent: whether the acknowledgement went out; when it did not, the adapter is
    // closed and the message is not processed.
    method HandleDataMessage(m: AgentMessage, ackSent: bool) returns (closed: bool)
      modifies `expectedSeqNum, `incomingMsgBuffer, `stream
      ensures closed <==> !ackSent
      ensures Recv() == if ackSent then Handle(old(Recv()), m) else old(Recv())
    {
      if !ackSent {
        return true;
      }
      var k: int := m.header.sequenceNumber;
      if k == expectedSeqNum {
        ProcessMessage(m);
        expectedSeqNum := expectedSeqNum + 1;
        ProcessBufferedMessages();
      } else if k > expectedSeqNum {
        incomingMsgBuffer := incomingMsgBuffer[k := m];
      }
      return false;
    }

    method UpdateExpectedSeqNum(handshakeSeq: int)
      modifies `expectedSeqNum
      ensures Recv() == Rebase(old(Recv()), handshakeSeq)
    {
      expectedSeqNum := handshakeSeq + 1;
    }
  }
}
