// The receive side: messages arrive in any order and any number of times, and leave
// as one byte stream (handleDataMessage and processBufferedMessages in
// internal/protocol/adapter.go).
module Reorder {
  import opened Bytes
  import opened Message

  // expected: next sequence number to deliver; buffer: early messages by sequence
  // number; stream: the bytes written to the reading end so far.
  datatype Receiver = Receiver(expected: int, buffer: map<int, AgentMessage>, stream: bytes)

  function Start(expected: int): Receiver {
    Receiver(expected, map[], [])
  }

  function SeqOf(m: AgentMessage): int {
    m.header.sequenceNumber
  }

  // Only Output payloads carry stream bytes; every other kind takes up its number and no more.
  function StreamBytes(m: AgentMessage): bytes {
    if m.header.payloadType == PAYLOAD_TYPE_OUTPUT then m.payload else []
  }

  function Drain(r: Receiver): Receiver
    decreases |r.buffer|
  {
    if r.expected in r.buffer then
      var rest := r.buffer - {r.expected};
      assert r.buffer.Keys == rest.Keys + {r.expected};
      Drain(Receiver(r.expected + 1, rest, r.stream + StreamBytes(r.buffer[r.expected])))
    else r
  }

  function Handle(r: Receiver, m: AgentMessage): Receiver {
    if SeqOf(m) == r.expected then
      Drain(r.(expected := r.expected + 1, stream := r.stream + StreamBytes(m)))
    else if SeqOf(m) > r.expected then
      r.(buffer := r.buffer[SeqOf(m) := m])
    else r
  }

  function HandleAll(r: Receiver, arrivals: seq<AgentMessage>): Receiver {
    if arrivals == [] then r
    else Handle(HandleAll(r, arrivals[..|arrivals| - 1]), arrivals[|arrivals| - 1])
  }

  // ----- an order-free description of the receiver -----

  // What has arrived: one message for each sequence number seen.
  type Arrived = map<int, AgentMessage>

  // The payloads of the Output messages numbered lo, lo + 1, ..., hi - 1.
  function Concat(got: Arrived, lo: int, hi: int): bytes
    requires forall k :: lo <= k < hi ==> k in got
    decreases hi - lo
  {
    if hi <= lo then []
    else
      var last := got[hi - 1];
      Concat(got, lo, hi - 1) + if last.header.payloadType == 1 then last.payload else []
  }

  // What has arrived from number lo on.
  function Above(got: Arrived, lo: int): Arrived {
    map k | k in got && k >= lo :: got[k]
  }

  lemma AboveNext(got: Arrived, lo: int)
    ensures Above(got, lo) - {lo} == Above(got, lo + 1)
    ensures lo !in got ==> Above(got, lo) == Above(got, lo + 1)
  {
  }

  // expected is the least number from `from` on that has not arrived, the buffer is
  // exactly what arrived above it, and the stream is what lies below it, in order.
  ghost predicate Describes(r: Receiver, from: int, got: Arrived) {
    && from <= r.expected
    && r.expected !in got
    && (forall k :: from <= k < r.expected ==> k in got)
    && r.buffer == Above(got, r.expected + 1)
    && r.stream == Concat(got, from, r.expected)
  }

  // The description leaves no freedom: it fixes the receiver.
  lemma DescriptionUnique(r: Receiver, r': Receiver, from: int, got: Arrived)
    requires Describes(r, from, got) && Describes(r', from, got)
    ensures r == r'
  {
    assert !(r.expected < r'.expected) && !(r'.expected < r.expected);
  }

  lemma {:induction false} ConcatExtends(got: Arrived, more: Arrived, lo: int, hi: int)
    requires forall k :: lo <= k < hi ==> k in got && k in more && got[k] == more[k]
    ensures Concat(got, lo, hi) == Concat(more, lo, hi)
    decreases hi - lo
  {
    if lo < hi {
      ConcatExtends(got, more, lo, hi - 1);
    }
  }

  // A receiver that is like a described one, except that its buffer may hold the
  // number it expects: draining restores the description.
  lemma {:induction false} DrainDescribes(r: Receiver, from: int, got: Arrived)
    requires from <= r.expected
    requires forall k :: from <= k < r.expected ==> k in got
    requires r.buffer == Above(got, r.expected)
    requires r.stream == Concat(got, from, r.expected)
    ensures Describes(Drain(r), from, got)
    decreases |r.buffer|
  {
    AboveNext(got, r.expected);
    if r.expected in r.buffer {
      var rest := r.buffer - {r.expected};
      assert r.buffer.Keys == rest.Keys + {r.expected};
      var next := Receiver(r.expected + 1, rest, r.stream + StreamBytes(r.buffer[r.expected]));
      assert r.expected in got && r.buffer[r.expected] == got[r.expected];
      DrainDescribes(next, from, got);
    }
  }

  // One arrival: the set grows by the message unless the number is old or known.
  function Note(from: int, got: Arrived, m: AgentMessage): Arrived {
    if SeqOf(m) < from then got else got[SeqOf(m) := m]
  }

  lemma HandleDescribes(r: Receiver, from: int, got: Arrived, m: AgentMessage)
    requires Describes(r, from, got)
    requires SeqOf(m) in got ==> got[SeqOf(m)] == m
    requires forall k :: k in got ==> k >= from
    ensures Describes(Handle(r, m), from, Note(from, got, m))
  {
    var k := SeqOf(m);
    var got' := Note(from, got, m);
    ConcatExtends(got, got', from, r.expected);
    if k == r.expected {
      var mid := r.(expected := r.expected + 1, stream := r.stream + StreamBytes(m));
      assert mid.buffer == Above(got', mid.expected);
      DrainDescribes(mid, from, got');
    } else if k < from {
    } else if k < r.expected {
      assert got' == got;
    } else {
      assert Handle(r, m).buffer == Above(got', r.expected + 1);
    }
  }

  // got and what arrives on top of it.
  function NoteOn(from: int, got: Arrived, arrivals: seq<AgentMessage>): Arrived {
    if arrivals == [] then got
    else Note(from, NoteOn(from, got, arrivals[..|arrivals| - 1]), arrivals[|arrivals| - 1])
  }

  function NoteAll(from: int, arrivals: seq<AgentMessage>): Arrived {
    NoteOn(from, map[], arrivals)
  }

  // Every copy of a sequence number carries the same message.
  ghost predicate Consistent(arrivals: seq<AgentMessage>) {
    forall i, j :: 0 <= i < |arrivals| && 0 <= j < |arrivals| && SeqOf(arrivals[i]) == SeqOf(arrivals[j])
                   ==> arrivals[i] == arrivals[j]
  }

  // got holds exactly the messages among the arrivals numbered from `from` on.
  ghost predicate Collects(got: Arrived, from: int, arrivals: seq<AgentMessage>) {
    && (forall k :: k in got ==> k >= from && SeqOf(got[k]) == k && got[k] in arrivals)
    && (forall m :: m in arrivals && SeqOf(m) >= from ==> SeqOf(m) in got && got[SeqOf(m)] == m)
  }

  lemma {:induction false} NoteAllCollects(from: int, arrivals: seq<AgentMessage>)
    requires Consistent(arrivals)
    ensures Collects(NoteAll(from, arrivals), from, arrivals)
  {
    if arrivals == [] {
    } else {
      var init, last := arrivals[..|arrivals| - 1], arrivals[|arrivals| - 1];
      NoteAllCollects(from, init);
      var before, got := NoteAll(from, init), NoteAll(from, arrivals);
      assert got == Note(from, before, last);
      assert last in arrivals && forall m :: m in init ==> m in arrivals;
      forall k | k in got ensures k >= from && SeqOf(got[k]) == k && got[k] in arrivals {
        assert k == SeqOf(last) || k in before;
      }
      forall m | m in arrivals && SeqOf(m) >= from ensures SeqOf(m) in got && got[SeqOf(m)] == m {
        var i :| 0 <= i < |arrivals| && arrivals[i] == m;
        assert arrivals[|arrivals| - 1] == last;
        if i < |init| {
          assert m == init[i] && m in init;
        }
      }
    }
  }

  // Every copy of a number, buffered or arriving, carries the same message.
  ghost predicate ConsistentOn(got: Arrived, arrivals: seq<AgentMessage>) {
    && Consistent(arrivals)
    && forall k, m :: k in got && m in arrivals && SeqOf(m) == k ==> got[k] == m
  }

  lemma {:induction false} NoteOnKnows(from: int, got: Arrived, arrivals: seq<AgentMessage>)
    requires forall k :: k in got ==> k >= from
    ensures forall k :: k in NoteOn(from, got, arrivals) ==>
              k >= from && var m := NoteOn(from, got, arrivals)[k];
                           (k in got && m == got[k]) || (m in arrivals && SeqOf(m) == k)
  {
    if arrivals == [] {
    } else {
      var init, last := arrivals[..|arrivals| - 1], arrivals[|arrivals| - 1];
      assert arrivals == init + [last];
      NoteOnKnows(from, got, init);
    }
  }

  // Whatever arrives, a described receiver stays the one described by what it has got.
  lemma {:induction false} DescribedOn(r: Receiver, from: int, got: Arrived, arrivals: seq<AgentMessage>)
    requires Describes(r, from, got) && ConsistentOn(got, arrivals) && forall k :: k in got ==> k >= from
    ensures Describes(HandleAll(r, arrivals), from, NoteOn(from, got, arrivals))
  {
    if arrivals == [] {
    } else {
      hide Describes, Handle;
      var init, last := arrivals[..|arrivals| - 1], arrivals[|arrivals| - 1];
      assert arrivals == init + [last];
      DescribedOn(r, from, got, init);
      NoteOnKnows(from, got, init);
      HandleDescribes(HandleAll(r, init), from, NoteOn(from, got, init), last);
    }
  }

  // After any arrivals the receiver is the one described by what has arrived.
  lemma Characterised(from: int, arrivals: seq<AgentMessage>)
    requires Consistent(arrivals)
    ensures Describes(HandleAll(Start(from), arrivals), from, NoteAll(from, arrivals))
  {
    assert Describes(Start(from), from, map[]);
    DescribedOn(Start(from), from, map[], arrivals);
  }

  // Confluence: order and repetition make no difference, down to the buffer.
  lemma Confluence(from: int, a: seq<AgentMessage>, b: seq<AgentMessage>)
    requires Consistent(a)
    requires forall m :: m in a <==> m in b
    ensures HandleAll(Start(from), a) == HandleAll(Start(from), b)
  {
    forall i, j | 0 <= i < |b| && 0 <= j < |b| && SeqOf(b[i]) == SeqOf(b[j]) ensures b[i] == b[j] {
      assert b[i] in a && b[j] in a;
    }
    Characterised(from, a);
    Characterised(from, b);
    NoteAllCollects(from, a);
    NoteAllCollects(from, b);
    var ga, gb := NoteAll(from, a), NoteAll(from, b);
    forall k | k in ga ensures k in gb && gb[k] == ga[k] {
      assert ga[k] in b;
    }
    forall k | k in gb ensures k in ga {
      assert gb[k] in a;
    }
    assert ga == gb;
    DescriptionUnique(HandleAll(Start(from), a), HandleAll(Start(from), b), from, ga);
  }

  // Delivery is monotone: what has been written to the stream is never taken back.
  lemma {:induction false} DrainGrows(r: Receiver)
    ensures r.stream <= Drain(r).stream && r.expected <= Drain(r).expected
    decreases |r.buffer|
  {
    if r.expected in r.buffer {
      var rest := r.buffer - {r.expected};
      assert r.buffer.Keys == rest.Keys + {r.expected};
      DrainGrows(Receiver(r.expected + 1, rest, r.stream + StreamBytes(r.buffer[r.expected])));
    }
  }

  lemma HandleGrows(r: Receiver, m: AgentMessage)
    ensures r.stream <= Handle(r, m).stream && r.expected <= Handle(r, m).expected
  {
    if SeqOf(m) == r.expected {
      DrainGrows(r.(expected := r.expected + 1, stream := r.stream + StreamBytes(m)));
    }
  }

  // ----- kinds of payload -----

  // A message of any other kind than Output, without its payload.
  function Blank(m: AgentMessage): AgentMessage {
    if m.header.payloadType == 1 then m else m.(payload := [])
  }

  function BlankAll(arrivals: seq<AgentMessage>): seq<AgentMessage> {
    seq(|arrivals|, i requires 0 <= i < |arrivals| => Blank(arrivals[i]))
  }

  function BlankBuffer(r: Receiver): Receiver {
    r.(buffer := map k | k in r.buffer :: Blank(r.buffer[k]))
  }

  lemma {:induction false} DrainBlank(r: Receiver)
    ensures Drain(BlankBuffer(r)) == BlankBuffer(Drain(r))
    decreases |r.buffer|
  {
    var b := BlankBuffer(r);
    if r.expected in r.buffer {
      var rest := r.buffer - {r.expected};
      assert r.buffer.Keys == rest.Keys + {r.expected};
      var next := Receiver(r.expected + 1, rest, r.stream + StreamBytes(r.buffer[r.expected]));
      DrainBlank(next);
      assert BlankBuffer(next).buffer == b.buffer - {b.expected};
    } else {
      assert b.expected !in b.buffer;
    }
  }

  lemma HandleBlank(r: Receiver, m: AgentMessage)
    ensures Handle(BlankBuffer(r), Blank(m)) == BlankBuffer(Handle(r, m))
  {
    if SeqOf(m) == r.expected {
      var next := r.(expected := r.expected + 1, stream := r.stream + StreamBytes(m));
      DrainBlank(next);
      assert BlankBuffer(next) == BlankBuffer(r).(expected := next.expected, stream := next.stream);
    } else if SeqOf(m) > r.expected {
      assert BlankBuffer(Handle(r, m)).buffer == BlankBuffer(r).buffer[SeqOf(m) := Blank(m)];
    }
  }

  // The payloads of other kinds than Output never reach the stream: without them every run
  // leads to the same stream and the same expected number.
  lemma {:induction false} OtherKindsIgnored(r: Receiver, arrivals: seq<AgentMessage>)
    ensures HandleAll(BlankBuffer(r), BlankAll(arrivals)) == BlankBuffer(HandleAll(r, arrivals))
    ensures HandleAll(BlankBuffer(r), BlankAll(arrivals)).stream == HandleAll(r, arrivals).stream
    ensures HandleAll(BlankBuffer(r), BlankAll(arrivals)).expected == HandleAll(r, arrivals).expected
  {
    if arrivals == [] {
    } else {
      hide Handle;
      var init, last := arrivals[..|arrivals| - 1], arrivals[|arrivals| - 1];
      OtherKindsIgnored(r, init);
      HandleBlank(HandleAll(r, init), last);
      assert BlankAll(arrivals)[..|arrivals| - 1] == BlankAll(init);
    }
  }

  // ----- the handshake step -----

  // A handshake message moves the expected number without draining the buffer.
  function Rebase(r: Receiver, handshakeSeq: int): Receiver {
    r.(expected := handshakeSeq + 1)
  }

  // The receiver never sits on the message it expects ...
  predicate Settled(r: Receiver) {
    r.expected !in r.buffer
  }

  lemma {:induction false} DrainSettles(r: Receiver)
    ensures Settled(Drain(r))
    decreases |r.buffer|
  {
    if r.expected in r.buffer {
      var rest := r.buffer - {r.expected};
      assert r.buffer.Keys == rest.Keys + {r.expected};
      DrainSettles(Receiver(r.expected + 1, rest, r.stream + StreamBytes(r.buffer[r.expected])));
    }
  }

  lemma {:induction false} HandleAllGrows(r: Receiver, arrivals: seq<AgentMessage>)
    ensures r.stream <= HandleAll(r, arrivals).stream && r.expected <= HandleAll(r, arrivals).expected
  {
    if arrivals == [] {
    } else {
      HandleAllGrows(r, arrivals[..|arrivals| - 1]);
      HandleGrows(HandleAll(r, arrivals[..|arrivals| - 1]), arrivals[|arrivals| - 1]);
    }
  }

  // ... except after a handshake step whose successor was already buffered. Then nothing
  // is ever delivered again unless that very number arrives a second time.
  lemma {:induction false} StuckAfterHandshake(r: Receiver, handshakeSeq: int, arrivals: seq<AgentMessage>)
    requires handshakeSeq + 1 in r.buffer
    ensures (exists m :: m in arrivals && SeqOf(m) == handshakeSeq + 1) <==>
            HandleAll(Rebase(r, handshakeSeq), arrivals).expected != handshakeSeq + 1
    ensures (forall m :: m in arrivals ==> SeqOf(m) != handshakeSeq + 1) ==>
            var after := HandleAll(Rebase(r, handshakeSeq), arrivals);
            after.stream == r.stream && handshakeSeq + 1 in after.buffer
  {
    if arrivals == [] {
    } else {
      var init, last := arrivals[..|arrivals| - 1], arrivals[|arrivals| - 1];
      StuckAfterHandshake(r, handshakeSeq, init);
      assert arrivals == init + [last];
      var before := HandleAll(Rebase(r, handshakeSeq), init);
      HandleGrows(before, last);
      HandleAllGrows(Rebase(r, handshakeSeq), init);
      if SeqOf(last) == before.expected {
        DrainGrows(before.(expected := before.expected + 1, stream := before.stream + StreamBytes(last)));
      }
    }
  }

  // The input is an ordinary one: any message that comes before the one it should follow.
  lemma StuckHappens(m: AgentMessage, arrivals: seq<AgentMessage>)
    requires SeqOf(m) > 0
    ensures var r := HandleAll(Start(0), [m]);
            && r.stream == [] && SeqOf(m) in r.buffer
            && ((forall a :: a in arrivals ==> SeqOf(a) != SeqOf(m)) ==>
                  var after := HandleAll(Rebase(r, SeqOf(m) - 1), arrivals);
                  after.stream == [] && after.expected == SeqOf(m) && SeqOf(m) in after.buffer)
  {
    assert [m][..0] == [];
    assert HandleAll(Start(0), [m]) == Handle(Start(0), m);
    var r := HandleAll(Start(0), [m]);
    StuckAfterHandshake(r, SeqOf(m) - 1, arrivals);
  }

  // ----- after a handshake step that finds its successor not yet there -----

  // r is c with earlier bytes in front and stale numbers in the buffer.
  ghost predicate Beside(r: Receiver, c: Receiver, before: bytes, stale: Arrived) {
    && r.expected == c.expected && r.stream == before + c.stream
    && (forall k :: k in r.buffer <==> k in c.buffer || k in stale)
    && (forall k :: k in r.buffer ==> r.buffer[k] == if k in c.buffer then c.buffer[k] else stale[k])
    && (forall k :: k in stale ==> k < c.expected && k !in c.buffer)
    && (forall k :: k in c.buffer ==> k >= c.expected)
  }

  lemma {:induction false} DrainBeside(r: Receiver, c: Receiver, before: bytes, stale: Arrived)
    requires Beside(r, c, before, stale)
    ensures Beside(Drain(r), Drain(c), before, stale)
    decreases |c.buffer|
  {
    if c.expected in c.buffer {
      var r1 := Receiver(r.expected + 1, r.buffer - {r.expected}, r.stream + StreamBytes(r.buffer[r.expected]));
      var c1 := Receiver(c.expected + 1, c.buffer - {c.expected}, c.stream + StreamBytes(c.buffer[c.expected]));
      assert c.buffer.Keys == c1.buffer.Keys + {c.expected};
      assert r1.stream == before + c1.stream;
      DrainBeside(r1, c1, before, stale);
    }
  }

  lemma HandleBeside(r: Receiver, c: Receiver, m: AgentMessage, before: bytes, stale: Arrived)
    requires Beside(r, c, before, stale) && Settled(c)
    ensures Beside(Handle(r, m), Handle(c, m), before, stale) && Settled(Handle(c, m))
  {
    if SeqOf(m) == c.expected {
      var r1 := r.(expected := r.expected + 1, stream := r.stream + StreamBytes(m));
      var c1 := c.(expected := c.expected + 1, stream := c.stream + StreamBytes(m));
      assert r1.stream == before + c1.stream;
      DrainBeside(r1, c1, before, stale);
      DrainSettles(c1);
    }
  }

  lemma {:induction false} HandleAllBeside(r: Receiver, c: Receiver, arrivals: seq<AgentMessage>, before: bytes,
                                           stale: Arrived)
    requires Beside(r, c, before, stale) && Settled(c)
    ensures Beside(HandleAll(r, arrivals), HandleAll(c, arrivals), before, stale) && Settled(HandleAll(c, arrivals))
  {
    hide Handle, Beside;
    if arrivals == [] {
    } else {
      HandleAllBeside(r, c, arrivals[..|arrivals| - 1], before, stale);
      HandleBeside(HandleAll(r, arrivals[..|arrivals| - 1]), HandleAll(c, arrivals[..|arrivals| - 1]),
                   arrivals[|arrivals| - 1], before, stale);
    }
  }

  // What the handshake step leaves in front of the receiver: the buffered numbers above it.
  function Kept(r: Receiver, handshakeSeq: int): Arrived {
    Above(r.buffer, handshakeSeq + 1)
  }

  // When the successor of the handshake message is not buffered yet, everything that
  // arrives later is delivered as it should be: exactly the bytes of the unbroken run of
  // numbers from that successor on, over what was buffered and what arrives. Stale numbers
  // stay in the buffer and numbers stepped over are never delivered.
  lemma HandshakeDelivers(r: Receiver, handshakeSeq: int, arrivals: seq<AgentMessage>)
    requires handshakeSeq + 1 !in r.buffer && ConsistentOn(Kept(r, handshakeSeq), arrivals)
    ensures var end := HandleAll(Rebase(r, handshakeSeq), arrivals);
            var got := NoteOn(handshakeSeq + 1, Kept(r, handshakeSeq), arrivals);
            && end.expected >= handshakeSeq + 1 && end.expected !in got
            && (forall k :: handshakeSeq + 1 <= k < end.expected ==> k in got)
            && end.stream == r.stream + Concat(got, handshakeSeq + 1, end.expected)
            && (forall k :: k in end.buffer <==> (k in got && k > end.expected) || (k in r.buffer && k <= handshakeSeq))
  {
    var from := handshakeSeq + 1;
    var kept := Kept(r, handshakeSeq);
    var stale := map k | k in r.buffer && k <= handshakeSeq :: r.buffer[k];
    var c := Receiver(from, kept, []);
    assert Describes(c, from, kept);
    assert Rebase(r, handshakeSeq).stream == r.stream + c.stream;
    HandleAllBeside(Rebase(r, handshakeSeq), c, arrivals, r.stream, stale);
    DescribedOn(c, from, kept, arrivals);
  }

  // Without that condition the receiver is left on a message it holds; a data message
  // never leaves it so.
  lemma HandleSettles(r: Receiver, m: AgentMessage)
    requires Settled(r)
    ensures Settled(Handle(r, m))
  {
    if SeqOf(m) == r.expected {
      DrainSettles(r.(expected := r.expected + 1, stream := r.stream + StreamBytes(m)));
    }
  }
}
