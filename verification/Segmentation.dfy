// Cutting a byte stream into numbered frames and putting it together again.
module Segmentation {
  import opened Bytes
  import opened Division
  import opened Message
  import opened Reorder

  const DEFAULT_CHUNK := 1024

  // The chunks Write sends: full ones, then one with the rest.
  function Segments(b: bytes, chunk: nat): (segs: seq<bytes>)
    requires 0 < chunk
    ensures forall i :: 0 <= i < |segs| ==> 0 < |segs[i]| <= chunk
  {
    if b == [] then []
    else if |b| <= chunk then [b]
    else [b[..chunk]] + Segments(b[chunk..], chunk)
  }

  function Flatten(segs: seq<bytes>): bytes {
    if segs == [] then [] else Flatten(segs[..|segs| - 1]) + segs[|segs| - 1]
  }

  lemma {:induction false} FlattenAppend(a: seq<bytes>, b: seq<bytes>)
    ensures Flatten(a + b) == Flatten(a) + Flatten(b)
  {
    if b == [] {
      assert a + b == a;
    } else {
      FlattenAppend(a, b[..|b| - 1]);
      assert (a + b)[..|a + b| - 1] == a + b[..|b| - 1];
      assert Flatten(a + b) == Flatten(a) + Flatten(b[..|b| - 1]) + b[|b| - 1];
    }
  }

  // Nothing lost, nothing added ...
  lemma {:induction false} SegmentsCover(b: bytes, chunk: nat)
    requires 0 < chunk
    ensures Flatten(Segments(b, chunk)) == b
    ensures forall i :: 0 <= i < |Segments(b, chunk)| - 1 ==> |Segments(b, chunk)[i]| == chunk
  {
    if b == [] {
    } else if |b| <= chunk {
      assert Flatten([b]) == Flatten([]) + b;
    } else {
      SegmentsCover(b[chunk..], chunk);
      FlattenAppend([b[..chunk]], Segments(b[chunk..], chunk));
      assert Flatten([b[..chunk]]) == Flatten([]) + b[..chunk];
      assert b[..chunk] + b[chunk..] == b;
    }
  }

  // ... and as few frames as the chunk size allows.
  lemma {:induction false} SegmentCount(b: bytes, chunk: nat)
    requires 0 < chunk
    ensures |Segments(b, chunk)| == (|b| + chunk - 1) / chunk
  {
    if |b| <= chunk {
      QuotientIs(|b| + chunk - 1, chunk, if b == [] then 0 else 1);
    } else {
      SegmentCount(b[chunk..], chunk);
      assert |b[chunk..]| + chunk - 1 == |b| - 1;
      QuotientNext(|b| - 1, chunk);
    }
  }

  // What names a frame besides its number and payload.
  datatype Stamp = Stamp(id: Uuid, created: uint64)

  function InputMessages(segs: seq<bytes>, first: nat, stamps: nat -> Stamp): (ms: seq<AgentMessage>)
    requires first + |segs| <= MAX_INT64
    ensures |ms| == |segs|
  {
    seq(|segs|, i requires 0 <= i < |segs| =>
      NewInputMessage(segs[i], first + i, stamps(i).id, stamps(i).created))
  }

  function Frames(sha: Hash, segs: seq<bytes>, first: nat, stamps: nat -> Stamp): (frames: seq<bytes>)
    requires first + |segs| <= MAX_INT64
    ensures |frames| == |segs|
  {
    var ms := InputMessages(segs, first, stamps);
    seq(|ms|, i requires 0 <= i < |ms| => Encode(sha, ms[i]))
  }

  // The bytes of the frames of some chunks, headers included.
  function FrameBytes(segs: seq<bytes>): nat {
    if segs == [] then 0 else FrameBytes(segs[..|segs| - 1]) + TOTAL_HEADER_LEN + |segs[|segs| - 1]|
  }

  lemma {:induction false} FrameBytesUpTo(segs: seq<bytes>, n: nat)
    requires n <= |segs|
    ensures FrameBytes(segs[..n]) <= FrameBytes(segs)
    ensures n < |segs| ==> FrameBytes(segs[..n + 1]) == FrameBytes(segs[..n]) + TOTAL_HEADER_LEN + |segs[n]|
    decreases |segs| - n
  {
    if n == |segs| {
      assert segs[..n] == segs;
    } else {
      assert segs[..n + 1][..n] == segs[..n];
      FrameBytesUpTo(segs, n + 1);
    }
  }

  // The first n segments.
  function First(segs: seq<bytes>, n: int): seq<bytes> {
    if 0 <= n <= |segs| then segs[..n] else segs
  }

  lemma FramesSnoc(sha: Hash, segs: seq<bytes>, n: nat, first: nat, stamps: nat -> Stamp)
    requires n < |segs| && first + |segs| <= MAX_INT64
    ensures Frames(sha, First(segs, n + 1), first, stamps)
            == Frames(sha, First(segs, n), first, stamps)
               + [Encode(sha, NewInputMessage(segs[n], first + n, stamps(n).id, stamps(n).created))]
    ensures Flatten(First(segs, n + 1)) == Flatten(First(segs, n)) + segs[n]
  {
    hide Encode;
    assert First(segs, n + 1)[..n] == First(segs, n);
  }

  lemma {:induction false} SegmentsShort(b: bytes, chunk: nat)
    requires 0 < chunk
    ensures |Segments(b, chunk)| <= |b|
  {
    if |b| > chunk {
      SegmentsShort(b[chunk..], chunk);
    }
  }

  // A frame built from a stream chunk decodes to that message, sealed.
  lemma InputRoundTrip(sha: Hash, payload: bytes, k: int64, id: Uuid, created: uint64)
    requires TOTAL_HEADER_LEN + |payload| < TWO_32
    ensures Decode(Encode(sha, NewInputMessage(payload, k, id, created)))
            == Ok(Sealed(sha, NewInputMessage(payload, k, id, created)))
    ensures var m := Sealed(sha, NewInputMessage(payload, k, id, created));
            && SeqOf(m) == k && StreamBytes(m) == payload
            && m.header.messageId == id && m.header.messageType == INPUT_STREAM_DATA
  {
    var m := NewInputMessage(payload, k, id, created);
    RoundTrip(sha, m);
    InputMessageType();
    TrimRightUnique(INPUT_STREAM_DATA, INPUT_STREAM_DATA);
  }

  // The bytes of a described receiver whose numbers are a run of segments.
  lemma {:induction false} ConcatIsFlatten(got: Arrived, first: int, hi: int, segs: seq<bytes>)
    requires hi == first + |segs|
    requires forall k :: first <= k < hi ==> k in got && StreamBytes(got[k]) == segs[k - first]
    ensures Concat(got, first, hi) == Flatten(segs)
    decreases segs
  {
    if segs == [] {
    } else {
      ConcatIsFlatten(got, first, hi - 1, segs[..|segs| - 1]);
    }
  }

  lemma FlattenNonEmpty(segs: seq<bytes>)
    requires segs != [] && segs[|segs| - 1] != []
    ensures Flatten(segs) != []
  {
  }

  // Every arrival is one of the segments, under its own number.
  ghost predicate Carries(got: Arrived, first: int, segs: seq<bytes>) {
    forall k :: k in got ==> first <= k < first + |segs| && StreamBytes(got[k]) == segs[k - first]
  }

  lemma FlattenPrefix(segs: seq<bytes>, n: nat)
    requires n <= |segs|
    requires forall i :: 0 <= i < |segs| ==> segs[i] != []
    ensures Flatten(First(segs, n)) <= Flatten(segs)
    ensures Flatten(First(segs, n)) == Flatten(segs) <==> n == |segs|
  {
    assert segs[..n] + segs[n..] == segs;
    FlattenAppend(segs[..n], segs[n..]);
    if n < |segs| {
      FlattenNonEmpty(segs[n..]);
    }
  }

  lemma DeliveredUpTo(r: Receiver, first: int, got: Arrived, segs: seq<bytes>)
    requires Describes(r, first, got) && Carries(got, first, segs)
    ensures first <= r.expected <= first + |segs|
    ensures r.expected == first + |segs| <==> forall k :: first <= k < first + |segs| ==> k in got
    ensures r.stream == Flatten(First(segs, r.expected - first))
  {
    assert first + |segs| !in got;
    ConcatIsFlatten(got, first, r.expected, First(segs, r.expected - first));
  }

  // Whatever subset has arrived, the stream is a whole number of leading segments; it is
  // all of them exactly when nothing is missing.
  lemma Delivered(r: Receiver, first: int, got: Arrived, segs: seq<bytes>)
    requires Describes(r, first, got) && Carries(got, first, segs)
    requires forall i :: 0 <= i < |segs| ==> segs[i] != []
    ensures first <= r.expected <= first + |segs|
    ensures r.stream == Flatten(First(segs, r.expected - first)) <= Flatten(segs)
    ensures r.stream == Flatten(segs) <==> forall k :: first <= k < first + |segs| ==> k in got
  {
    DeliveredUpTo(r, first, got, segs);
    FlattenPrefix(segs, r.expected - first);
  }

  // Every segment under its own number.
  ghost predicate Numbered(ms: seq<AgentMessage>, first: int, segs: seq<bytes>) {
    && |ms| == |segs|
    && forall i :: 0 <= i < |ms| ==> SeqOf(ms[i]) == first + i && StreamBytes(ms[i]) == segs[i]
  }

  ghost predicate Within(arrivals: seq<AgentMessage>, ms: seq<AgentMessage>) {
    forall m :: m in arrivals ==> m in ms
  }

  lemma NumberedApart(ms: seq<AgentMessage>, first: int, segs: seq<bytes>, a: AgentMessage, b: AgentMessage)
    requires Numbered(ms, first, segs) && a in ms && b in ms && SeqOf(a) == SeqOf(b)
    ensures a == b
    ensures first <= SeqOf(a) < first + |segs| && StreamBytes(a) == segs[SeqOf(a) - first]
  {
    var i :| 0 <= i < |ms| && ms[i] == a;
    var j :| 0 <= j < |ms| && ms[j] == b;
  }

  lemma NumberedConsistent(ms: seq<AgentMessage>, first: int, segs: seq<bytes>, arrivals: seq<AgentMessage>)
    requires Numbered(ms, first, segs) && Within(arrivals, ms)
    ensures Consistent(arrivals)
  {
    forall i, j | 0 <= i < |arrivals| && 0 <= j < |arrivals| && SeqOf(arrivals[i]) == SeqOf(arrivals[j])
      ensures arrivals[i] == arrivals[j]
    {
      NumberedApart(ms, first, segs, arrivals[i], arrivals[j]);
    }
  }

  lemma ArrivalsCarry(ms: seq<AgentMessage>, first: int, segs: seq<bytes>, arrivals: seq<AgentMessage>, got: Arrived)
    requires Numbered(ms, first, segs) && Within(arrivals, ms) && Collects(got, first, arrivals)
    ensures Carries(got, first, segs)
  {
    forall k | k in got ensures first <= k < first + |segs| && StreamBytes(got[k]) == segs[k - first] {
      NumberedApart(ms, first, segs, got[k], got[k]);
    }
  }

  lemma AllArrived(ms: seq<AgentMessage>, first: int, segs: seq<bytes>, arrivals: seq<AgentMessage>, got: Arrived)
    requires Numbered(ms, first, segs) && Within(arrivals, ms) && Collects(got, first, arrivals)
    requires Within(ms, arrivals)
    ensures forall k :: first <= k < first + |ms| ==> k in got
  {
    forall k | first <= k < first + |ms| ensures k in got {
      var m := ms[k - first];
      assert m in ms && SeqOf(m) == k;
    }
  }

  lemma NoneMissing(ms: seq<AgentMessage>, first: int, segs: seq<bytes>, arrivals: seq<AgentMessage>, got: Arrived)
    requires Numbered(ms, first, segs) && Within(arrivals, ms) && Collects(got, first, arrivals)
    requires forall k :: first <= k < first + |ms| ==> k in got
    ensures Within(ms, arrivals)
  {
    forall m | m in ms ensures m in arrivals {
      NumberedApart(ms, first, segs, m, m);
      var copy := got[SeqOf(m)];
      NumberedApart(ms, first, segs, m, copy);
    }
  }

  lemma NumberedReassembly(ms: seq<AgentMessage>, first: int, segs: seq<bytes>, arrivals: seq<AgentMessage>)
    requires Numbered(ms, first, segs) && Within(arrivals, ms)
    requires forall i :: 0 <= i < |segs| ==> segs[i] != []
    ensures var end := HandleAll(Start(first), arrivals);
            && first <= end.expected <= first + |segs|
            && end.stream == Flatten(First(segs, end.expected - first)) <= Flatten(segs)
            && (end.stream == Flatten(segs) <==> Within(ms, arrivals))
  {
    hide HandleAll, NoteAll, Describes, Collects, Consistent, Flatten;
    NumberedConsistent(ms, first, segs, arrivals);
    NoteAllCollects(first, arrivals);
    Characterised(first, arrivals);
    var got := NoteAll(first, arrivals);
    ArrivalsCarry(ms, first, segs, arrivals, got);
    if Within(ms, arrivals) {
      AllArrived(ms, first, segs, arrivals, got);
    } else if forall k :: first <= k < first + |ms| ==> k in got {
      NoneMissing(ms, first, segs, arrivals, got);
    }
    Delivered(HandleAll(Start(first), arrivals), first, got, segs);
  }

  ghost predicate DecodeTo(frames: seq<bytes>, ms: seq<AgentMessage>) {
    && |frames| == |ms|
    && forall i :: 0 <= i < |frames| ==> Decode(frames[i]) == Ok(ms[i])
  }

  // Every frame decodes, whatever its stamp, to its segment under its own number.
  lemma FramesDecode(sha: Hash, segs: seq<bytes>, first: nat, stamps: nat -> Stamp) returns (ms: seq<AgentMessage>)
    requires first + |segs| <= MAX_INT64
    requires forall i :: 0 <= i < |segs| ==> |segs[i]| <= DEFAULT_CHUNK
    ensures DecodeTo(Frames(sha, segs, first, stamps), ms)
    ensures Numbered(ms, first, segs)
  {
    hide Decode, Encode, SeqOf, StreamBytes;
    var raw := InputMessages(segs, first, stamps);
    ms := seq(|segs|, i requires 0 <= i < |segs| => Sealed(sha, raw[i]));
    forall i | 0 <= i < |segs|
      ensures Decode(Frames(sha, segs, first, stamps)[i]) == Ok(ms[i])
      ensures SeqOf(ms[i]) == first + i && StreamBytes(ms[i]) == segs[i]
    {
      InputRoundTrip(sha, segs[i], first + i, stamps(i).id, stamps(i).created);
    }
  }

  lemma DecodeToUnique(frames: seq<bytes>, a: seq<AgentMessage>, b: seq<AgentMessage>)
    requires DecodeTo(frames, a) && DecodeTo(frames, b)
    ensures a == b
  {
    forall i | 0 <= i < |a| ensures a[i] == b[i] {
      assert Ok(a[i]) == Decode(frames[i]) == Ok(b[i]);
    }
  }
  // The frames of b, decoded and handed over in any order with any repeats, always give
  // a whole number of leading chunks of b, and exactly b once each frame has come.
  lemma Reassembly(sha: Hash, b: bytes, chunk: nat, first: nat, stamps: nat -> Stamp,
                   ms: seq<AgentMessage>, arrivals: seq<AgentMessage>)
    requires 0 < chunk <= DEFAULT_CHUNK
    requires first + |Segments(b, chunk)| <= MAX_INT64
    requires DecodeTo(Frames(sha, Segments(b, chunk), first, stamps), ms)
    requires Within(arrivals, ms)
    ensures var end := HandleAll(Start(first), arrivals);
            && first <= end.expected <= first + |ms|
            && end.stream == Flatten(First(Segments(b, chunk), end.expected - first)) <= b
            && (end.stream == b <==> Within(ms, arrivals))
  {
    var segs := Segments(b, chunk);
    var same := FramesDecode(sha, segs, first, stamps);
    DecodeToUnique(Frames(sha, segs, first, stamps), ms, same);
    NumberedReassembly(ms, first, segs, arrivals);
    SegmentsCover(b, chunk);
  }
}
