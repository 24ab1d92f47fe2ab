// The binary frame of the SSM data channel (internal/protocol/message.go).
//
// Layout: HeaderLength 4, MessageType 32, SchemaVersion 4, CreatedDate 8,
// SequenceNumber 8, Flags 8, MessageId 16 (halves swapped), PayloadDigest 32,
// PayloadType 4, PayloadLength 4, then the payload.
module Message {
  import opened Bytes
  import opened Common

  type Uuid = s: bytes | |s| == 16 witness seq(16, i => 0)
  type Digest = s: bytes | |s| == 32 witness seq(32, i => 0)

  // SHA-256 is a parameter: nothing below depends on which function it is.
  type Hash = bytes -> Digest

  const TOTAL_HEADER_LEN := 120
  const HEADER_LENGTH_VALUE: uint32 := 116
  const PAYLOAD_LENGTH_LEN := 4
  const MESSAGE_TYPE_LEN := 32

  const PAYLOAD_TYPE_OUTPUT: uint32 := 1
  const FLAG_DATA: uint64 := 0
  const SCHEMA_VERSION: uint32 := 1

  const SPACE: byte := 0x20
  const NUL: byte := 0x00

  function Ascii(s: string): (b: bytes)
    ensures |b| == |s|
  {
    seq(|s|, i requires 0 <= i < |s| => s[i] as int % 0x100)
  }

  const INPUT_STREAM_DATA: bytes := Ascii("input_stream_data")

  datatype Header = Header(
    headerLength: uint32,
    messageType: bytes,
    schemaVersion: uint32,
    createdDate: uint64,
    sequenceNumber: int64,
    flags: uint64,
    messageId: Uuid,
    payloadDigest: Digest,
    payloadType: uint32,
    payloadLength: uint32)

  datatype AgentMessage = AgentMessage(header: Header, payload: bytes)

  // What UnmarshalMessage can do. OutOfRange is the run-time panic of the slice
  // expression when the wrapped 32-bit end lies before the payload offset.
  datatype Decoded =
    | Ok(message: AgentMessage)
    | TooShort
    | Incomplete
    | OutOfRange

  function NewInputMessage(payload: bytes, seqNo: int64, id: Uuid, created: uint64): AgentMessage {
    AgentMessage(
      Header(HEADER_LENGTH_VALUE, INPUT_STREAM_DATA, SCHEMA_VERSION, created, seqNo, FLAG_DATA, id,
             seq(32, i => 0), PAYLOAD_TYPE_OUTPUT, Uint32(|payload|)),
      payload)
  }

  // ----- the padded type field -----

  function Truncated(messageType: bytes): (t: bytes)
    ensures |t| <= MESSAGE_TYPE_LEN
  {
    if |messageType| <= MESSAGE_TYPE_LEN then messageType else messageType[..MESSAGE_TYPE_LEN]
  }

  function PadType(messageType: bytes): (field: bytes)
    ensures |field| == MESSAGE_TYPE_LEN
  {
    var t := Truncated(messageType);
    t + seq(MESSAGE_TYPE_LEN - |t|, i => SPACE)
  }

  predicate IsPadding(b: byte) {
    b == SPACE || b == NUL
  }

  // strings.TrimRight(s, "\x00 ")
  function TrimRight(s: bytes): (t: bytes)
    ensures t <= s
    ensures t == [] || !IsPadding(t[|t| - 1])
    ensures forall i :: |t| <= i < |s| ==> IsPadding(s[i])
  {
    if s != [] && IsPadding(s[|s| - 1]) then TrimRight(s[..|s| - 1]) else s
  }

  // The three postconditions of TrimRight leave one candidate only.
  lemma TrimRightUnique(s: bytes, t: bytes)
    requires t <= s
    requires t == [] || !IsPadding(t[|t| - 1])
    requires forall i :: |t| <= i < |s| ==> IsPadding(s[i])
    ensures TrimRight(s) == t
  {
    var u := TrimRight(s);
    assert t == s[..|t|] && u == s[..|u|];
  }

  lemma TrimPad(messageType: bytes)
    ensures TrimRight(PadType(messageType)) == TrimRight(Truncated(messageType))
  {
    var t := Truncated(messageType);
    var r := TrimRight(t);
    var field := PadType(messageType);
    assert forall i :: 0 <= i < |t| ==> field[i] == t[i];
    TrimRightUnique(field, r);
  }

  // ----- encoding -----

  // SchemaVersion to MessageId: the two halves of the id change places.
  function MiddleBytes(h: Header): (s: bytes)
    ensures |s| == 44
  {
    PutBig(h.schemaVersion, 4) + PutBig(h.createdDate, 8) + PutBig(ToBits(h.sequenceNumber), 8)
    + PutBig(h.flags, 8) + h.messageId[8..16] + h.messageId[0..8]
  }

  function Encode(sha: Hash, m: AgentMessage): (s: bytes)
    ensures |s| == TOTAL_HEADER_LEN + |m.payload|
  {
    PutBig(m.header.headerLength, 4) + PadType(m.header.messageType) + MiddleBytes(m.header)
    + sha(m.payload) + PutBig(m.header.payloadType, 4) + PutBig(Uint32(|m.payload|), 4) + m.payload
  }

  // ----- decoding -----

  function ReadHeader(data: bytes): (h: Header)
    requires |data| >= TOTAL_HEADER_LEN
  {
    MachineWidths();
    Header(GetBig(data[0..4]), TrimRight(data[4..36]), GetBig(data[36..40]), GetBig(data[40..48]),
           FromBits(GetBig(data[48..56])), GetBig(data[56..64]), data[72..80] + data[64..72],
           data[80..112], GetBig(data[112..116]), GetBig(data[116..120]))
  }

  function Decode(data: bytes): Decoded {
    if |data| < TOTAL_HEADER_LEN then TooShort
    else
      var h := ReadHeader(data);
      var offset := Uint32(h.headerLength + PAYLOAD_LENGTH_LEN);
      var end := Uint32(offset + h.payloadLength);
      if Uint32(|data|) < end then Incomplete
      else if end < offset then OutOfRange
      else Ok(AgentMessage(h, data[offset..end]))
  }

  // ----- the methods -----

  // The fixed 32-byte array: filled with spaces, then overwritten by the type.
  method FillType(messageType: bytes) returns (field: bytes)
    ensures field == PadType(messageType)
  {
    var typeBytes := new byte[MESSAGE_TYPE_LEN];
    for i := 0 to MESSAGE_TYPE_LEN
      invariant forall k :: 0 <= k < i ==> typeBytes[k] == SPACE
    {
      typeBytes[i] := SPACE;
    }
    var n := if |messageType| < MESSAGE_TYPE_LEN then |messageType| else MESSAGE_TYPE_LEN;
    for i := 0 to n
      invariant forall k :: 0 <= k < i ==> typeBytes[k] == messageType[k]
      invariant forall k :: i <= k < MESSAGE_TYPE_LEN ==> typeBytes[k] == SPACE
    {
      typeBytes[i] := messageType[i];
    }
    field := typeBytes[..];
  }

  method MarshalBinary(sha: Hash, m: AgentMessage) returns (out: bytes)
    ensures out == Encode(sha, m)
  {
    var buf: bytes := [];
    buf := buf + PutBig(m.header.headerLength, 4);
    var typeBytes := FillType(m.header.messageType);
    buf := buf + typeBytes;
    buf := buf + PutBig(m.header.schemaVersion, 4);
    buf := buf + PutBig(m.header.createdDate, 8);
    buf := buf + PutBig(ToBits(m.header.sequenceNumber), 8);
    buf := buf + PutBig(m.header.flags, 8);
    buf := buf + m.header.messageId[8..16];
    buf := buf + m.header.messageId[0..8];
    buf := buf + sha(m.payload);
    buf := buf + PutBig(m.header.payloadType, 4);
    buf := buf + PutBig(Uint32(|m.payload|), 4);
    buf := buf + m.payload;
    out := buf;
  }

  method UnmarshalMessage(data: bytes) returns (result: Decoded)
    ensures result == Decode(data)
  {
    if |data| < TOTAL_HEADER_LEN {
      return TooShort;
    }
    MachineWidths();
    var pos := 0;
    var headerLength := GetBig(data[pos..pos + 4]);
    pos := pos + 4;
    var messageType := TrimRight(data[pos..pos + 32]);
    pos := pos + 32;
    var schemaVersion := GetBig(data[pos..pos + 4]);
    pos := pos + 4;
    var createdDate := GetBig(data[pos..pos + 8]);
    pos := pos + 8;
    var sequenceNumber := FromBits(GetBig(data[pos..pos + 8]));
    pos := pos + 8;
    var flags := GetBig(data[pos..pos + 8]);
    pos := pos + 8;
    var lsb := data[pos..pos + 8];
    pos := pos + 8;
    var msb := data[pos..pos + 8];
    pos := pos + 8;
    var digest := data[pos..pos + 32];
    pos := pos + 32;
    var payloadType := GetBig(data[pos..pos + 4]);
    pos := pos + 4;
    var payloadLength := GetBig(data[pos..pos + 4]);
    var h := Header(headerLength, messageType, schemaVersion, createdDate, sequenceNumber, flags,
                    msb + lsb, digest, payloadType, payloadLength);

    var payloadOffset := Uint32(headerLength + PAYLOAD_LENGTH_LEN);
    var end := Uint32(payloadOffset + payloadLength);
    if Uint32(|data|) < end {
      return Incomplete;
    }
    if end < payloadOffset {
      return OutOfRange;
    }
    return Ok(AgentMessage(h, data[payloadOffset..end]));
  }

  // ----- round trips -----

  // The header as it comes back: type truncated and trimmed, digest and length recomputed.
  function Sealed(sha: Hash, m: AgentMessage): AgentMessage {
    m.(header := m.header.(
         messageType := TrimRight(Truncated(m.header.messageType)),
         payloadDigest := sha(m.payload),
         payloadLength := Uint32(|m.payload|)))
  }

  // A frame cut at the type field, the digest, the payload type and the payload length.
  lemma Pieces(data: bytes, a: bytes, b: bytes, c: bytes, d: bytes, e: bytes, f: bytes, g: bytes)
    requires |data| >= TOTAL_HEADER_LEN
    requires |a| == 4 && |b| == 32 && |c| == 44 && |d| == 32 && |e| == 4 && |f| == 4
    ensures data == a + b + c + d + e + f + g <==>
            && data[..4] == a && data[4..36] == b && data[36..80] == c && data[80..112] == d
            && data[112..116] == e && data[116..120] == f && data[TOTAL_HEADER_LEN..] == g
  {
    var whole := a + b + c + d + e + f + g;
    assert whole[..4] == a && whole[4..36] == b && whole[36..80] == c && whole[80..112] == d;
    assert whole[112..116] == e && whole[116..120] == f && whole[TOTAL_HEADER_LEN..] == g;
    assert data == data[..4] + data[4..36] + data[36..80] + data[80..112] + data[112..116]
                   + data[116..120] + data[TOTAL_HEADER_LEN..];
  }

  // The middle of a frame read back field by field, and written again.
  lemma MiddleRead(data: bytes)
    requires |data| >= TOTAL_HEADER_LEN
    ensures MiddleBytes(ReadHeader(data)) == data[36..80]
  {
    MachineWidths();
    PutGet(data[36..40]);
    PutGet(data[40..48]);
    PutGet(data[48..56]);
    PutGet(data[56..64]);
    var h := ReadHeader(data);
    assert h.messageId[8..16] == data[64..72] && h.messageId[0..8] == data[72..80];
    assert data[36..80] == data[36..40] + data[40..48] + data[48..56] + data[56..64]
                           + data[64..72] + data[72..80];
  }

  lemma Halves(id: Uuid)
    ensures id[0..8] + id[8..16] == id
  {
  }

  lemma SliceOf(data: bytes, s: bytes, a: nat, b: nat)
    requires |data| >= 80 && data[36..80] == s && a <= b <= 44
    ensures data[36 + a..36 + b] == s[a..b]
  {
    forall i | a <= i < b ensures data[36 + i] == s[i] {
      assert data[36 + i] == data[36..80][i];
    }
  }

  lemma MiddleSlices(h: Header, data: bytes)
    requires |data| >= TOTAL_HEADER_LEN && data[36..80] == MiddleBytes(h)
    ensures data[36..40] == PutBig(h.schemaVersion, 4)
    ensures data[40..48] == PutBig(h.createdDate, 8)
    ensures data[48..56] == PutBig(ToBits(h.sequenceNumber), 8)
    ensures data[56..64] == PutBig(h.flags, 8)
    ensures data[64..72] == h.messageId[8..16] && data[72..80] == h.messageId[0..8]
  {
    var s := MiddleBytes(h);
    assert s[0..4] == PutBig(h.schemaVersion, 4) && s[4..12] == PutBig(h.createdDate, 8);
    assert s[12..20] == PutBig(ToBits(h.sequenceNumber), 8) && s[20..28] == PutBig(h.flags, 8);
    assert s[28..36] == h.messageId[8..16] && s[36..44] == h.messageId[0..8];
    hide PutBig, MiddleBytes;
    SliceOf(data, s, 0, 4);
    SliceOf(data, s, 4, 12);
    SliceOf(data, s, 12, 20);
    SliceOf(data, s, 20, 28);
    SliceOf(data, s, 28, 36);
    SliceOf(data, s, 36, 44);
  }

  lemma MiddleFields(h: Header, data: bytes)
    requires |data| >= TOTAL_HEADER_LEN
    requires data[36..80] == MiddleBytes(h)
    ensures var r := ReadHeader(data);
            && r.schemaVersion == h.schemaVersion && r.createdDate == h.createdDate
            && r.sequenceNumber == h.sequenceNumber && r.flags == h.flags && r.messageId == h.messageId
  {
    MachineWidths();
    MiddleSlices(h, data);
    Halves(h.messageId);
    GetPut(h.schemaVersion, 4);
    GetPut(h.createdDate, 8);
    GetPut(ToBits(h.sequenceNumber), 8);
    GetPut(h.flags, 8);
  }

  lemma HeaderRoundTrip(sha: Hash, m: AgentMessage)
    ensures ReadHeader(Encode(sha, m)) == Sealed(sha, m).header
    ensures Encode(sha, m)[TOTAL_HEADER_LEN..] == m.payload
  {
    var h := m.header;
    var e := Encode(sha, m);
    MachineWidths();
    Pieces(e, PutBig(h.headerLength, 4), PadType(h.messageType), MiddleBytes(h), sha(m.payload),
           PutBig(h.payloadType, 4), PutBig(Uint32(|m.payload|), 4), m.payload);
    MiddleFields(h, e);
    GetPut(h.headerLength, 4);
    GetPut(h.payloadType, 4);
    GetPut(Uint32(|m.payload|), 4);
    TrimPad(h.messageType);
  }

  // For the HeaderLength every constructor writes, the payload survives the round trip
  // exactly when the whole frame is shorter than 2^32 bytes.
  lemma RoundTrip(sha: Hash, m: AgentMessage)
    requires m.header.headerLength == HEADER_LENGTH_VALUE
    ensures TOTAL_HEADER_LEN + |m.payload| < TWO_32 <==> Decode(Encode(sha, m)) == Ok(Sealed(sha, m))
    ensures TOTAL_HEADER_LEN + |m.payload| < TWO_32 <==>
            Decode(Encode(sha, m)).Ok? && Decode(Encode(sha, m)).message.payload == m.payload
  {
    HeaderRoundTrip(sha, m);
    var e := Encode(sha, m);
    if TOTAL_HEADER_LEN + |m.payload| < TWO_32 {
      assert e[TOTAL_HEADER_LEN..TOTAL_HEADER_LEN + |m.payload|] == m.payload;
    } else if Decode(e).Ok? {
      assert |Decode(e).message.payload| < TWO_32 - TOTAL_HEADER_LEN;
    }
  }

  // ... and it is the identity, up to digest and length, exactly for types of at most
  // 32 bytes that do not end in a pad byte.
  lemma RoundTripIdentity(sha: Hash, m: AgentMessage)
    requires m.header.headerLength == HEADER_LENGTH_VALUE
    requires TOTAL_HEADER_LEN + |m.payload| < TWO_32
    ensures Decode(Encode(sha, m)) ==
              Ok(m.(header := m.header.(payloadDigest := sha(m.payload), payloadLength := |m.payload|)))
            <==> |m.header.messageType| <= MESSAGE_TYPE_LEN
                 && (m.header.messageType == [] || !IsPadding(m.header.messageType[|m.header.messageType| - 1]))
  {
    RoundTrip(sha, m);
    var t := m.header.messageType;
    if |t| <= MESSAGE_TYPE_LEN && (t == [] || !IsPadding(t[|t| - 1])) {
      TrimRightUnique(t, t);
    }
  }

  // A frame whose re-encoding is the frame itself.
  predicate Canonical(sha: Hash, data: bytes)
    requires |data| >= TOTAL_HEADER_LEN
  {
    var h := ReadHeader(data);
    && data[4..36] == PadType(h.messageType)
    && h.payloadDigest == sha(data[TOTAL_HEADER_LEN..])
    && |data| == TOTAL_HEADER_LEN + h.payloadLength
  }

  lemma PayloadIsPrefix(data: bytes)
    requires Decode(data).Ok?
    requires Decode(data).message.header.headerLength == HEADER_LENGTH_VALUE
    ensures var m := Decode(data).message;
            && m.header == ReadHeader(data)
            && |m.payload| == m.header.payloadLength <= |data| - TOTAL_HEADER_LEN
            && m.payload == data[TOTAL_HEADER_LEN..][..m.header.payloadLength]
  {
  }

  // Decoding and encoding again gives back the same bytes exactly for canonical frames:
  // space padding, a matching digest, nothing after the payload.
  lemma Reencode(sha: Hash, data: bytes)
    requires Decode(data).Ok?
    requires Decode(data).message.header.headerLength == HEADER_LENGTH_VALUE
    ensures Encode(sha, Decode(data).message) == data <==> Canonical(sha, data)
  {
    var m := Decode(data).message;
    var rest := data[TOTAL_HEADER_LEN..];
    PayloadIsPrefix(data);
    MiddleRead(data);
    MachineWidths();
    PutGet(data[0..4]);
    PutGet(data[112..116]);
    PutGet(data[116..120]);
    Pieces(data, data[..4], PadType(m.header.messageType), data[36..80], sha(m.payload),
           data[112..116], PutBig(|m.payload|, 4), m.payload);
    assert m.payload == rest <==> |data| == TOTAL_HEADER_LEN + m.header.payloadLength;
  }

  lemma SamePast36(data: bytes, fixed: bytes)
    requires 36 <= |data| == |fixed| && fixed[36..] == data[36..]
    ensures forall a, b {:trigger fixed[a..b]} | 36 <= a <= b <= |data| :: fixed[a..b] == data[a..b]
  {
    forall i | 36 <= i < |data| ensures fixed[i] == data[i] {
      assert fixed[36..][i - 36] == data[36..][i - 36];
    }
  }

  // However the type field is padded, with NULs, spaces or both, the frame decodes to the
  // same message as the space-padded one, as long as the payload starts past that field.
  lemma NulPaddingNormalises(data: bytes, fixed: bytes)
    requires |data| >= TOTAL_HEADER_LEN
    requires Uint32(ReadHeader(data).headerLength + PAYLOAD_LENGTH_LEN) >= 36
    requires fixed == data[..4] + PadType(TrimRight(data[4..36])) + data[36..]
    ensures Decode(fixed) == Decode(data)
  {
    var t := TrimRight(data[4..36]);
    assert fixed[4..36] == PadType(t);
    TrimPad(t);
    TrimRightUnique(t, t);
    SamePast36(data, fixed);
    assert fixed[0..4] == data[0..4];
  }

  // ----- where every byte stands -----

  lemma FieldAt(data: bytes, at: nat, width: nat, n: nat)
    requires at + width <= |data| && data[at..at + width] == PutBig(n, width)
    ensures BigEndianAt(data, at, width, n)
  {
    PutBytes(n, width);
    forall j | at <= j < at + width ensures data[j] == n / Pow256(at + width - 1 - j) % 256 {
      assert data[j] == data[at..at + width][j - at];
    }
  }

  lemma MiddleLayout(h: Header, data: bytes)
    requires |data| >= TOTAL_HEADER_LEN && data[36..80] == MiddleBytes(h)
    ensures BigEndianAt(data, 36, 4, h.schemaVersion)
    ensures BigEndianAt(data, 40, 8, h.createdDate)
    ensures BigEndianAt(data, 48, 8, h.sequenceNumber % TWO_64)
    ensures BigEndianAt(data, 56, 8, h.flags)
    ensures data[64..72] == h.messageId[8..16] && data[72..80] == h.messageId[0..8]
  {
    hide PutBig, BigEndianAt;
    MiddleSlices(h, data);
    FieldAt(data, 36, 4, h.schemaVersion);
    FieldAt(data, 40, 8, h.createdDate);
    FieldAt(data, 48, 8, ToBits(h.sequenceNumber));
    FieldAt(data, 56, 8, h.flags);
  }

  // The frame byte by byte: every field at its offset, numbers most significant byte first,
  // a negative sequence number in two's complement, the second half of the id first.
  lemma Layout(sha: Hash, m: AgentMessage)
    ensures var e, h := Encode(sha, m), m.header;
            && |e| == 120 + |m.payload|
            && BigEndianAt(e, 0, 4, h.headerLength)
            && (forall i :: 0 <= i < 32 ==> e[4 + i] == if i < |h.messageType| then h.messageType[i] else 0x20)
            && BigEndianAt(e, 36, 4, h.schemaVersion)
            && BigEndianAt(e, 40, 8, h.createdDate)
            && BigEndianAt(e, 48, 8, h.sequenceNumber % TWO_64)
            && BigEndianAt(e, 56, 8, h.flags)
            && e[64..72] == h.messageId[8..16] && e[72..80] == h.messageId[0..8]
            && e[80..112] == sha(m.payload)
            && BigEndianAt(e, 112, 4, h.payloadType)
            && BigEndianAt(e, 116, 4, |m.payload| % TWO_32)
            && e[120..] == m.payload
  {
    var e, h := Encode(sha, m), m.header;
    Pieces(e, PutBig(h.headerLength, 4), PadType(h.messageType), MiddleBytes(h), sha(m.payload),
           PutBig(h.payloadType, 4), PutBig(Uint32(|m.payload|), 4), m.payload);
    MiddleLayout(h, e);
    hide PutBig, BigEndianAt, Encode, MiddleBytes;
    FieldAt(e, 0, 4, h.headerLength);
    FieldAt(e, 112, 4, h.payloadType);
    FieldAt(e, 116, 4, Uint32(|m.payload|));
    forall i | 0 <= i < 32 ensures e[4 + i] == if i < |h.messageType| then h.messageType[i] else 0x20 {
      assert e[4 + i] == e[4..36][i] == PadType(h.messageType)[i];
    }
  }

  lemma InputMessageType()
    ensures |INPUT_STREAM_DATA| <= MESSAGE_TYPE_LEN
    ensures !IsPadding(INPUT_STREAM_DATA[|INPUT_STREAM_DATA| - 1])
  {
    var s := "input_stream_data";
    assert |s| == 17 && s[16] == 'a';
  }

  lemma {:induction false} SmallBig(n: byte, width: nat)
    requires width > 0
    ensures PutBig(n, width) == seq(width - 1, i => 0) + [n]
  {
    if width == 1 {
      assert PutBig(n / 256, 0) == [];
    } else {
      SmallBig(0, width - 1);
      assert n / 256 == 0;
    }
  }

  // The constant bytes of a stream chunk's frame.
  lemma InputLayout(sha: Hash, payload: bytes, k: int64, id: Uuid, created: uint64)
    ensures var e := Encode(sha, NewInputMessage(payload, k, id, created));
            && e[0..4] == [0, 0, 0, 116]
            && e[4..21] == Ascii("input_stream_data") && (forall i :: 21 <= i < 36 ==> e[i] == 0x20)
            && e[36..40] == [0, 0, 0, 1]
            && e[56..64] == [0, 0, 0, 0, 0, 0, 0, 0]
            && e[112..116] == [0, 0, 0, 1]
  {
    var m := NewInputMessage(payload, k, id, created);
    var e := Encode(sha, m);
    var s := MiddleBytes(m.header);
    assert s[0..4] == PutBig(1, 4) && s[20..28] == PutBig(0, 8);
    InputMessageType();
    SmallBig(116, 4);
    SmallBig(1, 4);
    SmallBig(0, 8);
    assert PutBig(0, 8) == [0, 0, 0, 0, 0, 0, 0, 0];
    hide PutBig;
    Pieces(e, PutBig(116, 4), PadType(INPUT_STREAM_DATA), s, sha(payload), PutBig(1, 4),
           PutBig(Uint32(|payload|), 4), payload);
    hide Encode, MiddleBytes;
    SliceOf(e, s, 0, 4);
    SliceOf(e, s, 20, 28);
    assert e[4..36][..17] == e[4..21] && PadType(INPUT_STREAM_DATA)[..17] == INPUT_STREAM_DATA;
    forall i | 21 <= i < 36 ensures e[i] == 0x20 {
      assert e[i] == e[4..36][i - 4];
    }
  }

  // What is read back, by the weight of each byte.
  lemma ReadLayout(data: bytes)
    requires |data| >= 120
    ensures var h := ReadHeader(data);
            && h.headerLength == Weighted(data[0..4])
            && h.schemaVersion == Weighted(data[36..40])
            && h.createdDate == Weighted(data[40..48])
            && h.sequenceNumber % TWO_64 == Weighted(data[48..56])
            && h.flags == Weighted(data[56..64])
            && h.messageId[8..16] == data[64..72] && h.messageId[0..8] == data[72..80]
            && h.payloadDigest == data[80..112]
            && h.payloadType == Weighted(data[112..116])
            && h.payloadLength == Weighted(data[116..120])
            && h.messageType <= data[4..36]
            && (h.messageType == [] || h.messageType[|h.messageType| - 1] !in {0x00, 0x20})
            && forall i :: 4 + |h.messageType| <= i < 36 ==> data[i] in {0x00, 0x20}
  {
    MachineWidths();
    GetWeighted(data[0..4]);
    GetWeighted(data[36..40]);
    GetWeighted(data[40..48]);
    GetWeighted(data[48..56]);
    GetWeighted(data[56..64]);
    GetWeighted(data[112..116]);
    GetWeighted(data[116..120]);
  }

  // Which frames decode, and to which payload, in 32-bit arithmetic on the header's lengths.
  lemma DecodesExactly(data: bytes)
    ensures Decode(data).TooShort? <==> |data| < 120
    ensures |data| >= 120 ==>
              var h := ReadHeader(data);
              var offset := (h.headerLength + 4) % TWO_32;
              var end := (offset + h.payloadLength) % TWO_32;
              && (Decode(data).Incomplete? <==> |data| % TWO_32 < end)
              && (Decode(data).Ok? <==> offset <= end <= |data| % TWO_32)
              && (Decode(data).Ok? ==> Decode(data).message == AgentMessage(h, data[offset..end]))
  {
  }

  // UnmarshalMessage fails to return exactly when the 32-bit end of the payload wraps
  // past its own offset and the wrapped end still lies inside the frame.
  lemma OutOfRangeExactly(data: bytes)
    requires |data| >= TOTAL_HEADER_LEN
    ensures Decode(data).OutOfRange? <==>
            var h := ReadHeader(data);
            var offset := (h.headerLength + PAYLOAD_LENGTH_LEN) % TWO_32;
            && offset + h.payloadLength >= TWO_32
            && offset + h.payloadLength - TWO_32 <= |data| % TWO_32
  {
  }

  // Such a frame is 120 bytes long: a HeaderLength of 2^32 - 5 puts the payload at offset
  // 2^32 - 1, and a length of one ends it at 0.
  lemma OutOfRangeHappens() returns (data: bytes)
    ensures |data| == TOTAL_HEADER_LEN && Decode(data).OutOfRange?
  {
    MachineWidths();
    GetPut(0xFFFF_FFFB, 4);
    GetPut(1, 4);
    data := PutBig(0xFFFF_FFFB, 4) + seq(112, i => 0) + PutBig(1, 4);
    assert data[0..4] == PutBig(0xFFFF_FFFB, 4) && data[116..120] == PutBig(1, 4);
    OutOfRangeExactly(data);
  }
}
