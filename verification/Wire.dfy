/** The peer wire protocol (BEP 3, "peer messages") and its length-prefixed framing. */
module Wire {
  import opened Bytes
  import opened Streams

  /** Where a peer listens; sessions, endgame requests and choking slots are keyed by it. */
  datatype Addr = Addr(host: Bytes, port: nat)

  datatype Message =
    | KeepAlive
    | Choke
    | Unchoke
    | Interested
    | NotInterested
    | Have(index: nat)
    | Bitfield(data: Bytes)
    | Request(index: nat, begin: nat, length: nat)
    | Piece(index: nat, begin: nat, block: Bytes)
    | Cancel(index: nat, begin: nat, length: nat)

  const WORD := 0x1_0000_0000

  /** `struct.pack("!I", n)`. */
  function U32(n: nat): (r: Bytes)
    ensures |r| == 4
  {
    BigEndian(n, 4)
  }

  /** What follows the length prefix: the message id and its fields. */
  function Payload(m: Message): Bytes {
    match m
    case KeepAlive => []
    case Choke => [0]
    case Unchoke => [1]
    case Interested => [2]
    case NotInterested => [3]
    case Have(index) => [4] + U32(index)
    case Bitfield(data) => [5] + data
    case Request(index, begin, length) => [6] + (U32(index) + U32(begin) + U32(length))
    case Piece(index, begin, block) => [7] + (U32(index) + U32(begin) + block)
    case Cancel(index, begin, length) => [8] + (U32(index) + U32(begin) + U32(length))
  }

  predicate FieldsFit(m: Message) {
    match m
    case Have(index) => index < WORD
    case Request(index, begin, length) => index < WORD && begin < WORD && length < WORD
    case Piece(index, begin, _) => index < WORD && begin < WORD
    case Cancel(index, begin, length) => index < WORD && begin < WORD && length < WORD
    case _ => true
  }

  /** The length each serialiser writes: a literal, or a literal plus the size of the data. */
  function DeclaredLength(m: Message): nat {
    match m
    case KeepAlive => 0
    case Choke | Unchoke | Interested | NotInterested => 1
    case Have(_) => 5
    case Bitfield(data) => 1 + |data|
    case Request(_, _, _) | Cancel(_, _, _) => 13
    case Piece(_, _, block) => 9 + |block|
  }

  /** The bytes each serialiser packs. */
  function Frame(m: Message): Bytes {
    match m
    case KeepAlive => U32(0)
    case Choke => U32(1) + [0]
    case Unchoke => U32(1) + [1]
    case Interested => U32(1) + [2]
    case NotInterested => U32(1) + [3]
    case Have(index) => U32(5) + [4] + U32(index)
    case Bitfield(data) => U32(1 + |data|) + [5] + data
    case Request(index, begin, length) => U32(13) + [6] + U32(index) + U32(begin) + U32(length)
    case Piece(index, begin, block) => U32(9 + |block|) + [7] + U32(index) + U32(begin) + block
    case Cancel(index, begin, length) => U32(13) + [8] + U32(index) + U32(begin) + U32(length)
  }

  /** `to_bytes`; None is the struct.error for a field or length that does not fit 32 bits. */
  function ToBytes(m: Message): Option<Bytes> {
    if FieldsFit(m) && DeclaredLength(m) < WORD then Some(Frame(m)) else None
  }

  lemma FrameIsPrefixed(m: Message)
    ensures DeclaredLength(m) == |Payload(m)| && Frame(m) == U32(|Payload(m)|) + Payload(m)
  {
    hide BigEndian;
    match m
    case Have(index) => assert Frame(m) == U32(5) + ([4] + U32(index));
    case Bitfield(data) => assert Frame(m) == U32(1 + |data|) + ([5] + data);
    case Request(index, begin, length) =>
      assert Frame(m) == U32(13) + ([6] + (U32(index) + U32(begin) + U32(length)));
    case Piece(index, begin, block) =>
      assert Frame(m) == U32(9 + |block|) + ([7] + (U32(index) + U32(begin) + block));
    case Cancel(index, begin, length) =>
      assert Frame(m) == U32(13) + ([8] + (U32(index) + U32(begin) + U32(length)));
    case _ =>
  }

  /** Every serialised message starts with the length of what follows. */
  lemma PrefixIsLength(m: Message)
    requires ToBytes(m).Some?
    ensures var frame := ToBytes(m).value;
            |frame| >= 4 && FromBigEndian(frame[..4]) == |frame[4..]| && frame[4..] == Payload(m)
  {
    hide BigEndian, FromBigEndian, Payload, Frame;
    FrameIsPrefixed(m);
    U32RoundTrip(|Payload(m)|);
    assert (U32(|Payload(m)|) + Payload(m))[..4] == U32(|Payload(m)|);
  }

  datatype ParseResult = Parsed(message: Message) | StructError | UnknownId

  /** `parse_message`: short payloads raise struct.error, surplus bytes are ignored. */
  function ParseMessage(data: Bytes): ParseResult {
    if data == [] then Parsed(KeepAlive)
    else
      var id, payload := data[0], data[1..];
      if id == 0 then Parsed(Choke)
      else if id == 1 then Parsed(Unchoke)
      else if id == 2 then Parsed(Interested)
      else if id == 3 then Parsed(NotInterested)
      else if id == 4 then
        if |payload| < 4 then StructError else Parsed(Have(FromBigEndian(payload[..4])))
      else if id == 5 then Parsed(Bitfield(payload))
      else if id == 7 then
        if |payload| < 8 then StructError
        else Parsed(Piece(FromBigEndian(payload[..4]), FromBigEndian(payload[4..8]), payload[8..]))
      else if id == 6 || id == 8 then
        if |payload| < 12 then StructError
        else
          var index, begin, length :=
            FromBigEndian(payload[..4]), FromBigEndian(payload[4..8]), FromBigEndian(payload[8..12]);
          Parsed(if id == 6 then Request(index, begin, length) else Cancel(index, begin, length))
      else UnknownId
  }

  /** The payload length that leaves no byte of an accepted message unread. */
  function ExactLength(m: Message): nat {
    |Payload(m)|
  }

  lemma U32RoundTrip(n: nat)
    requires n < WORD
    ensures FromBigEndian(U32(n)) == n
  {
    assert Pow(256, 4) == WORD;
    BigEndianRoundTrip(n, 4);
  }

  lemma U32OfBytes(b: Bytes)
    requires |b| == 4
    ensures FromBigEndian(b) < WORD && U32(FromBigEndian(b)) == b
  {
    assert Pow(256, 4) == WORD;
    FromBigEndianRoundTrip(b);
  }

  lemma ParseOfPayload(m: Message)
    requires FieldsFit(m)
    ensures ParseMessage(Payload(m)) == Parsed(m)
  {
    hide BigEndian, FromBigEndian;
    match m
    case Have(index) =>
      U32RoundTrip(index);
      assert Payload(m)[1..][..4] == U32(index);
    case Bitfield(data) =>
      assert Payload(m)[1..] == data;
    case Piece(index, begin, block) =>
      U32RoundTrip(index);
      U32RoundTrip(begin);
      var fields := Payload(m)[1..];
      assert fields == U32(index) + U32(begin) + block;
      assert fields[..4] == U32(index) && fields[4..8] == U32(begin) && fields[8..] == block;
    case Request(index, begin, length) =>
      ThreeFields(index, begin, length, Payload(m));
    case Cancel(index, begin, length) =>
      ThreeFields(index, begin, length, Payload(m));
    case _ =>
  }

  lemma ThreeFields(index: nat, begin: nat, length: nat, payload: Bytes)
    requires index < WORD && begin < WORD && length < WORD
    requires |payload| == 13 && payload[1..] == U32(index) + U32(begin) + U32(length)
    ensures var fields := payload[1..];
            && FromBigEndian(fields[..4]) == index && FromBigEndian(fields[4..8]) == begin
            && FromBigEndian(fields[8..12]) == length
  {
    hide BigEndian, FromBigEndian;
    U32RoundTrip(index);
    U32RoundTrip(begin);
    U32RoundTrip(length);
    var fields := payload[1..];
    assert fields[..4] == U32(index) && fields[4..8] == U32(begin) && fields[8..12] == U32(length);
  }

  /** A message that was accepted carries 32-bit fields and re-serialises to a prefix of what was read. */
  lemma PayloadOfParse(data: Bytes)
    requires ParseMessage(data).Parsed?
    ensures var m := ParseMessage(data).message;
            FieldsFit(m) && ExactLength(m) <= |data| && Payload(m) == data[..ExactLength(m)]
  {
    hide BigEndian, FromBigEndian;
    if data != [] {
      var payload := data[1..];
      if data[0] == 4 {
        U32OfBytes(payload[..4]);
      } else if data[0] == 7 {
        U32OfBytes(payload[..4]);
        U32OfBytes(payload[4..8]);
        assert payload == payload[..4] + payload[4..8] + payload[8..];
      } else if data[0] == 6 || data[0] == 8 {
        U32OfBytes(payload[..4]);
        U32OfBytes(payload[4..8]);
        U32OfBytes(payload[8..12]);
        assert payload[..12] == payload[..4] + payload[4..8] + payload[8..12];
      }
    }
  }

  /** By message id: nothing behind the fixed fields. */
  predicate NoSurplus(data: Bytes) {
    data == [] ||
    var id := data[0];
    if id <= 3 then |data| == 1
    else if id == 4 then |data| == 5
    else if id == 6 || id == 8 then |data| == 13
    else true
  }

  lemma ExactIffNoSurplus(data: Bytes)
    requires ParseMessage(data).Parsed?
    ensures |data| == ExactLength(ParseMessage(data).message) <==> NoSurplus(data)
  {}

  /**
   * `parse_message` is inverted by `to_bytes` on exactly the payloads without surplus bytes: one byte for
   * ids 0 to 3, 5 for id 4, 13 for ids 6 and 8, any accepted size for ids 5 and 7.
   */
  lemma ReserialisesIffExact(data: Bytes)
    requires ParseMessage(data).Parsed? && |data| < WORD
    ensures ToBytes(ParseMessage(data).message) == Some(U32(|data|) + data) <==> NoSurplus(data)
  {
    PayloadOfParse(data);
    ExactIffNoSurplus(data);
    var m := ParseMessage(data).message;
    FrameIsPrefixed(m);
    hide Payload, ParseMessage, FieldsFit, BigEndian, FromBigEndian, Frame, NoSurplus;
    if |data| == ExactLength(m) {
      assert data[..|data|] == data;
    } else {
      assert |U32(|Payload(m)|) + Payload(m)| < |U32(|data|) + data|;
    }
  }

  // ----- framing ----------------------------------------------------------------------------

  datatype Received = Received(message: Message, next: nat) | Incomplete | Malformed

  /** `receive_message` on a stream already read up to `pos`. */
  function Receive(stream: Bytes, pos: nat): (r: Received)
    requires pos <= |stream|
    ensures r.Received? ==> pos + 4 <= r.next <= |stream|
  {
    if pos + 4 > |stream| then Incomplete
    else
      var length := FromBigEndian(stream[pos..pos + 4]);
      if length == 0 then Received(KeepAlive, pos + 4)
      else if pos + 4 + length > |stream| then Incomplete
      else
        var parsed := ParseMessage(stream[pos + 4..pos + 4 + length]);
        if parsed.Parsed? then Received(parsed.message, pos + 4 + length) else Malformed
  }

  /** Everything that repeated `receive_message` yields, when the stream ends on a message boundary. */
  function ReceiveAll(stream: Bytes, pos: nat): Option<seq<Message>>
    requires pos <= |stream|
    decreases |stream| - pos
  {
    if pos == |stream| then Some([])
    else
      var r := Receive(stream, pos);
      if !r.Received? then None
      else
        var rest := ReceiveAll(stream, r.next);
        if rest.None? then None else Some([r.message] + rest.value)
  }

  function SendAll(ms: seq<Message>): Option<Bytes> {
    if ms == [] then Some([])
    else
      var head, tail := ToBytes(ms[0]), SendAll(ms[1..]);
      if head.None? || tail.None? then None else Some(head.value + tail.value)
  }

  lemma ReceiveAt(before: Bytes, m: Message, after: Bytes)
    requires ToBytes(m).Some?
    ensures var frame := ToBytes(m).value;
            Receive(before + frame + after, |before|) == Received(m, |before| + |frame|)
  {
    hide BigEndian, FromBigEndian, Payload, ParseMessage, FieldsFit, Frame;
    FrameIsPrefixed(m);
    var frame, payload, pos := ToBytes(m).value, Payload(m), |before|;
    var stream := before + frame + after;
    assert stream[pos..pos + 4] == U32(|payload|);
    U32RoundTrip(|payload|);
    if |payload| == 0 {
      EmptyPayload(m);
    } else {
      assert stream[pos + 4..pos + 4 + |payload|] == payload;
      ParseOfPayload(m);
    }
  }

  lemma EmptyPayload(m: Message)
    requires Payload(m) == []
    ensures m == KeepAlive
  {}

  /** Every sent list of messages is received unchanged, and the stream is consumed exactly. */
  lemma {:induction false} FramingFrom(before: Bytes, ms: seq<Message>)
    requires SendAll(ms).Some?
    ensures ReceiveAll(before + SendAll(ms).value, |before|) == Some(ms)
    decreases |ms|
  {
    hide Receive, ToBytes;
    var stream := before + SendAll(ms).value;
    if ms != [] {
      var head, tail := ToBytes(ms[0]).value, SendAll(ms[1..]).value;
      ReceiveAt(before, ms[0], tail);
      assert stream == before + head + tail;
      FramingFrom(before + head, ms[1..]);
      assert [ms[0]] + ms[1..] == ms;
    }
  }

  lemma FramingRoundTrip(ms: seq<Message>)
    requires SendAll(ms).Some?
    ensures ReceiveAll(SendAll(ms).value, 0) == Some(ms)
  {
    FramingFrom([], ms);
    assert [] + SendAll(ms).value == SendAll(ms).value;
  }

  class PeerConnection {
    const reader: StreamReader

    constructor (reader: StreamReader)
      ensures this.reader == reader
    {
      this.reader := reader;
    }

    method ReceiveMessage() returns (r: Received)
      requires reader.Valid()
      modifies reader
      ensures reader.Valid() && r == Receive(reader.stream, old(reader.consumed))
      ensures r.Received? ==> reader.consumed == r.next
      ensures r.Incomplete? ==> reader.consumed == |reader.stream|
    {
      hide FromBigEndian, ParseMessage;
      var header := reader.ReadExactly(4);
      if header.None? { return Incomplete; }
      var length := FromBigEndian(header.value);
      if length == 0 { return Received(KeepAlive, reader.consumed); }
      var payload := reader.ReadExactly(length);
      if payload.None? { return Incomplete; }
      var parsed := ParseMessage(payload.value);
      if !parsed.Parsed? { return Malformed; }
      return Received(parsed.message, reader.consumed);
    }
  }

  // ----- handshake --------------------------------------------------------------------------

  datatype Handshake = Handshake(infoHash: Bytes, peerId: Bytes, reserved: Bytes)

  /** "BitTorrent protocol". */
  const PROTOCOL_STRING: Bytes :=
    [66, 105, 116, 84, 111, 114, 114, 101, 110, 116, 32, 112, 114, 111, 116, 111, 99, 111, 108]
  const HANDSHAKE_LENGTH := 68

  function HandshakeToBytes(h: Handshake): Bytes {
    [19] + PROTOCOL_STRING + h.reserved + h.infoHash + h.peerId
  }

  /** `Handshake.from_bytes`; None is its ValueError. */
  function HandshakeFromBytes(data: Bytes): Option<Handshake> {
    if |data| < HANDSHAKE_LENGTH || data[0] != 19 || data[1..20] != PROTOCOL_STRING then None
    else Some(Handshake(data[28..48], data[48..68], data[20..28]))
  }

  lemma HandshakeRoundTrip(h: Handshake)
    requires |h.reserved| == 8 && |h.infoHash| == 20 && |h.peerId| == 20
    ensures HandshakeFromBytes(HandshakeToBytes(h)) == Some(h)
  {
    var d := HandshakeToBytes(h);
    assert d[1..20] == PROTOCOL_STRING && d[20..28] == h.reserved;
    assert d[28..48] == h.infoHash && d[48..68] == h.peerId;
  }

  /** An accepted handshake is the serialisation of what was read from it, followed by surplus bytes. */
  lemma HandshakeIsCanonical(data: Bytes)
    requires HandshakeFromBytes(data).Some?
    ensures HandshakeToBytes(HandshakeFromBytes(data).value) == data[..HANDSHAKE_LENGTH]
  {
    var d := data[..HANDSHAKE_LENGTH];
    assert d == d[..1] + d[1..20] + d[20..28] + d[28..48] + d[48..68];
  }
}
