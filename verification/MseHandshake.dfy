/** The two sides of the encryption handshake over a transport that delivers in arbitrary chunks. */
module MseHandshake {
  import opened Bytes
  import opened Modular
  import opened Rc4
  import opened Streams
  import opened EncryptedStreams
  import opened Mse

  datatype MseStream = Encrypted(stream: EncryptedStream) | Plain(plain: PlaintextStream)

  datatype HandshakeResult = Done(stream: MseStream, infoHash: Option<Bytes>) | Failed(why: Failure)

  // ----- reading ----------------------------------------------------------------------------------------

  /** Read until `data`, which begins at `from`, holds `need` bytes and no more; None if the stream ends first. */
  method Fill(reader: StreamReader, data: Bytes, need: nat, ghost from: nat) returns (r: Option<Bytes>)
    requires reader.Valid() && from <= reader.consumed && data == reader.stream[from..reader.consumed]
    modifies reader
    ensures reader.Valid() && old(reader.consumed) <= reader.consumed
    ensures r.Some? <==> from + need <= |reader.stream|
    ensures r.Some? ==> reader.consumed == Max(old(reader.consumed), from + need)
    ensures r.Some? ==> r.value == reader.stream[from..reader.consumed]
  {
    var filled := data;
    while |filled| < need
      invariant reader.Valid() && from <= reader.consumed && old(reader.consumed) <= reader.consumed
      invariant reader.consumed <= Max(old(reader.consumed), from + need)
      invariant filled == reader.stream[from..reader.consumed]
      decreases |reader.stream| - reader.consumed
    {
      var chunk := reader.Read(need - |filled|);
      if chunk == [] { return None; }
      filled := filled + chunk;
    }
    return Some(filled);
  }

  datatype Scanned = Located(buffer: Bytes, pos: nat) | Ended | TooFar

  /** The scanning loop of both sides, from where the reader stands. */
  method ScanFor(reader: StreamReader, marker: Bytes, tail: nat, limit: nat) returns (r: Scanned)
    requires reader.Valid() && 0 < |marker| <= tail
    modifies reader
    ensures reader.Valid() && old(reader.consumed) <= reader.consumed
    ensures var w := reader.stream[old(reader.consumed)..];
            var end := Scan(reader.schedule, old(reader.turn), 0, |w|, Find(w, marker), |marker|, tail, limit);
            match r
            case Located(buffer, pos) =>
              && end == Found(|buffer|) && Find(w, marker) == Some(pos)
              && buffer == reader.stream[old(reader.consumed)..reader.consumed] == w[..|buffer|]
            case Ended => end == OutOfStream
            case TooFar => end == OverLimit
  {
    hide Find;
    var from := reader.consumed;
    ghost var w := reader.stream[from..];
    ghost var at, turn := Find(w, marker), reader.turn;
    var buffer, pos: Option<nat> := [], None;
    FindFits(w, marker);
    while pos.None? || |buffer| < pos.value + tail
      invariant reader.Valid() && from <= reader.consumed
      invariant buffer == reader.stream[from..reader.consumed] == w[..|buffer|]
      invariant pos == if at.Some? && at.value + |marker| <= |buffer| then at else None
      invariant Scan(reader.schedule, turn, 0, |w|, at, |marker|, tail, limit)
             == Scan(reader.schedule, reader.turn, |buffer|, |w|, at, |marker|, tail, limit)
      decreases |reader.stream| - reader.consumed
    {
      var chunk := reader.Read(CHUNK);
      if chunk == [] { return Ended; }
      buffer := buffer + chunk;
      assert buffer == w[..|buffer|];
      FindInPrefix(w, |buffer|, marker);
      if pos.None? { pos := Find(buffer, marker); }
      if |buffer| > limit && pos.None? { return TooFar; }
    }
    return Located(buffer, pos.value);
  }

  // ----- what a side's result says ------------------------------------------------------------------------

  /**
   * The result carries out the verdict, unless the scan gave up: RC4 opens an encrypted stream, plaintext
   * a plain one over the same transport.
   */
  predicate Follows(r: HandshakeResult, scan: ScanEnd, verdict: Verdict, reader: StreamReader, writer: StreamWriter) {
    if scan.OverLimit? then r == Failed(MarkerMissing)
    else
      match r
      case Failed(why) => verdict == Refused(why)
      case Done(stream, infoHash) =>
        && verdict.Agreed? && (stream.Encrypted? <==> verdict.select == RC4_BIT)
        && (stream.Plain? ==> stream.plain.reader == reader && stream.plain.writer == writer)
        && (infoHash.Some? ==> infoHash.value == verdict.infoHash)
  }

  /** A stream whose payload begins, in both directions, right behind the handshake. */
  ghost predicate Opened(s: EncryptedStream, reader: StreamReader, writer: StreamWriter,
                         start: nat, theirs: Cipher, ours: Cipher)
    reads s, s.reader, s.writer, s.enc, s.enc.S, s.dec, s.dec.S
  {
    && s.Valid() && s.reader == reader && s.writer == writer
    && s.start == start && s.theirs == theirs && s.ours == ours
    && s.delivered == [] && s.written == [] && s.before == writer.sent
  }

  lemma Shift(stream: Bytes, a: nat, b: nat)
    requires KEY_LENGTH + a <= KEY_LENGTH + b <= |stream|
    ensures stream[KEY_LENGTH..][a..b] == stream[KEY_LENGTH + a..KEY_LENGTH + b]
  {}

  lemma SliceOfPrefix(s: Bytes, n: nat, a: nat, b: nat)
    requires a <= b <= n <= |s|
    ensures s[..n][a..b] == s[a..b]
  {}

  // ----- decrypting what was read --------------------------------------------------------------------------

  /** Take n bytes off the front of `data`, decrypted; the cipher moves on by as many. */
  method Take(dec: RC4, data: Bytes, n: nat) returns (plain: Bytes, rest: Bytes)
    requires dec.Valid() && n <= |data|
    modifies dec, dec.S
    ensures dec.Valid() && dec.State() == After(old(dec.State()), n)
    ensures plain == Process(old(dec.State()), data[..n]) && rest == data[n..]
  {
    hide Process, After;
    plain := dec.Update(data[..n]);
    rest := data[n..];
  }

  /** The head of a block, and what was read behind it. */
  method ReadHeadBytes(reader: StreamReader, dec: RC4, data: Bytes, pos: nat) returns (head: Head, rest: Bytes)
    requires reader.Valid() && dec.Valid()
    requires KEY_LENGTH + pos <= reader.consumed && data == reader.stream[KEY_LENGTH + pos..reader.consumed]
    modifies reader, dec, dec.S
    ensures reader.Valid() && dec.Valid() && old(reader.consumed) <= reader.consumed
    ensures head == ReadHead(reader.stream[KEY_LENGTH..], pos, old(dec.State()))
    ensures head.Head? ==>
              && reader.consumed == Max(old(reader.consumed), KEY_LENGTH + pos + 14)
              && dec.State() == After(old(dec.State()), 14)
              && rest == reader.stream[KEY_LENGTH + pos + 14..reader.consumed]
  {
    hide Process, After, FromBigEndian;
    var filled := Fill(reader, data, 14, KEY_LENGTH + pos);
    if filled.None? { return ShortHead, []; }
    Shift(reader.stream, pos, pos + 14);
    assert filled.value[..14] == reader.stream[KEY_LENGTH + pos..KEY_LENGTH + pos + 14];
    var plain, more := Take(dec, filled.value, 14);
    if plain[..8] != VC { return NoVcHead, []; }
    return Head(FromBigEndian(plain[8..12]), FromBigEndian(plain[12..14])), more;
  }

  /** Read n bytes that stand at `pos` and drop them, the cipher moving on; what was read beyond them stays. */
  method SkipOver(reader: StreamReader, dec: RC4, data: Bytes, n: nat, ghost pos: nat) returns (rest: Option<Bytes>)
    requires reader.Valid() && dec.Valid()
    requires KEY_LENGTH + pos <= reader.consumed && data == reader.stream[KEY_LENGTH + pos..reader.consumed]
    modifies reader, dec, dec.S
    ensures reader.Valid() && dec.Valid() && old(reader.consumed) <= reader.consumed
    ensures rest.Some? <==> KEY_LENGTH + pos + n <= |reader.stream|
    ensures rest.Some? ==>
              && reader.consumed == Max(old(reader.consumed), KEY_LENGTH + pos + n)
              && dec.State() == After(old(dec.State()), n)
              && rest.value == reader.stream[KEY_LENGTH + pos + n..reader.consumed]
  {
    hide Process;
    if n == 0 { return Some(data); }
    var filled := Fill(reader, data, n, KEY_LENGTH + pos);
    if filled.None? { return None; }
    var _, more := Take(dec, filled.value, n);
    return Some(more);
  }

  datatype Opening = Opening(block: Block, data: Bytes)

  /** What a block's reader leaves: the cipher behind the block, and what was read beyond it. */
  ghost predicate Past(reader: StreamReader, dec: RC4, r: Opening, c: Cipher, pos: nat, before: nat)
    requires dec.Valid()
    reads reader, dec, dec.S
  {
    r.block.Block? ==>
      && pos <= r.block.next
      && reader.consumed == Max(before, KEY_LENGTH + r.block.next) <= |reader.stream|
      && dec.State() == After(c, r.block.next - pos)
      && r.data == reader.stream[KEY_LENGTH + r.block.next..reader.consumed]
  }

  /** The receiver's reply, its pad dropped. */
  method ReadReplyBlock(reader: StreamReader, dec: RC4, data: Bytes, pos: nat) returns (r: Opening)
    requires reader.Valid() && dec.Valid()
    requires KEY_LENGTH + pos <= reader.consumed && data == reader.stream[KEY_LENGTH + pos..reader.consumed]
    modifies reader, dec, dec.S
    ensures reader.Valid() && dec.Valid() && old(reader.consumed) <= reader.consumed
    ensures r.block == ReadReply(reader.stream[KEY_LENGTH..], pos, old(dec.State()))
    ensures Past(reader, dec, r, old(dec.State()), pos, old(reader.consumed))
  {
    hide Process, After, ReadHead;
    ghost var c := dec.State();
    var head, rest := ReadHeadBytes(reader, dec, data, pos);
    if head.ShortHead? { return Opening(Short, []); }
    if head.NoVcHead? { return Opening(NoVc, []); }
    var n := head.padLength;
    var skipped := SkipOver(reader, dec, rest, n, pos + 14);
    if skipped.None? { return Opening(Short, []); }
    AfterSum(c, 14, n);
    return Opening(Block(head.value, pos + 14 + n), skipped.value);
  }

  /** The initiator's block: the pad and the length of an initial payload are read as one. */
  method ReadHelloBlock(reader: StreamReader, dec: RC4, data: Bytes, pos: nat) returns (r: Opening)
    requires reader.Valid() && dec.Valid()
    requires KEY_LENGTH + pos <= reader.consumed && data == reader.stream[KEY_LENGTH + pos..reader.consumed]
    modifies reader, dec, dec.S
    ensures reader.Valid() && dec.Valid() && old(reader.consumed) <= reader.consumed
    ensures r.block == ReadHello(reader.stream[KEY_LENGTH..], pos, old(dec.State()))
    ensures Past(reader, dec, r, old(dec.State()), pos, old(reader.consumed))
  {
    hide Process, After, ReadHead, FromBigEndian;
    ghost var c := dec.State();
    var head, rest := ReadHeadBytes(reader, dec, data, pos);
    if head.ShortHead? { return Opening(Short, []); }
    if head.NoVcHead? { return Opening(NoVc, []); }
    var at, need := pos + 14, head.padLength + 2;
    var filled := Fill(reader, rest, need, KEY_LENGTH + at);
    if filled.None? { return Opening(Short, []); }
    Shift(reader.stream, at, at + need);
    assert filled.value[..need] == reader.stream[KEY_LENGTH + at..KEY_LENGTH + at + need];
    var plain, tail := Take(dec, filled.value, need);
    AfterSum(c, 14, need);
    var length := FromBigEndian(plain[head.padLength..need]);
    var skipped := SkipOver(reader, dec, tail, length, at + need);
    if skipped.None? { return Opening(Short, []); }
    AfterSum(c, 14 + need, length);
    return Opening(Block(head.value, at + need + length), skipped.value);
  }

  // ----- the two sides ----------------------------------------------------------------------------------------

  /** How far the reader stands after a handshake that ended well: at its end, or where the scan had got to. */
  ghost predicate Took(r: HandshakeResult, scan: ScanEnd, verdict: Verdict, reader: StreamReader)
    reads reader
  {
    r.Done? ==> scan.Found? && verdict.Agreed? && reader.consumed == KEY_LENGTH + Max(scan.taken, verdict.next)
  }

  /** The initiator's stream: the reply's cipher carries on behind the reply, ours where it stands. */
  ghost predicate InitiatorOpened(s: EncryptedStream, reader: StreamReader, writer: StreamWriter, d: Derivation,
                                  infoHash: Bytes, next: nat, ours: Cipher)
    reads s, s.reader, s.writer, s.enc, s.enc.S, s.dec, s.dec.S
  {
    var pos := Find(reader.stream[Min(KEY_LENGTH, |reader.stream|)..], d.Marker(infoHash));
    && pos.Some? && pos.value <= next
    && Opened(s, reader, writer, KEY_LENGTH + next, After(d.CipherB(infoHash), next - pos.value), ours)
  }

  /** Step 4 of the initiator: judge the selection and build the stream, what was read ahead included. */
  method Conclude(reader: StreamReader, writer: StreamWriter, policy: Policy, opening: Opening, enc: RC4, dec: RC4)
    returns (r: HandshakeResult)
    requires reader.Valid() && enc.Valid() && dec.Valid() && enc != dec && enc.S != dec.S && opening.block.Block?
    requires KEY_LENGTH + opening.block.next <= reader.consumed
    requires opening.data == reader.stream[KEY_LENGTH + opening.block.next..reader.consumed]
    modifies dec, dec.S
    ensures r.Done? <==> Accepts(policy, opening.block.value)
    ensures r.Failed? ==> r.why == Unacceptable
    ensures r.Done? ==> r.infoHash == None && (r.stream.Encrypted? <==> opening.block.value == RC4_BIT)
    ensures r.Done? && r.stream.Plain? ==> r.stream.plain.reader == reader && r.stream.plain.writer == writer
    ensures r.Done? && r.stream.Encrypted? ==>
              var s := r.stream.stream;
              && fresh(s) && s.enc == enc && s.dec == dec
              && Opened(s, reader, writer, KEY_LENGTH + opening.block.next, old(dec.State()), enc.State())
  {
    hide Process, After;
    ghost var theirs := dec.State();
    var leftover := dec.Update(opening.data);
    var select := opening.block.value;
    if select == RC4_BIT {
      if policy == Disabled { return Failed(Unacceptable); }
      var s := new EncryptedStream(reader, writer, enc, dec, leftover, KEY_LENGTH + opening.block.next, theirs);
      return Done(Encrypted(s), None);
    } else if select == PLAINTEXT {
      if policy == Forced { return Failed(Unacceptable); }
      var plain := new PlaintextStream(reader, writer);
      return Done(Plain(plain), None);
    } else {
      return Failed(Unacceptable);
    }
  }

  /** Step 3 and 4 of the initiator: find the reply, read it, and build the stream. */
  method AwaitReply(reader: StreamReader, writer: StreamWriter, d: Derivation, infoHash: Bytes, policy: Policy,
                    enc: RC4)
    returns (r: HandshakeResult)
    requires reader.Valid() && reader.consumed == KEY_LENGTH && reader.turn == 0 && enc.Valid()
    modifies reader
    ensures reader.Valid()
    ensures var w := reader.stream[KEY_LENGTH..];
            var scan := ScanForReply(d, infoHash, w, reader.schedule);
            var verdict := InitiatorVerdict(d, infoHash, policy, w);
            Follows(r, scan, verdict, reader, writer) && Took(r, scan, verdict, reader)
    ensures r.Done? && r.stream.Encrypted? ==>
              var s := r.stream.stream;
              && fresh(s) && s.enc == enc && fresh(s.dec) && fresh(s.dec.S)
              && InitiatorOpened(s, reader, writer, d, infoHash,
                                 InitiatorVerdict(d, infoHash, policy, reader.stream[KEY_LENGTH..]).next, enc.State())
  {
    hide Process, After, Find, ReadReply, Keyed, Scan, Opened, Accepts;
    ghost var w := reader.stream[KEY_LENGTH..];
    var scout := new RC4(d.sha1(KEY_B + d.secret + infoHash), DISCARD);
    var marker := scout.Update(VC);
    var scan := ScanFor(reader, marker, MARKER_SIZE, INITIATOR_LIMIT);
    FindFits(w, marker);
    if scan.Ended? { return Failed(Closed); }
    if scan.TooFar? { return Failed(MarkerMissing); }

    var dec := new RC4(d.sha1(KEY_B + d.secret + infoHash), DISCARD);
    var opening := ReadReplyBlock(reader, dec, scan.buffer[scan.pos..], scan.pos);
    if opening.block.Short? { return Failed(Closed); }
    if opening.block.NoVc? { return Failed(VcMismatch); }
    r := Conclude(reader, writer, policy, opening, enc, dec);
  }

  /** The initiator: `_mse_initiate_inner`. */
  method Initiate(reader: StreamReader, writer: StreamWriter, group: Group, sha1: Bytes -> Digest,
                  infoHash: Bytes, policy: Policy, xa: nat, padA: Bytes, padC: Bytes)
    returns (r: HandshakeResult)
    requires reader.Valid() && reader.Fresh() && group.modulus > 0
    modifies reader, writer
    ensures reader.Valid()
    ensures writer.sent == old(writer.sent) + InitiatorSends(group, sha1, Initiator(infoHash, policy, xa, padA, padC),
                                                             reader.stream)
    ensures |reader.stream| < KEY_LENGTH ==> r == Failed(Closed)
    ensures |reader.stream| >= KEY_LENGTH ==>
              var d := Derivation(sha1, group.Secret(reader.stream[..KEY_LENGTH], xa));
              var w := reader.stream[KEY_LENGTH..];
              var scan := ScanForReply(d, infoHash, w, reader.schedule);
              var verdict := InitiatorVerdict(d, infoHash, policy, w);
              && Follows(r, scan, verdict, reader, writer) && Took(r, scan, verdict, reader)
              && (r.Done? && r.stream.Encrypted? ==>
                    var s := r.stream.stream;
                    && fresh(s) && fresh(s.enc) && fresh(s.enc.S) && fresh(s.dec) && fresh(s.dec.S)
                    && verdict.Agreed?
                    && InitiatorOpened(s, reader, writer, d, infoHash, verdict.next,
                                       After(d.CipherA(infoHash), 16 + |padC|)))
  {
    hide Process, After, Find, ReadReply, HelloBlock, Keyed, InitiatorVerdict, InitiatorOpened, ScanForReply;
    writer.Write(group.Public(xa) + padA);
    var key := reader.ReadExactly(KEY_LENGTH);
    if key.None? { return Failed(Closed); }
    assert key.value == reader.stream[..KEY_LENGTH];
    var d := Derivation(sha1, group.Secret(key.value, xa));
    var enc := new RC4(sha1(KEY_A + d.secret + infoHash), DISCARD);
    var block := enc.Update(HelloBlock(Provide(policy), padC));
    writer.Write(d.Req1() + d.Obfuscated(infoHash) + block);
    r := AwaitReply(reader, writer, d, infoHash, policy, enc);
  }

  /** The first key of the lookup that the obfuscated hash stands for. */
  method FindTorrent(d: Derivation, hashes: seq<Bytes>, obfuscated: Bytes) returns (r: Option<Bytes>)
    ensures r == d.Lookup(hashes, obfuscated)
  {
    for i := 0 to |hashes|
      invariant d.Lookup(hashes, obfuscated) == d.Lookup(hashes[i..], obfuscated)
    {
      if d.Obfuscated(hashes[i]) == obfuscated { return Some(hashes[i]); }
    }
    return None;
  }

  /** The receiver's stream: the hello's cipher carries on behind the hello, ours behind the reply. */
  ghost predicate ReceiverOpened(s: EncryptedStream, reader: StreamReader, writer: StreamWriter, d: Derivation,
                                 infoHash: Bytes, next: nat, replied: nat)
    reads s, s.reader, s.writer, s.enc, s.enc.S, s.dec, s.dec.S
  {
    var pos := Find(reader.stream[Min(KEY_LENGTH, |reader.stream|)..], d.Req1());
    && pos.Some? && pos.value + HASHES <= next
    && Opened(s, reader, writer, KEY_LENGTH + next, After(d.CipherA(infoHash), next - pos.value - HASHES),
              After(d.CipherB(infoHash), replied))
  }

  /** Steps 5 and 6 of the receiver: read the initiator's block, which stands at `pos`, and select a method. */
  method ReadOffer(reader: StreamReader, d: Derivation, infoHash: Bytes, policy: Policy, data: Bytes, pos: nat)
    returns (verdict: Verdict, leftover: Bytes, dec: RC4)
    requires reader.Valid() && KEY_LENGTH + pos <= reader.consumed
    requires data == reader.stream[KEY_LENGTH + pos..reader.consumed]
    modifies reader
    ensures reader.Valid() && fresh(dec) && fresh(dec.S) && dec.Valid()
    ensures var block := ReadHello(reader.stream[KEY_LENGTH..], pos, d.CipherA(infoHash));
            match block
            case Short => verdict == Refused(Closed)
            case NoVc => verdict == Refused(VcMismatch)
            case Block(provide, next) =>
              var select := Select(policy, provide);
              if select.None? then verdict == Refused(Unacceptable)
              else
                && verdict == Agreed(infoHash, select.value, next) && pos <= next
                && reader.consumed == Max(old(reader.consumed), KEY_LENGTH + next)
                && var theirs := After(d.CipherA(infoHash), next - pos);
                   var payload := reader.stream[KEY_LENGTH + next..reader.consumed];
                   dec.State() == After(theirs, |payload|) && leftover == Process(theirs, payload)
  {
    hide Process, After, ReadHello, Keyed;
    leftover := [];
    dec := new RC4(d.sha1(KEY_A + d.secret + infoHash), DISCARD);
    var hello := ReadHelloBlock(reader, dec, data, pos);
    if hello.block.Short? { return Refused(Closed), leftover, dec; }
    if hello.block.NoVc? { return Refused(VcMismatch), leftover, dec; }
    leftover := dec.Update(hello.data);
    var select := Select(policy, hello.block.value);
    if select.None? { return Refused(Unacceptable), leftover, dec; }
    return Agreed(infoHash, select.value, hello.block.next), leftover, dec;
  }

  /** Steps 3 to 6 of the receiver: find the initiator's hash, read its block and select a method. */
  method ReadAnnouncement(reader: StreamReader, d: Derivation, hashes: seq<Bytes>, policy: Policy)
    returns (verdict: Verdict, leftover: Bytes, dec: RC4?)
    requires reader.Valid() && reader.consumed == KEY_LENGTH && reader.turn == 0
    modifies reader
    ensures reader.Valid()
    ensures var v := reader.stream[KEY_LENGTH..];
            var scan := ScanForHello(d, v, reader.schedule);
            && verdict == (if scan.OverLimit? then Refused(MarkerMissing) else ReceiverVerdict(d, hashes, policy, v))
            && (verdict.Agreed? ==> scan.Found? && reader.consumed == KEY_LENGTH + Max(scan.taken, verdict.next))
    ensures verdict.Agreed? ==>
              var pos := Find(reader.stream[KEY_LENGTH..], d.Req1());
              && pos.Some? && pos.value + HASHES <= verdict.next && KEY_LENGTH + verdict.next <= reader.consumed
              && dec != null && fresh(dec) && fresh(dec.S) && dec.Valid()
              && var theirs := After(d.CipherA(verdict.infoHash), verdict.next - pos.value - HASHES);
                 var payload := reader.stream[KEY_LENGTH + verdict.next..reader.consumed];
                 dec.State() == After(theirs, |payload|) && leftover == Process(theirs, payload)
  {
    hide Process, After, Find, ReadHello, Keyed, XorBytes, Scan;
    ghost var v := reader.stream[KEY_LENGTH..];
    leftover, dec := [], null;
    var req1 := d.Req1();
    var scan := ScanFor(reader, req1, HASHES, RECEIVER_LIMIT);
    if scan.Ended? { return Refused(Closed), leftover, dec; }
    if scan.TooFar? { return Refused(MarkerMissing), leftover, dec; }
    var pos := scan.pos;
    SliceOfPrefix(v, |scan.buffer|, pos + HASH_SIZE, pos + HASHES);
    var matched := FindTorrent(d, hashes, scan.buffer[pos + HASH_SIZE..pos + HASHES]);
    if matched.None? { return Refused(UnknownTorrent), leftover, dec; }
    verdict, leftover, dec := ReadOffer(reader, d, matched.value, policy, scan.buffer[pos + HASHES..], pos + HASHES);
  }

  /** The receiver: `_mse_receive_inner`. */
  method Receive(reader: StreamReader, writer: StreamWriter, group: Group, sha1: Bytes -> Digest,
                 hashes: seq<Bytes>, policy: Policy, xb: nat, padB: Bytes, padD: Bytes)
    returns (r: HandshakeResult)
    requires reader.Valid() && reader.Fresh() && group.modulus > 0
    modifies reader, writer
    ensures reader.Valid()
    ensures writer.sent == old(writer.sent) + ReceiverSends(group, sha1, Receiver(hashes, policy, xb, padB, padD),
                                                            reader.stream, reader.schedule)
    ensures |reader.stream| < KEY_LENGTH ==> r == Failed(Closed)
    ensures |reader.stream| >= KEY_LENGTH ==>
              var d := Derivation(sha1, group.Secret(reader.stream[..KEY_LENGTH], xb));
              var v := reader.stream[KEY_LENGTH..];
              var scan, verdict := ScanForHello(d, v, reader.schedule), ReceiverVerdict(d, hashes, policy, v);
              && Follows(r, scan, verdict, reader, writer) && Took(r, scan, verdict, reader)
              && (r.Done? ==> r.infoHash == Some(verdict.infoHash))
              && (r.Done? && r.stream.Encrypted? ==>
                    var s := r.stream.stream;
                    && fresh(s) && fresh(s.enc) && fresh(s.enc.S) && fresh(s.dec) && fresh(s.dec.S)
                    && ReceiverOpened(s, reader, writer, d, verdict.infoHash, verdict.next, 14 + |padD|))
  {
    hide Process, After, Find, ReadHello, ReplyBlock, Keyed, ReceiverVerdict, XorBytes, PowMod, BigEndian, ScanForHello;
    var key := reader.ReadExactly(KEY_LENGTH);
    if key.None? { return Failed(Closed); }
    assert key.value == reader.stream[..KEY_LENGTH];
    writer.Write(group.Public(xb) + padB);
    var d := Derivation(sha1, group.Secret(key.value, xb));
    var verdict, leftover, dec := ReadAnnouncement(reader, d, hashes, policy);
    if verdict.Refused? { return Failed(verdict.why); }
    r := Answer(reader, writer, d, verdict, leftover, dec, padD);
  }

  /** Step 6 and 7 of the receiver: reply, and build the stream. */
  method Answer(reader: StreamReader, writer: StreamWriter, d: Derivation, verdict: Verdict, leftover: Bytes, dec: RC4,
                padD: Bytes)
    returns (r: HandshakeResult)
    requires reader.Valid() && dec.Valid() && verdict.Agreed? && KEY_LENGTH + verdict.next <= reader.consumed
    requires var pos := Find(reader.stream[KEY_LENGTH..], d.Req1());
             && pos.Some? && pos.value + HASHES <= verdict.next
             && var theirs := After(d.CipherA(verdict.infoHash), verdict.next - pos.value - HASHES);
                var payload := reader.stream[KEY_LENGTH + verdict.next..reader.consumed];
                dec.State() == After(theirs, |payload|) && leftover == Process(theirs, payload)
    modifies writer
    ensures r.Done? && r.infoHash == Some(verdict.infoHash) && (r.stream.Encrypted? <==> verdict.select == RC4_BIT)
    ensures r.stream.Plain? ==> r.stream.plain.reader == reader && r.stream.plain.writer == writer
    ensures writer.sent == old(writer.sent) + d.Reply(verdict.infoHash, verdict.select, padD)
    ensures r.stream.Encrypted? ==>
              var s := r.stream.stream;
              && fresh(s) && fresh(s.enc) && fresh(s.enc.S) && s.dec == dec
              && ReceiverOpened(s, reader, writer, d, verdict.infoHash, verdict.next, 14 + |padD|)
  {
    hide Process, After, Find, ReplyBlock, Keyed;
    var infoHash := verdict.infoHash;
    var enc := new RC4(d.sha1(KEY_B + d.secret + infoHash), DISCARD);
    var response := enc.Update(ReplyBlock(verdict.select, padD));
    writer.Write(response);
    if verdict.select == RC4_BIT {
      ghost var pos := Find(reader.stream[KEY_LENGTH..], d.Req1()).value;
      ghost var theirs := After(d.CipherA(infoHash), verdict.next - pos - HASHES);
      var s := new EncryptedStream(reader, writer, enc, dec, leftover, KEY_LENGTH + verdict.next, theirs);
      return Done(Encrypted(s), Some(infoHash));
    }
    var plain := new PlaintextStream(reader, writer);
    return Done(Plain(plain), Some(infoHash));
  }

  // ----- both sides together ----------------------------------------------------------------------------------

  lemma Parts(x: Bytes, pad: Bytes, rest: Bytes, more: Bytes)
    requires |x| == KEY_LENGTH
    ensures var stream := x + pad + rest + more;
            stream[..KEY_LENGTH] == x && stream[KEY_LENGTH..] == pad + rest + more
    ensures [] + (x + pad) + rest == x + pad + rest
  {}

  lemma RestBehindKey(stream: Bytes, behind: Bytes, taken: nat)
    requires |stream| >= KEY_LENGTH && behind == stream[KEY_LENGTH..] && taken <= |behind|
    ensures stream[KEY_LENGTH + taken..] == behind[taken..]
  {}

  /** A transport on which nothing was read or written yet. */
  ghost predicate Unused(reader: StreamReader, writer: StreamWriter, incoming: Bytes)
    reads reader, writer
  {
    reader.Valid() && reader.Fresh() && writer.sent == [] && reader.stream == incoming
  }

  /** B's side of an honest exchange. */
  method ReceiveHonest(s: Scene, reader: StreamReader, writer: StreamWriter) returns (r: HandshakeResult)
    requires s.Honest() && s.a.infoHash in s.b.hashes && s.Selected().Some?
    requires Unused(reader, writer, s.FromA() + s.moreA)
    modifies reader, writer
    ensures reader.Valid() && reader.consumed >= |s.FromA()|
    ensures writer.sent == s.FromB() && r.Done? && r.infoHash == Some(s.a.infoHash)
    ensures r.stream.Encrypted? <==> s.Selected() == Some(RC4_BIT)
    ensures r.stream.Plain? ==>
              var p := r.stream.plain;
              p.reader == reader && p.writer == writer && p.Rest() == PlainRestForB(s, reader.schedule)
    ensures r.stream.Encrypted? ==>
              var e := r.stream.stream;
              && fresh(e) && fresh(e.enc) && fresh(e.enc.S) && fresh(e.dec) && fresh(e.dec.S)
              && Opened(e, reader, writer, |s.FromA()|, s.CipherOfA(), s.CipherOfB())
  {
    hide Process, After, Find, Keyed, ReceiverVerdict, BigEndian, PowMod, HelloBlock, ReplyBlock, XorBytes, Opened,
         Scan;
    SameDerivation(s);
    ReceiverAgrees(s);
    MarkersInReach(s);
    HonestScansFind(s, reader.schedule);
    Parts(s.group.Public(s.a.exponent), s.a.padA, s.DerivedByA().SecondFlight(s.a.infoHash, s.a.policy, s.a.padC),
          s.moreA);
    Parts(s.group.Public(s.b.exponent), s.b.padB, s.DerivedByB().Reply(s.a.infoHash, s.Selected().value, s.b.padD), []);
    RestBehindKey(reader.stream, s.AfterKeyOfA(), TakenByB(s, reader.schedule));
    r := Receive(reader, writer, s.group, s.sha1, s.b.hashes, s.b.policy, s.b.exponent, s.b.padB, s.b.padD);
  }

  /** A's side of an honest exchange. */
  method InitiateHonest(s: Scene, reader: StreamReader, writer: StreamWriter) returns (r: HandshakeResult)
    requires s.Honest() && s.Selected().Some?
    requires Unused(reader, writer, s.FromB() + s.moreB)
    modifies reader, writer
    ensures reader.Valid() && reader.consumed >= |s.FromB()|
    ensures writer.sent == s.FromA() && r.Done?
    ensures r.stream.Encrypted? <==> s.Selected() == Some(RC4_BIT)
    ensures r.stream.Plain? ==>
              var p := r.stream.plain;
              p.reader == reader && p.writer == writer && p.Rest() == PlainRestForA(s, reader.schedule)
    ensures r.stream.Encrypted? ==>
              var e := r.stream.stream;
              && fresh(e) && fresh(e.enc) && fresh(e.enc.S) && fresh(e.dec) && fresh(e.dec.S)
              && Opened(e, reader, writer, |s.FromB()|, s.CipherOfB(), s.CipherOfA())
  {
    hide Process, After, Find, Keyed, InitiatorVerdict, BigEndian, PowMod, HelloBlock, ReplyBlock, XorBytes, Opened,
         Scan;
    SameDerivation(s);
    InitiatorAgrees(s);
    MarkersInReach(s);
    HonestScansFind(s, reader.schedule);
    Parts(s.group.Public(s.b.exponent), s.b.padB, s.DerivedByB().Reply(s.a.infoHash, s.Selected().value, s.b.padD),
          s.moreB);
    Parts(s.group.Public(s.a.exponent), s.a.padA, s.DerivedByA().SecondFlight(s.a.infoHash, s.a.policy, s.a.padC), []);
    RestBehindKey(reader.stream, s.AfterKeyOfB(), TakenByA(s, reader.schedule));
    r := Initiate(reader, writer, s.group, s.sha1, s.a.infoHash, s.a.policy, s.a.exponent, s.a.padA, s.a.padC);
  }

  /**
   * The two ends of an RC4 connection: in each direction the receiver's payload starts, with the sender's
   * cipher, right where the sender's handshake ends.
   */
  ghost predicate Connected(s: Scene, sa: EncryptedStream, sb: EncryptedStream)
    requires s.Honest() && s.Selected().Some?
  {
    && sa.theirs == sb.ours == s.CipherOfB() && sb.theirs == sa.ours == s.CipherOfA()
    && sa.before == s.FromA() && sb.start == |s.FromA()|
    && sb.before == s.FromB() && sa.start == |s.FromB()|
  }

  /** The two ends share no object. */
  ghost predicate Apart(sa: EncryptedStream, sb: EncryptedStream) {
    && sa != sb && sa.reader != sb.reader && sa.writer != sb.writer
    && sa.enc != sb.enc && sa.dec != sb.dec && sa.enc != sb.dec && sa.dec != sb.enc
    && sa.enc.S != sb.enc.S && sa.dec.S != sb.dec.S && sa.enc.S != sb.dec.S && sa.dec.S != sb.enc.S
  }

  /**
   * An honest exchange over a transport that delivers each side's bytes in any chunks: both sides
   * return, for the same torrent and with the same method, having sent what the other one read.  With
   * RC4 the two ends are connected and nothing is delivered or written yet; with plaintext each side goes
   * on with what its scan has left of the other's payload.
   */
  method HonestExchange(s: Scene, readerA: StreamReader, writerA: StreamWriter,
                        readerB: StreamReader, writerB: StreamWriter)
    returns (ra: HandshakeResult, rb: HandshakeResult)
    requires s.Honest() && s.a.infoHash in s.b.hashes && s.Selected().Some?
    requires readerA != readerB && writerA != writerB
    requires Unused(readerA, writerA, s.FromB() + s.moreB) && Unused(readerB, writerB, s.FromA() + s.moreA)
    modifies readerA, readerB, writerA, writerB
    ensures writerA.sent == s.FromA() && writerB.sent == s.FromB()
    ensures readerA.Valid() && readerB.Valid()
    ensures ra.Done? && rb.Done? && rb.infoHash == Some(s.a.infoHash)
    ensures ra.stream.Encrypted? <==> s.Selected() == Some(RC4_BIT)
    ensures rb.stream.Encrypted? <==> s.Selected() == Some(RC4_BIT)
    ensures s.Selected() == Some(RC4_BIT) ==>
              var sa, sb := ra.stream.stream, rb.stream.stream;
              && fresh(sa) && fresh(sa.enc) && fresh(sa.enc.S) && fresh(sa.dec) && fresh(sa.dec.S)
              && fresh(sb) && fresh(sb.enc) && fresh(sb.enc.S) && fresh(sb.dec) && fresh(sb.dec.S)
              && Apart(sa, sb)
              && sa.reader == readerA && sa.writer == writerA && sb.reader == readerB && sb.writer == writerB
              && sa.Valid() && sb.Valid() && Connected(s, sa, sb)
              && sa.delivered == [] && sb.delivered == [] && sa.written == [] && sb.written == []
    ensures s.Selected() != Some(RC4_BIT) ==>
              var pa, pb := ra.stream.plain, rb.stream.plain;
              && pa.reader == readerA && pa.writer == writerA && pb.reader == readerB && pb.writer == writerB
              && pa.Rest() == PlainRestForA(s, readerA.schedule) && pb.Rest() == PlainRestForB(s, readerB.schedule)
  {
    hide Process, After, Keyed, PlainRestForA, PlainRestForB;
    rb := ReceiveHonest(s, readerB, writerB);
    ra := InitiateHonest(s, readerA, writerA);
  }

  /** With nothing in flight the two ciphers of a direction are in the same state: S, i and j. */
  lemma Lockstep(sender: EncryptedStream, receiver: EncryptedStream)
    requires sender.Valid() && receiver.Valid() && receiver.theirs == sender.ours
    requires receiver.reader.consumed - receiver.start == |sender.written|
    ensures sender.enc.State() == receiver.dec.State()
  {}

  /** What the receiver takes is a prefix of what the sender sent. */
  lemma TakenWasSent(handshake: Bytes, sent: Bytes, stream: Bytes, consumed: nat)
    requires handshake <= sent <= stream && |handshake| <= consumed <= |sent|
    ensures handshake + stream[|handshake|..consumed] <= sent
  {}

  /** Everything sent so far is on its way, and nothing is read before it is sent. */
  ghost predicate Carried(sender: EncryptedStream, receiver: EncryptedStream)
    reads sender.writer, receiver.reader
  {
    sender.writer.sent <= receiver.reader.stream && receiver.reader.consumed <= |sender.writer.sent|
  }

  /**
   * From the first byte on: at any later time, whatever was written and read by then, B's caller has, with
   * what its buffer holds, exactly the beginning of what A's caller wrote after the handshake, and the other
   * way round.
   */
  lemma ConversationFromTheStart(s: Scene, sa: EncryptedStream, sb: EncryptedStream)
    requires s.Honest() && s.Selected().Some? && sa.Valid() && sb.Valid() && Connected(s, sa, sb)
    requires Carried(sa, sb) && Carried(sb, sa)
    ensures sb.reader.consumed - sb.start <= |sa.written|
    ensures sb.delivered + sb.buffer == sa.written[..sb.reader.consumed - sb.start]
    ensures sa.reader.consumed - sa.start <= |sb.written|
    ensures sa.delivered + sa.buffer == sb.written[..sa.reader.consumed - sa.start]
  {
    hide Process, After, Keyed;
    TakenWasSent(s.FromA(), sa.writer.sent, sb.reader.stream, sb.reader.consumed);
    TakenWasSent(s.FromB(), sb.writer.sent, sa.reader.stream, sa.reader.consumed);
    Fifo(sa, sb);
    Fifo(sb, sa);
  }

  lemma WholeMessage(got: Bytes, buffer: Bytes, message: Bytes, k: nat)
    requires k <= |message| == |got| && got + buffer == message[..k]
    ensures got == message
  {
    assert got == (got + buffer)[..|got|];
  }

  lemma StillToCome(e: EncryptedStream)
    requires e.Valid() && e.delivered == []
    ensures |e.buffer| + |e.reader.stream| - e.reader.consumed == |e.reader.stream| - e.start
  {}

  lemma SentSoFar(e: EncryptedStream)
    requires e.Valid()
    ensures e.writer.sent == e.before + Process(e.ours, e.written) && e.reader.consumed <= |e.reader.stream|
  {}

  /** Each end, having written its message, reads the other's. */
  method ReadMessages(s: Scene, sa: EncryptedStream, sb: EncryptedStream, sizeA: nat, sizeB: nat)
    returns (gotA: Option<Bytes>, gotB: Option<Bytes>)
    requires s.Honest() && s.Selected().Some? && sa.Valid() && sb.Valid() && Connected(s, sa, sb) && Apart(sa, sb)
    requires sa.delivered == [] && sb.delivered == [] && |sa.written| == sizeA && |sb.written| == sizeB
    requires sb.reader.stream == sa.writer.sent && sa.reader.stream == sb.writer.sent
    modifies sa, sa.reader, sa.dec, sa.dec.S, sb, sb.reader, sb.dec, sb.dec.S
    ensures gotA == Some(old(sb.written)) && gotB == Some(old(sa.written))
  {
    hide Process, After, Keyed;
    SentSoFar(sa);
    SentSoFar(sb);
    StillToCome(sa);
    StillToCome(sb);
    gotA := sa.ReadExactly(sizeB);
    gotB := sb.ReadExactly(sizeA);
    assert [] + gotA.value == gotA.value && [] + gotB.value == gotB.value;
    ConversationFromTheStart(s, sa, sb);
    WholeMessage(gotA.value, sa.buffer, sb.written, sa.reader.consumed - sa.start);
    WholeMessage(gotB.value, sb.buffer, sa.written, sb.reader.consumed - sb.start);
  }

  /** Each end writes one message and reads the other's. */
  method SwapMessages(s: Scene, sa: EncryptedStream, sb: EncryptedStream, messageA: Bytes, messageB: Bytes)
    returns (gotA: Option<Bytes>, gotB: Option<Bytes>)
    requires s.Honest() && s.Selected().Some? && sa.Valid() && sb.Valid() && Connected(s, sa, sb) && Apart(sa, sb)
    requires sa.delivered == [] && sb.delivered == [] && sa.written == [] && sb.written == []
    requires sb.reader.stream == s.FromA() + Process(s.CipherOfA(), messageA)
    requires sa.reader.stream == s.FromB() + Process(s.CipherOfB(), messageB)
    modifies sa, sa.reader, sa.writer, sa.enc, sa.enc.S, sa.dec, sa.dec.S
    modifies sb, sb.reader, sb.writer, sb.enc, sb.enc.S, sb.dec, sb.dec.S
    ensures gotA == Some(messageB) && gotB == Some(messageA)
    ensures sa.writer.sent == sb.reader.stream && sb.writer.sent == sa.reader.stream
  {
    hide Process, After, Keyed;
    assert [] + messageA == messageA && [] + messageB == messageB;
    sa.Write(messageA);
    SentSoFar(sa);
    sb.Write(messageB);
    SentSoFar(sb);
    gotA, gotB := ReadMessages(s, sa, sb, |messageA|, |messageB|);
  }

  /**
   * A handshake and a message each way: the first bytes read behind the handshake are the first bytes
   * written behind it, whatever of them a scan had already taken.
   */
  method ExchangeMessages(s: Scene, messageA: Bytes, messageB: Bytes, readerA: StreamReader, writerA: StreamWriter,
                          readerB: StreamReader, writerB: StreamWriter)
    returns (gotA: Option<Bytes>, gotB: Option<Bytes>)
    requires s.Honest() && s.a.infoHash in s.b.hashes && s.Selected() == Some(RC4_BIT)
    requires s.moreA == Process(s.CipherOfA(), messageA) && s.moreB == Process(s.CipherOfB(), messageB)
    requires readerA != readerB && writerA != writerB
    requires Unused(readerA, writerA, s.FromB() + s.moreB) && Unused(readerB, writerB, s.FromA() + s.moreA)
    modifies readerA, readerB, writerA, writerB
    ensures gotA == Some(messageB) && gotB == Some(messageA)
    ensures writerA.sent == readerB.stream && writerB.sent == readerA.stream
  {
    hide Process, After, Keyed, Connected, Apart, EncryptedStream.Valid;
    var ra, rb := HonestExchange(s, readerA, writerA, readerB, writerB);
    gotA, gotB := SwapMessages(s, ra.stream.stream, rb.stream.stream, messageA, messageB);
  }
}
