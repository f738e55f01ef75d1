/** The RC4 layer over a connection. */
module EncryptedStreams {
  import opened Bytes
  import opened Rc4
  import opened Streams

  class EncryptedStream {
    const reader: StreamReader
    const writer: StreamWriter
    const enc: RC4
    const dec: RC4
    var buffer: Bytes

    /** Where the peer's payload begins in the reader's stream, and its cipher at that point. */
    ghost const start: nat
    ghost const theirs: Cipher
    /** What was handed to the caller. */
    ghost var delivered: Bytes

    /** Where our payload begins in the writer, our cipher at that point, and what the caller wrote. */
    ghost const before: Bytes
    ghost const ours: Cipher
    ghost var written: Bytes

    ghost predicate Valid()
      reads this, reader, writer, enc, enc.S, dec, dec.S
    {
      && enc != dec && enc.S != dec.S && enc.Valid() && dec.Valid() && reader.Valid()
      && start <= reader.consumed
      && dec.State() == After(theirs, reader.consumed - start)
      && delivered + buffer == Rc4.Process(theirs, reader.stream[start..reader.consumed])
      && enc.State() == After(ours, |written|)
      && writer.sent == before + Rc4.Process(ours, written)
    }

    /** The stream as the handshake leaves it; `leftover` is payload decrypted on the way. */
    constructor (reader: StreamReader, writer: StreamWriter, enc: RC4, dec: RC4, leftover: Bytes,
                 ghost start: nat, ghost theirs: Cipher)
      requires enc != dec && enc.S != dec.S && enc.Valid() && dec.Valid() && reader.Valid()
      requires start <= reader.consumed && dec.State() == After(theirs, reader.consumed - start)
      requires leftover == Rc4.Process(theirs, reader.stream[start..reader.consumed])
      ensures Valid()
      ensures this.reader == reader && this.writer == writer && this.enc == enc && this.dec == dec
      ensures this.start == start && this.theirs == theirs && delivered == []
      ensures before == writer.sent && ours == enc.State() && written == []
    {
      this.reader, this.writer, this.enc, this.dec, buffer := reader, writer, enc, dec, leftover;
      this.start, this.theirs, delivered := start, theirs, [];
      before, ours, written := writer.sent, enc.State(), [];
    }

    /** Read some ciphertext and decrypt it. */
    method Pull(n: nat) returns (plain: Bytes)
      requires Valid()
      modifies reader, dec, dec.S
      ensures enc.Valid() && dec.Valid() && reader.Valid()
      ensures old(reader.consumed) <= reader.consumed <= old(reader.consumed) + n
      ensures reader.consumed == old(reader.consumed) <==> n == 0 || old(reader.consumed) == |reader.stream|
      ensures |plain| == reader.consumed - old(reader.consumed)
      ensures dec.State() == After(theirs, reader.consumed - start)
      ensures delivered + (buffer + plain) == Rc4.Process(theirs, reader.stream[start..reader.consumed])
    {
      hide Rc4.Process, After;
      var raw := reader.Read(n);
      var was := old(reader.consumed);
      ghost var taken := reader.stream[start..was];
      assert reader.stream[start..reader.consumed] == taken + raw;
      ProcessConcat(theirs, taken, raw);
      AfterSum(theirs, |taken|, |raw|);
      plain := dec.Update(raw);
    }

    /** `readexactly`; None is IncompleteReadError, which keeps what was decrypted in the buffer. */
    method ReadExactly(n: nat) returns (r: Option<Bytes>)
      requires Valid()
      modifies this`buffer, this`delivered, reader, dec, dec.S
      ensures Valid() && reader.consumed >= old(reader.consumed)
      ensures r.Some? <==> n <= |old(buffer)| + |reader.stream| - old(reader.consumed)
      ensures r.Some? ==> |r.value| == n && delivered == old(delivered) + r.value
      ensures r.None? ==> delivered == old(delivered)
    {
      hide Rc4.Process, After;
      while |buffer| < n
        invariant Valid() && delivered == old(delivered)
        invariant old(reader.consumed) <= reader.consumed
        invariant |buffer| + |reader.stream| - reader.consumed
               == |old(buffer)| + |reader.stream| - old(reader.consumed)
        decreases |reader.stream| - reader.consumed
      {
        var ask := if n - |buffer| > 4096 then n - |buffer| else 4096;
        var raw := Pull(ask);
        if raw == [] { return None; }
        buffer := buffer + raw;
      }
      var result := buffer[..n];
      HandOver(n);
      return Some(result);
    }

    /** The first n bytes of the buffer go to the caller. */
    method HandOver(n: nat)
      requires Valid() && n <= |buffer|
      modifies this`buffer, this`delivered
      ensures Valid() && delivered == old(delivered + buffer[..n]) && buffer == old(buffer[n..])
    {
      hide Rc4.Process, After;
      assert delivered + buffer == (delivered + buffer[..n]) + buffer[n..];
      delivered, buffer := delivered + buffer[..n], buffer[n..];
    }

    /** `read`: from the buffer if it holds anything, else one chunk from the transport. */
    method Read(n: nat) returns (r: Bytes)
      requires Valid()
      modifies this`buffer, this`delivered, reader, dec, dec.S
      ensures Valid() && reader.consumed >= old(reader.consumed)
      ensures |r| <= n && delivered == old(delivered) + r
      ensures r == [] <==> n == 0 || (old(buffer) == [] && old(reader.consumed) == |reader.stream|)
    {
      hide Rc4.Process, After;
      if buffer != [] {
        r := buffer[..Min(n, |buffer|)];
        HandOver(|r|);
        return;
      }
      r := Pull(n);
      assert delivered + (buffer + r) == (delivered + r) + buffer;
      delivered := delivered + r;
    }

    method Write(data: Bytes)
      requires Valid()
      modifies this`written, writer, enc, enc.S
      ensures Valid() && written == old(written) + data
    {
      hide Rc4.Process, After;
      ProcessConcat(ours, written, data);
      AfterSum(ours, |written|, |data|);
      var cipher := enc.Update(data);
      writer.Write(cipher);
      written := written + data;
      assert (before + Rc4.Process(ours, old(written))) + cipher == before + (Rc4.Process(ours, old(written)) + cipher);
    }
  }

  lemma PrefixSlice(a: Bytes, b: Bytes)
    requires a <= b
    ensures b[..|a|] == a
  {}

  /**
   * First in, first out: if the receiving side's cipher started where the sending side's did, and what
   * the receiver took is a prefix of what the sender put on the wire, then the bytes handed out so far
   * and the buffer together are exactly that much of what the sender's caller wrote.
   */
  lemma Fifo(sender: EncryptedStream, receiver: EncryptedStream)
    requires sender.Valid() && receiver.Valid()
    requires receiver.theirs == sender.ours
    requires sender.before + receiver.reader.stream[receiver.start..receiver.reader.consumed] <= sender.writer.sent
    ensures receiver.reader.consumed - receiver.start <= |sender.written|
    ensures receiver.delivered + receiver.buffer == sender.written[..receiver.reader.consumed - receiver.start]
  {
    hide Rc4.Process, After;
    var c, taken := sender.ours, receiver.reader.stream[receiver.start..receiver.reader.consumed];
    var wire := Rc4.Process(c, sender.written);
    assert (sender.before + wire)[|sender.before|..] == wire;
    assert (sender.before + taken)[|sender.before|..] == taken;
    assert taken <= wire;
    PrefixSlice(taken, wire);
    ProcessSlice(c, wire, 0, |taken|);
    AfterZero(c);
    ProcessInvolution(c, sender.written);
  }

  /** The pass-through used when plaintext was negotiated. */
  class PlaintextStream {
    const reader: StreamReader
    const writer: StreamWriter

    constructor (reader: StreamReader, writer: StreamWriter)
      ensures this.reader == reader && this.writer == writer
    {
      this.reader, this.writer := reader, writer;
    }

    /** All that the caller can still get from the stream. */
    ghost function Rest(): Bytes
      requires reader.Valid()
      reads reader
    {
      reader.stream[reader.consumed..]
    }

    method ReadExactly(n: nat) returns (r: Option<Bytes>)
      requires reader.Valid()
      modifies reader
      ensures reader.Valid()
      ensures r == if n <= |old(Rest())| then Some(old(Rest())[..n]) else None
      ensures Rest() == if r.Some? then old(Rest())[n..] else []
    {
      ghost var was, rest := reader.consumed, Rest();
      r := reader.ReadExactly(n);
      if n <= |rest| { assert rest[..n] == reader.stream[was..was + n]; }
    }

    method Read(n: nat) returns (chunk: Bytes)
      requires reader.Valid()
      modifies reader
      ensures reader.Valid() && |chunk| <= n && chunk + Rest() == old(Rest())
      ensures chunk == [] <==> n == 0 || old(Rest()) == []
    {
      chunk := reader.Read(n);
    }

    method Write(data: Bytes)
      modifies writer
      ensures writer.sent == old(writer.sent) + data
    {
      writer.Write(data);
    }
  }
}
