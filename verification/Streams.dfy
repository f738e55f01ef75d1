/** The transport under a connection: a reader that delivers in arbitrary chunks, and a writer. */
module Streams {
  import opened Bytes

  /** How much of `left` bytes one read of up to `asked` delivers, if the network would have `wish` ready. */
  function Arrives(wish: nat, asked: nat, left: nat): (n: nat)
    ensures n <= asked && n <= left && (n == 0 <==> asked == 0 || left == 0)
  {
    var most := Min(asked, left);
    if most == 0 then 0 else if wish == 0 then 1 else Min(wish, most)
  }

  /**
   * Every byte the connection will ever deliver, and how many were taken so far.  The schedule says how
   * much is ready at each read; as it is arbitrary, so are the chunks.
   */
  class StreamReader {
    const stream: Bytes
    const schedule: nat -> nat
    var consumed: nat
    var turn: nat

    ghost predicate Valid()
      reads this
    {
      consumed <= |stream|
    }

    /** Nothing was read yet. */
    ghost predicate Fresh()
      reads this
    {
      consumed == 0 && turn == 0
    }

    constructor (incoming: Bytes, schedule: nat -> nat)
      ensures Valid() && Fresh() && stream == incoming && this.schedule == schedule
    {
      stream, this.schedule, consumed, turn := incoming, schedule, 0, 0;
    }

    /** `readexactly`; None is IncompleteReadError, raised at the end of the stream with the rest discarded. */
    method ReadExactly(n: nat) returns (r: Option<Bytes>)
      requires Valid()
      modifies this`consumed
      ensures Valid()
      ensures r.Some? <==> old(consumed) + n <= |stream|
      ensures r.Some? ==> r.value == stream[old(consumed)..old(consumed) + n] && consumed == old(consumed) + n
      ensures r.None? ==> consumed == |stream|
    {
      if consumed + n > |stream| {
        consumed := |stream|;
        return None;
      }
      r, consumed := Some(stream[consumed..consumed + n]), consumed + n;
    }

    /** `read`: whatever has arrived, up to n bytes; empty only at the end of the stream (or for n = 0). */
    method Read(n: nat) returns (chunk: Bytes)
      requires Valid()
      modifies this
      ensures Valid() && turn == old(turn) + 1
      ensures consumed == old(consumed) + Arrives(schedule(old(turn)), n, |stream| - old(consumed))
      ensures chunk == stream[old(consumed)..consumed]
    {
      var arrived := Arrives(schedule(turn), n, |stream| - consumed);
      chunk, consumed, turn := stream[consumed..consumed + arrived], consumed + arrived, turn + 1;
    }
  }

  /** Everything written so far. */
  class StreamWriter {
    var sent: Bytes

    constructor ()
      ensures sent == []
    {
      sent := [];
    }

    method Write(data: Bytes)
      modifies this
      ensures sent == old(sent) + data
    {
      sent := sent + data;
    }
  }
}
