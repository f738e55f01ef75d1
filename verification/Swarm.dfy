/**
 * The transfer engine as a state machine.  Any number of peer sessions share one piece tracker, one
 * endgame record and one storage; each session runs from one `await` to the next as one atomic step,
 * and a resume check runs beside them.  A run is an arbitrary list of events: every interleaving,
 * every message a peer may send, every lost connection.
 */
module Swarm {
  import opened Bytes
  import opened Wire
  import opened Pieces
  import opened Assembly
  import Bitfields

  function Subtract(a: nat, b: nat): nat { if b <= a then a - b else 0 }

  // ----- the torrent ----------------------------------------------------------------------------

  /** The original content, its piece size, and the hash function as an uninterpreted parameter. */
  datatype Torrent = Torrent(content: Bytes, pieceLength: nat, sha1: Bytes -> Bytes) {
    ghost function Count(): nat
      requires pieceLength > 0
    {
      PieceCount(pieceLength, |content|)
    }

    ghost function At(i: nat): nat { Offset(pieceLength, i) }

    ghost function Length(i: nat): nat {
      Min(pieceLength, Subtract(|content|, At(i)))
    }

    ghost function Piece(i: nat): Bytes {
      Slice(content, At(i), At(i) + Length(i))
    }

    /** No data but a piece itself has that piece's digest. */
    ghost predicate Valid() {
      && pieceLength > 0
      && forall i: nat, data: Bytes :: At(i) < |content| && sha1(data) == sha1(Piece(i)) ==> data == Piece(i)
    }
  }

  // ----- the endgame record -----------------------------------------------------------------------

  datatype Endgame = Endgame(active: bool, pieces: set<nat>, requests: map<nat, set<Addr>>) {
    function Requesters(i: nat): set<Addr> { if i in requests then requests[i] else {} }

    function Enter(missing: set<nat>): Endgame {
      Endgame(true, missing, map i | i in requests.Keys + missing :: Requesters(i))
    }

    function Record(i: nat, addr: Addr): Endgame {
      this.(requests := requests[i := Requesters(i) + {addr}])
    }

    /** `piece_done`; the addresses it returns are Requesters(i). */
    function Done(i: nat): Endgame {
      Endgame(active && pieces - {i} != {}, pieces - {i}, requests - {i})
    }

    /** The end of a session: its address leaves every set of requesters. */
    function Forget(addr: Addr): Endgame {
      this.(requests := map i | i in requests :: requests[i] - {addr})
    }
  }

  // ----- choosing a piece ---------------------------------------------------------------------------

  function Candidates(t: Tracker, n: nat): set<nat> {
    set i: nat | i < n && t.Candidate(i)
  }

  lemma FewerCandidates(t: Tracker, n: nat, i: nat)
    requires i < n && t.Candidate(i)
    ensures Candidates(t.MarkPending(i), n) == Candidates(t, n) - {i}
    ensures |Candidates(t.MarkPending(i), n)| < |Candidates(t, n)|
  {
    assert i in Candidates(t, n);
    assert Candidates(t.MarkPending(i), n) == Candidates(t, n) - {i};
  }

  /** The loop of `_start_piece` that marks pending whatever the peer lacks. */
  function Skip(t: Tracker, n: nat, peerPieces: set<nat>): Tracker
    decreases |Candidates(t, n)|
  {
    var i := t.Rarest(n);
    if i.None? || i.value in peerPieces then t
    else
      RarestIsLeast(t, n);
      FewerCandidates(t, n, i.value);
      var t' := t.MarkPending(i.value);
      var j := t'.Rarest(n);
      if j.None? || j.value in peerPieces then t'
      else
        RarestIsLeast(t', n);
        assert Candidates(t'.MarkFailed(j.value), n) == Candidates(t', n);
        Skip(t'.MarkFailed(j.value), n, peerPieces)
  }

  datatype Choice = Choice(piece: Option<nat>, tracker: Tracker, endgame: Endgame)

  function Missing(t: Tracker, n: nat): set<nat> {
    set i: nat | i < n && i !in t.have
  }

  ghost function AnyOf(s: set<nat>, pick: nat): nat
    requires s != {}
  {
    if pick in s then pick else var i :| i in s; i
  }

  /** The pieces an active endgame offers a peer. */
  function Wanted(t: Tracker, e: Endgame, peerPieces: set<nat>): set<nat> {
    set p | p in e.pieces && p in peerPieces && p !in t.have
  }

  /** The endgame part of `_start_piece`, entered when no piece is free. */
  ghost function EndgameChoice(t: Tracker, e: Endgame, n: nat, peerPieces: set<nat>, addr: Addr, pick: nat): Choice {
    if t.Complete(n) then Choice(None, t, e)
    else
      var e' := if e.active || Missing(t, n) == {} then e else e.Enter(Missing(t, n));
      if !e'.active || Wanted(t, e', peerPieces) == {} then Choice(None, t, e')
      else
        var p := AnyOf(Wanted(t, e', peerPieces), pick);
        Choice(Some(p), t, e'.Record(p, addr))
  }

  /** `_start_piece`; `pick` stands for the order in which the endgame set happens to be iterated. */
  ghost function StartPiece(t: Tracker, e: Endgame, n: nat, peerPieces: set<nat>, addr: Addr, pick: nat): Choice {
    var t' := Skip(t, n, peerPieces);
    var i := t'.Rarest(n);
    if i.Some? then Choice(i, t'.MarkPending(i.value), e.Record(i.value, addr))
    else EndgameChoice(t', e, n, peerPieces, addr, pick)
  }

  // ----- sessions -------------------------------------------------------------------------------------

  /** What a session is awaiting. */
  datatype Phase =
    | Greeting                                                   // our bitfield is being sent
    | Receiving                                                  // the next message
    | Declaring                                                  // Interested is being sent
    | Requesting(offset: nat)                                    // the Request for this block is being sent
    | Serving(index: nat, begin: nat, length: nat, got: Bytes)   // storage is being read for a Request
    | Uploading(index: nat, begin: nat, block: Bytes)            // a Piece is being sent
    | Writing(data: Bytes, written: nat)                         // a verified piece is being stored
    | Announcing                                                 // PIECE_VERIFIED and Have are going out
    | Cancelling                                                 // endgame Cancels are going out
    | Finishing                                                  // COMPLETED and NotInterested are going out
    | Ended

  datatype Session = Session(
    addr: Addr,
    current: Option<nat>,
    blocks: Blocks,
    peerPieces: set<nat>,
    peerChoking: bool,
    amInterested: bool,
    phase: Phase)

  /** A write that goes on in the executor after its session was cancelled. */
  datatype Write = Write(offset: nat, data: Bytes)

  datatype Shared = Shared(tracker: Tracker, endgame: Endgame, store: Bytes, late: set<Write>, done: bool)

  datatype Outcome = Outcome(shared: Shared, session: Session)

  ghost function StartNext(tor: Torrent, sh: Shared, s: Session, pick: nat): Outcome
    requires tor.pieceLength > 0
  {
    var c := StartPiece(sh.tracker, sh.endgame, tor.Count(), s.peerPieces, s.addr, pick);
    Outcome(sh.(tracker := c.tracker, endgame := c.endgame),
            s.(current := c.piece, blocks := map[], phase := if c.piece.Some? then Requesting(0) else Receiving))
  }

  /** "Move to next piece": forget the current one, then finish, go on or wait. */
  ghost function Advance(tor: Torrent, sh: Shared, s: Session, pick: nat): Outcome
    requires tor.pieceLength > 0
  {
    var s' := s.(current := None, blocks := map[]);
    if sh.tracker.Complete(tor.Count()) then Outcome(sh.(done := true), s'.(phase := Finishing))
    else if !s.peerChoking then StartNext(tor, sh, s', pick)
    else Outcome(sh, s'.(phase := Receiving))
  }

  ghost function OnAnnouncement(tor: Torrent, sh: Shared, s: Session, news: set<nat>, all: set<nat>, known: bool)
    : Outcome
    requires tor.pieceLength > 0
  {
    var express := !sh.tracker.Complete(tor.Count()) && !known;
    Outcome(sh.(tracker := sh.tracker.Announce(news)),
            s.(peerPieces := all, phase := if express then Declaring else Receiving))
  }

  ghost function OnChoke(sh: Shared, s: Session): Outcome {
    var t := if s.current.Some? then sh.tracker.MarkFailed(s.current.value) else sh.tracker;
    var s' := s.(peerChoking := true);
    Outcome(sh.(tracker := t), if s.current.Some? then s'.(current := None, blocks := map[]) else s')
  }

  ghost function OnUnchoke(tor: Torrent, sh: Shared, s: Session, pick: nat): Outcome
    requires tor.pieceLength > 0
  {
    var s' := s.(peerChoking := false);
    if !sh.tracker.Complete(tor.Count()) && s.current.None? then StartNext(tor, sh, s', pick) else Outcome(sh, s')
  }

  ghost function OnPiece(tor: Torrent, sh: Shared, s: Session, begin: nat, block: Bytes, pick: nat): Outcome
    requires tor.pieceLength > 0
  {
    var s' := s.(blocks := s.blocks[begin := block]);
    if s.current.None? then Outcome(sh, s)
    else
      var i := s.current.value;
      if !Assembly.Complete(s'.blocks, tor.Length(i)) then Outcome(sh, s')
      else
        var assembled := Assemble(s'.blocks, tor.Length(i));
        if tor.sha1(assembled) == tor.sha1(tor.Piece(i)) then Outcome(sh, s'.(phase := Writing(assembled, 0)))
        else Advance(tor, sh.(tracker := sh.tracker.MarkFailed(i)), s', pick)
  }

  /**
   * One pass of the message loop, up to its first await.  `unchoked` is what the choking manager says
   * of this peer at that moment.
   */
  ghost function OnMessage(tor: Torrent, sh: Shared, s: Session, m: Message, unchoked: bool, pick: nat): Outcome
    requires tor.pieceLength > 0
  {
    match m
    case Bitfield(data) =>
      var pieces := Bitfields.ToSet(data, tor.Count());
      OnAnnouncement(tor, sh, s, pieces, pieces, false)
    case Have(index) => OnAnnouncement(tor, sh, s, {index}, s.peerPieces + {index}, s.amInterested)
    case Choke => OnChoke(sh, s)
    case Unchoke => OnUnchoke(tor, sh, s, pick)
    case Request(index, begin, length) =>
      if unchoked && index in sh.tracker.have then Outcome(sh, s.(phase := Serving(index, begin, length, [])))
      else Outcome(sh, s)
    case Piece(index, begin, block) =>
      if s.current == Some(index) then OnPiece(tor, sh, s, begin, block, pick) else Outcome(sh, s)
    case _ => Outcome(sh, s)
  }

  /** The awaited send or event emission has completed. */
  ghost function OnSent(tor: Torrent, sh: Shared, s: Session, pick: nat): Outcome
    requires tor.pieceLength > 0
  {
    match s.phase
    case Greeting | Uploading(_, _, _) => Outcome(sh, s.(phase := Receiving))
    case Declaring => Outcome(sh, s.(amInterested := true, phase := Receiving))
    case Finishing => Outcome(sh, s.(amInterested := false, phase := Receiving))
    case Requesting(offset) =>
      var next := if s.current.None? then offset
                  else offset + Min(BLOCK_SIZE, Subtract(tor.Length(s.current.value), offset));
      var more := s.current.Some? && next < tor.Length(s.current.value);
      Outcome(sh, s.(phase := if more then Requesting(next) else Receiving))
    case Announcing =>
      if s.current.Some? && sh.endgame.active && s.current.value in sh.endgame.requests then
        Outcome(sh.(endgame := sh.endgame.Done(s.current.value)), s.(phase := Cancelling))
      else Advance(tor, sh, s, pick)
    case Cancelling => Advance(tor, sh, s, pick)
    case _ => Outcome(sh, s)
  }

  /** The storage backend has moved up to k more bytes of the read or write in progress. */
  ghost function OnTransfer(tor: Torrent, sh: Shared, s: Session, k: nat): Outcome {
    match s.phase
    case Writing(data, written) =>
      if s.current.None? then Outcome(sh, s)
      else
        var next := Min(written + k, |data|);
        Outcome(sh.(store := Overwrite(sh.store, tor.At(s.current.value) + written, Slice(data, written, next))),
                s.(phase := Writing(data, next)))
    case Serving(index, begin, length, got) =>
      var from := tor.At(index) + begin + |got|;
      Outcome(sh, s.(phase := Serving(index, begin, length,
                                      got + Slice(sh.store, from, from + Min(k, Subtract(length, |got|))))))
    case _ => Outcome(sh, s)
  }

  /** The read or write has completed. */
  ghost function OnStored(tor: Torrent, sh: Shared, s: Session): Outcome {
    match s.phase
    case Writing(data, written) =>
      if s.current.Some? && written == |data| then
        Outcome(sh.(tracker := sh.tracker.MarkHave(s.current.value)), s.(phase := Announcing))
      else Outcome(sh, s)
    case Serving(index, begin, length, got) =>
      if |got| == length || tor.At(index) + begin + |got| >= |sh.store| then
        Outcome(sh, s.(phase := Uploading(index, begin, got)))
      else Outcome(sh, s)
    case _ => Outcome(sh, s)
  }

  /** The connection is lost or the task cancelled, at any await: the `finally` block. */
  ghost function OnDrop(tor: Torrent, sh: Shared, s: Session): Outcome {
    var t := if s.current.Some? then sh.tracker.MarkFailed(s.current.value) else sh.tracker;
    var late := if s.phase.Writing? && s.current.Some?
                then sh.late + {Write(tor.At(s.current.value) + s.phase.written,
                                      Slice(s.phase.data, s.phase.written, |s.phase.data|))}
                else sh.late;
    Outcome(sh.(tracker := t.Withdraw(s.peerPieces), endgame := sh.endgame.Forget(s.addr), late := late),
            s.(phase := Ended))
  }

  // ----- the whole system -----------------------------------------------------------------------------

  /** `check_resume`: the indices still to verify and what was read of the first one. */
  datatype Checker = Unchecked | Checking(todo: seq<nat>, got: Bytes) | Checked

  /**
   * `stale` is bookkeeping for the proof: counts that no session will take back, one for every Have of a
   * piece already announced and one for every piece that a later Bitfield replaced.
   */
  datatype Swarm = Swarm(shared: Shared, sessions: map<nat, Session>, checker: Checker, stale: multiset<nat>)

  datatype Event =
    | Connect(sid: nat, addr: Addr)
    | Message(sid: nat, m: Wire.Message, unchoked: bool, pick: nat)
    | Sent(sid: nat, pick: nat)
    | Transfer(sid: nat, k: nat)
    | Stored(sid: nat)
    | Drop(sid: nat)
    | LateWrite(w: Write, k: nat)
    | Check(indices: seq<nat>)
    | CheckRead(k: nat)
    | CheckVerify
    | CheckSkip
    | Start

  function NewSession(addr: Addr): Session {
    Session(addr, None, map[], {}, true, false, Greeting)
  }

  ghost function Initial(store: Bytes): Swarm {
    Swarm(Shared(EMPTY_TRACKER, Endgame(false, {}, map[]), store, {}, false), map[], Unchecked, multiset{})
  }

  function Repeats(s: Session, m: Wire.Message): multiset<nat> {
    match m
    case Bitfield(_) => multiset(s.peerPieces)
    case Have(index) => if index in s.peerPieces then multiset{index} else multiset{}
    case _ => multiset{}
  }

  ghost function Put(w: Swarm, sid: nat, o: Outcome): Swarm {
    w.(shared := o.shared, sessions := w.sessions[sid := o.session])
  }

  ghost predicate Live(w: Swarm, sid: nat) {
    sid in w.sessions && !w.sessions[sid].phase.Ended?
  }

  ghost function CheckerStep(tor: Torrent, w: Swarm, e: Event): Swarm
    requires tor.pieceLength > 0
  {
    match w.checker
    case Unchecked => if e.Check? then w.(checker := Checking(e.indices, [])) else w
    case Checked => w
    case Checking(todo, got) =>
      if todo == [] then w.(checker := Checked)
      else if todo[0] >= tor.Count() || e.CheckSkip? then w.(checker := Checking(todo[1..], []))
      else
        var i := todo[0];
        if e.CheckRead? then
          var from := tor.At(i) + |got|;
          w.(checker :=
               Checking(todo, got + Slice(w.shared.store, from, from + Min(e.k, Subtract(tor.Length(i), |got|)))))
        else if e.CheckVerify? && |got| == tor.Length(i) then
          var t := if tor.sha1(got) == tor.sha1(tor.Piece(i)) then w.shared.tracker.MarkHave(i) else w.shared.tracker;
          w.(shared := w.shared.(tracker := t), checker := Checking(todo[1..], []))
        else w
  }

  /** One event; an event that cannot happen in the given state changes nothing. */
  ghost function Step(tor: Torrent, w: Swarm, e: Event): Swarm
    requires tor.pieceLength > 0
  {
    match e
    case Connect(sid, addr) => if sid in w.sessions then w else w.(sessions := w.sessions[sid := NewSession(addr)])
    case Message(sid, m, unchoked, pick) =>
      if Live(w, sid) && w.sessions[sid].phase.Receiving? then
        Put(w, sid, OnMessage(tor, w.shared, w.sessions[sid], m, unchoked, pick))
          .(stale := w.stale + Repeats(w.sessions[sid], m))
      else w
    case Sent(sid, pick) =>
      if Live(w, sid) then Put(w, sid, OnSent(tor, w.shared, w.sessions[sid], pick)) else w
    case Transfer(sid, k) =>
      if Live(w, sid) then Put(w, sid, OnTransfer(tor, w.shared, w.sessions[sid], k)) else w
    case Stored(sid) =>
      if Live(w, sid) then Put(w, sid, OnStored(tor, w.shared, w.sessions[sid])) else w
    case Drop(sid) =>
      if Live(w, sid) then Put(w, sid, OnDrop(tor, w.shared, w.sessions[sid])) else w
    case LateWrite(write, k) =>
      if write in w.shared.late then
        w.(shared := w.shared.(store := Overwrite(w.shared.store, write.offset, Slice(write.data, 0, k))))
      else w
    case Check(_) => CheckerStep(tor, w, e)
    case CheckRead(_) => CheckerStep(tor, w, e)
    case CheckVerify => CheckerStep(tor, w, e)
    case CheckSkip => CheckerStep(tor, w, e)
    case Start =>
      if w.shared.tracker.Complete(tor.Count()) then w.(shared := w.shared.(done := true)) else w
  }

  ghost function Run(tor: Torrent, w: Swarm, events: seq<Event>): Swarm
    requires tor.pieceLength > 0
    decreases |events|
  {
    if events == [] then w else Step(tor, Run(tor, w, events[..|events| - 1]), events[|events| - 1])
  }
}
