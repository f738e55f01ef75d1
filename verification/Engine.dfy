/** The engine's objects and loops, proved to take exactly the steps of the swarm state machine. */
module Engine {
  import opened Bytes
  import opened Wire
  import opened Pieces
  import opened Assembly
  import opened Swarm
  import opened Selection
  import Bitfields

  class EndgameState {
    var active: bool
    var pieces: set<nat>
    var peerRequests: map<nat, set<Addr>>

    function State(): Endgame
      reads this
    {
      Endgame(active, pieces, peerRequests)
    }

    constructor ()
      ensures State() == Endgame(false, {}, map[])
    {
      active, pieces, peerRequests := false, {}, map[];
    }

    method Enter(missing: set<nat>)
      modifies this
      ensures State() == old(State()).Enter(missing)
    {
      active, pieces := true, missing;
      var rest := missing;
      while rest != {}
        invariant rest <= missing && active && pieces == missing
        invariant peerRequests == old(State()).Enter(missing - rest).requests
        decreases rest
      {
        var i :| i in rest;
        if i !in peerRequests { peerRequests := peerRequests[i := {}]; }
        rest := rest - {i};
      }
      assert missing - {} == missing;
    }

    method RecordRequest(i: nat, addr: Addr)
      modifies this
      ensures State() == old(State()).Record(i, addr)
    {
      peerRequests := peerRequests[i := (if i in peerRequests then peerRequests[i] else {}) + {addr}];
    }

    method PieceDone(i: nat) returns (addrs: set<Addr>)
      modifies this
      ensures State() == old(State()).Done(i) && addrs == old(State()).Requesters(i)
    {
      pieces := pieces - {i};
      addrs := if i in peerRequests then peerRequests[i] else {};
      peerRequests := peerRequests - {i};
      if pieces == {} { active := false; }
    }

    /** The clean-up loop of `run_peer`: the session's address leaves every set. */
    method Forget(addr: Addr)
      modifies this
      ensures State() == old(State()).Forget(addr)
    {
      var rest := peerRequests.Keys;
      while rest != {}
        invariant rest <= peerRequests.Keys == old(peerRequests.Keys) && unchanged(`active) && unchanged(`pieces)
        invariant forall i :: i in peerRequests ==>
                    peerRequests[i] == old(peerRequests)[i] - if i in rest then {} else {addr}
        decreases rest
      {
        var i :| i in rest;
        peerRequests, rest := peerRequests[i := peerRequests[i] - {addr}], rest - {i};
      }
    }
  }

  /** The loop of `_start_piece`: mark pending whatever ranks first and the peer lacks. */
  method SkipUnheld(tracker: PieceTracker, peerPieces: set<nat>) returns (idx: Option<nat>)
    modifies tracker
    ensures tracker.State() == Skip(old(tracker.State()), tracker.pieceCount, peerPieces)
    ensures idx == tracker.State().Rarest(tracker.pieceCount)
  {
    var n := tracker.pieceCount;
    idx := tracker.SelectPiece();
    while idx.Some? && idx.value !in peerPieces
      invariant idx == tracker.State().Rarest(n)
      invariant Skip(tracker.State(), n, peerPieces) == Skip(old(tracker.State()), n, peerPieces)
      decreases |Candidates(tracker.State(), n)|
    {
      ghost var t := tracker.State();
      RarestIsLeast(t, n);
      FewerCandidates(t, n, idx.value);
      tracker.MarkPending(idx.value);
      idx := tracker.SelectPiece();
      if idx.Some? && idx.value !in peerPieces {
        RarestIsLeast(tracker.State(), n);
        ghost var before := tracker.State();
        tracker.MarkFailed(idx.value);
        assert Candidates(tracker.State(), n) == Candidates(before, n);
        idx := tracker.SelectPiece();
      }
    }
  }

  /** The endgame part of `_start_piece`; the endgame set is visited in an arbitrary order. */
  method PickFromEndgame(tracker: PieceTracker, endgame: EndgameState, peerPieces: set<nat>, addr: Addr)
      returns (piece: Option<nat>, ghost pick: nat)
    modifies endgame
    ensures var c := EndgameChoice(tracker.State(), old(endgame.State()), tracker.pieceCount, peerPieces, addr, pick);
            piece == c.piece && tracker.State() == c.tracker && endgame.State() == c.endgame
  {
    pick := 0;
    var n := tracker.pieceCount;
    if |tracker.have| == n { return None, pick; }
    var remaining := set i: nat | i < n && i !in tracker.have;
    assert remaining == Missing(tracker.State(), n);
    if !endgame.active && remaining != {} { endgame.Enter(remaining); }
    if endgame.active {
      ghost var wanted := Wanted(tracker.State(), endgame.State(), peerPieces);
      var rest := endgame.pieces;
      while rest != {}
        invariant rest <= endgame.pieces && wanted <= rest
        decreases rest
      {
        var p :| p in rest;
        if p in peerPieces && p !in tracker.have {
          assert p in wanted;
          endgame.RecordRequest(p, addr);
          return Some(p), p;
        }
        rest := rest - {p};
      }
    }
    return None, pick;
  }

  /** `_start_piece`. */
  method ChoosePiece(tracker: PieceTracker, endgame: EndgameState, peerPieces: set<nat>, addr: Addr)
      returns (piece: Option<nat>, ghost pick: nat)
    modifies tracker, endgame
    ensures var c := StartPiece(old(tracker.State()), old(endgame.State()), tracker.pieceCount, peerPieces, addr, pick);
            piece == c.piece && tracker.State() == c.tracker && endgame.State() == c.endgame
  {
    pick := 0;
    piece := SkipUnheld(tracker, peerPieces);
    if piece.Some? {
      tracker.MarkPending(piece.value);
      endgame.RecordRequest(piece.value, addr);
    } else {
      piece, pick := PickFromEndgame(tracker, endgame, peerPieces, addr);
    }
  }

  /** What the sessions of one torrent share: its tracker, endgame record, storage and done event. */
  class TorrentSession {
    const tracker: PieceTracker
    const endgame: EndgameState
    const sha1: Bytes -> Bytes
    var store: Bytes
    var done: bool
    ghost var late: set<Write>

    /** The tracker was built from the metainfo of `tor`. */
    ghost predicate Describes(tor: Torrent) {
      && tor.pieceLength > 0 && tracker.Valid() && sha1 == tor.sha1
      && tracker.pieceLength == tor.pieceLength && tracker.totalLength == |tor.content|
      && forall i :: 0 <= i < tracker.pieceCount ==> tracker.specs[i].hash == tor.sha1(tor.Piece(i))
    }

    ghost function State(): Shared
      reads this, tracker, endgame
    {
      Shared(tracker.State(), endgame.State(), store, late, done)
    }

    constructor (tracker: PieceTracker, endgame: EndgameState, sha1: Bytes -> Bytes, store: Bytes)
      ensures this.tracker == tracker && this.endgame == endgame && this.sha1 == sha1
      ensures this.store == store && !done && late == {}
    {
      this.tracker, this.endgame, this.sha1, this.store := tracker, endgame, sha1, store;
      done, late := false, {};
    }
  }

  lemma SpecOf(session: TorrentSession, tor: Torrent, i: nat)
    requires session.Describes(tor) && i < tor.Count()
    ensures session.tracker.pieceCount == tor.Count() == |session.tracker.specs|
    ensures var spec := session.tracker.specs[i];
            spec.offset == tor.At(i) && spec.length == tor.Length(i) && spec.hash == tor.sha1(tor.Piece(i))
  {}

  /** `run_peer`: the local variables of one session, and its code between one await and the next. */
  class PeerSession {
    const addr: Addr
    const torrent: TorrentSession
    var current: Option<nat>
    var blocks: Blocks
    var peerPieces: set<nat>
    var peerChoking: bool
    var amInterested: bool
    var phase: Phase

    ghost function State(): Session
      reads this
    {
      Session(addr, current, blocks, peerPieces, peerChoking, amInterested, phase)
    }

    /** The session has got as far as the invariant of the swarm lets it. */
    ghost predicate Ready(tor: Torrent)
      reads this
    {
      torrent.Describes(tor) && (current.Some? ==> current.value < tor.Count())
    }

    constructor (addr: Addr, torrent: TorrentSession)
      ensures State() == NewSession(addr) && this.torrent == torrent
    {
      this.addr, this.torrent := addr, torrent;
      current, blocks, peerPieces := None, map[], {};
      peerChoking, amInterested, phase := true, false, Greeting;
    }

    method Begin(ghost tor: Torrent) returns (ghost pick: nat)
      requires torrent.Describes(tor)
      modifies this`current, this`blocks, this`phase, torrent.tracker, torrent.endgame
      ensures var o := StartNext(tor, old(torrent.State()), old(State()), pick);
              torrent.State() == o.shared && State() == o.session
    {
      var piece;
      piece, pick := ChoosePiece(torrent.tracker, torrent.endgame, peerPieces, addr);
      current, blocks := piece, map[];
      phase := if piece.Some? then Requesting(0) else Receiving;
    }

    method MoveOn(ghost tor: Torrent) returns (ghost pick: nat)
      requires torrent.Describes(tor)
      modifies this`current, this`blocks, this`phase, torrent`done, torrent.tracker, torrent.endgame
      ensures var o := Advance(tor, old(torrent.State()), old(State()), pick);
              torrent.State() == o.shared && State() == o.session
    {
      pick := 0;
      current, blocks := None, map[];
      if |torrent.tracker.have| == torrent.tracker.pieceCount {
        torrent.done, phase := true, Finishing;
      } else if !peerChoking {
        pick := Begin(tor);
      } else {
        phase := Receiving;
      }
    }

    /** One message, up to the first await its handler reaches. */
    method Handle(m: Wire.Message, unchoked: bool, ghost tor: Torrent) returns (ghost pick: nat)
      requires Ready(tor) && phase.Receiving?
      modifies this, torrent`done, torrent.tracker, torrent.endgame
      ensures var o := OnMessage(tor, old(torrent.State()), old(State()), m, unchoked, pick);
              torrent.State() == o.shared && State() == o.session
    {
      hide OnPiece, StartNext, Advance, Bitfields.ToSet;
      pick := 0;
      var tracker := torrent.tracker;
      match m
      case Bitfield(data) =>
        peerPieces := Bitfields.DecodeMessage(data, tracker.pieceCount);
        tracker.UpdateAvailability(peerPieces);
        if |tracker.have| != tracker.pieceCount { phase := Declaring; }
      case Have(index) =>
        peerPieces := peerPieces + {index};
        tracker.UpdateAvailability({index});
        if |tracker.have| != tracker.pieceCount && !amInterested { phase := Declaring; }
      case Choke =>
        peerChoking := true;
        if current.Some? {
          tracker.MarkFailed(current.value);
          current, blocks := None, map[];
        }
      case Unchoke =>
        peerChoking := false;
        if |tracker.have| != tracker.pieceCount && current.None? { pick := Begin(tor); }
      case Request(index, begin, length) =>
        if unchoked && index in tracker.have { phase := Serving(index, begin, length, []); }
      case Piece(index, begin, block) =>
        if current == Some(index) { pick := Take(begin, block, tor); }
      case _ =>
    }

    /** A block of the current piece. */
    method Take(begin: nat, block: Bytes, ghost tor: Torrent) returns (ghost pick: nat)
      requires Ready(tor) && current.Some?
      modifies this`current, this`blocks, this`phase, torrent`done, torrent.tracker, torrent.endgame
      ensures var o := OnPiece(tor, old(torrent.State()), old(State()), begin, block, pick);
              torrent.State() == o.shared && State() == o.session
    {
      pick := 0;
      SpecOf(torrent, tor, current.value);
      var spec := torrent.tracker.specs[current.value];
      blocks := blocks[begin := block];
      var complete := PieceComplete(blocks, spec.length);
      if complete {
        var assembled := AssemblePiece(blocks, spec.length);
        if torrent.sha1(assembled) == spec.hash {
          phase := Writing(assembled, 0);
        } else {
          torrent.tracker.MarkFailed(current.value);
          pick := MoveOn(tor);
        }
      }
    }

    /** Part of `await storage.read` for a Request: up to k more bytes. */
    method ReadMore(k: nat, ghost tor: Torrent)
      requires Ready(tor) && phase.Serving? && phase.index < tor.Count()
      modifies this`phase
      ensures var o := OnTransfer(tor, old(torrent.State()), old(State()), k);
              torrent.State() == o.shared && State() == o.session
    {
      hide PieceCount;
      var Serving(index, begin, length, got) := phase;
      SpecOf(torrent, tor, index);
      var from := torrent.tracker.specs[index].offset + begin + |got|;
      var n := Min(k, if |got| <= length then length - |got| else 0);
      phase := Serving(index, begin, length, got + Slice(torrent.store, from, from + n));
    }

    /** After `await storage.read`, once it has all the bytes there are: the Piece that goes out. */
    method AfterRead(ghost tor: Torrent) returns (sent: Wire.Message)
      requires Ready(tor) && phase.Serving?
      requires |phase.got| == phase.length || tor.At(phase.index) + phase.begin + |phase.got| >= |torrent.store|
      modifies this`phase
      ensures var o := OnStored(tor, old(torrent.State()), old(State()));
              torrent.State() == o.shared && State() == o.session
      ensures sent == Wire.Message.Piece(old(phase.index), old(phase.begin), old(phase.got))
    {
      var Serving(index, begin, length, got) := phase;
      phase := Uploading(index, begin, got);
      sent := Wire.Message.Piece(index, begin, got);
    }

    /** Part of `await storage.write`: up to k more bytes of the verified piece. */
    method WriteMore(k: nat, ghost tor: Torrent)
      requires Ready(tor) && current.Some? && phase.Writing? && phase.written <= |phase.data|
      modifies this`phase, torrent`store
      ensures var o := OnTransfer(tor, old(torrent.State()), old(State()), k);
              torrent.State() == o.shared && State() == o.session
    {
      hide PieceCount;
      var Writing(data, written) := phase;
      SpecOf(torrent, tor, current.value);
      var next := Min(written + k, |data|);
      var at := torrent.tracker.specs[current.value].offset + written;
      torrent.store := Overwrite(torrent.store, at, Slice(data, written, next));
      phase := Writing(data, next);
    }

    /** After `await storage.write`. */
    method AfterWrite(ghost tor: Torrent)
      requires Ready(tor) && current.Some? && phase.Writing? && phase.written == |phase.data|
      modifies this`phase, torrent.tracker
      ensures var o := OnStored(tor, old(torrent.State()), old(State()));
              torrent.State() == o.shared && State() == o.session
    {
      torrent.tracker.MarkHave(current.value);
      phase := Announcing;
    }

    /** After an awaited send or event emission. */
    method AfterSend(ghost tor: Torrent) returns (ghost pick: nat)
      requires Ready(tor) && (phase.Requesting? ==> current.Some? && phase.offset < tor.Length(current.value))
      modifies this, torrent`done, torrent.tracker, torrent.endgame
      ensures var o := OnSent(tor, old(torrent.State()), old(State()), pick);
              torrent.State() == o.shared && State() == o.session
    {
      pick := 0;
      if current.Some? { SpecOf(torrent, tor, current.value); }
      match phase
      case Greeting | Uploading(_, _, _) => phase := Receiving;
      case Declaring => amInterested, phase := true, Receiving;
      case Finishing => amInterested, phase := false, Receiving;
      case Requesting(offset) =>
        var length := torrent.tracker.specs[current.value].length;
        var next := offset + Min(BLOCK_SIZE, length - offset);
        phase := if next < length then Requesting(next) else Receiving;
      case Announcing =>
        if current.Some? && torrent.endgame.active && current.value in torrent.endgame.peerRequests {
          var _ := torrent.endgame.PieceDone(current.value);
          phase := Cancelling;
        } else {
          pick := MoveOn(tor);
        }
      case Cancelling => pick := MoveOn(tor);
      case _ =>
    }

    /** The `finally` block. */
    method Finally(ghost tor: Torrent)
      requires Ready(tor)
      modifies this`phase, torrent`late, torrent.tracker, torrent.endgame
      ensures var o := OnDrop(tor, old(torrent.State()), old(State()));
              torrent.State() == o.shared && State() == o.session
    {
      if current.Some? { torrent.tracker.MarkFailed(current.value); }
      torrent.tracker.RemoveAvailability(peerPieces);
      torrent.endgame.Forget(addr);
      if phase.Writing? && current.Some? {
        // The write goes on in the executor.
        torrent.late := torrent.late + {Write(tor.At(current.value) + phase.written,
                                              Slice(phase.data, phase.written, |phase.data|))};
      }
      phase := Ended;
    }
  }

  /** `_request_piece_blocks`, sent without interruption. */
  method RequestPieceBlocks(spec: PieceSpec) returns (sent: seq<Wire.Message>)
    ensures sent == Requests(spec.index, 0, spec.length)
  {
    sent := [];
    var offset := 0;
    while offset < spec.length
      invariant offset <= spec.length
      invariant Requests(spec.index, 0, spec.length) == sent + Requests(spec.index, offset, spec.length)
    {
      var n := Min(BLOCK_SIZE, spec.length - offset);
      assert sent + ([Request(spec.index, offset, n)] + Requests(spec.index, offset + n, spec.length))
          == sent + [Request(spec.index, offset, n)] + Requests(spec.index, offset + n, spec.length);
      sent, offset := sent + [Request(spec.index, offset, n)], offset + n;
    }
    assert sent + [] == sent;
  }

  /**
   * The requests a session sends from its present phase on, one at each completed send; `world` is what
   * the other sessions have made of the shared state by then.
   */
  ghost function RequestRun(tor: Torrent, s: Session, world: nat -> Shared, k: nat): seq<Wire.Message>
    requires tor.pieceLength > 0
    decreases if s.phase.Requesting? && s.current.Some? then Subtract(tor.Length(s.current.value), s.phase.offset)
              else 0
  {
    if !s.phase.Requesting? || s.current.None? || s.phase.offset >= tor.Length(s.current.value) then []
    else
      var i, offset := s.current.value, s.phase.offset;
      [Request(i, offset, Min(BLOCK_SIZE, tor.Length(i) - offset))]
        + RequestRun(tor, OnSent(tor, world(k), s, 0).session, world, k + 1)
  }

  /** Interleaved with anything, a session's Requesting phases send the tiling of its piece. */
  lemma {:induction false} RequestRunTiles(tor: Torrent, s: Session, world: nat -> Shared, k: nat)
    requires tor.pieceLength > 0 && s.phase.Requesting? && s.current.Some?
    ensures RequestRun(tor, s, world, k) == Requests(s.current.value, s.phase.offset, tor.Length(s.current.value))
    decreases Subtract(tor.Length(s.current.value), s.phase.offset)
  {
    var i, offset := s.current.value, s.phase.offset;
    if offset < tor.Length(i) {
      var next := OnSent(tor, world(k), s, 0).session;
      if next.phase.Requesting? { RequestRunTiles(tor, next, world, k + 1); }
    }
  }

  /** A session that gets a piece asks for all of it. */
  lemma StartAsksForAll(tor: Torrent, sh: Shared, s: Session, pick: nat, world: nat -> Shared)
    requires tor.pieceLength > 0
    ensures var next := StartNext(tor, sh, s, pick).session;
            next.current.Some? ==>
              RequestRun(tor, next, world, 0) == Requests(next.current.value, 0, tor.Length(next.current.value))
  {
    hide StartPiece;
    var next := StartNext(tor, sh, s, pick).session;
    if next.current.Some? { RequestRunTiles(tor, next, world, 0); }
  }
}
