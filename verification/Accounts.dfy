/**
 * The tracker's accounts where they go wrong: the counts of a peer that announces twice, and a piece that
 * is both had and failed.
 */
module Accounts {
  import opened Bytes
  import opened Wire
  import opened Pieces
  import opened Assembly
  import opened Swarm
  import opened Runs
  import opened Safety
  import Bitfields

  // ----- have and failed ------------------------------------------------------------------------------

  /** Nothing had is given up, and what newly failed was not had. */
  ghost predicate FailsOnlyMissing(t: Tracker, t': Tracker) {
    t'.have == t.have && t.failed <= t'.failed && forall i :: i in t'.failed && i !in t.failed ==> i !in t.have
  }

  lemma {:induction false} SkipFails(t: Tracker, n: nat, peerPieces: set<nat>)
    ensures FailsOnlyMissing(t, Skip(t, n, peerPieces))
    decreases |Candidates(t, n)|
  {
    var i := t.Rarest(n);
    if i.Some? && i.value !in peerPieces {
      RarestIsLeast(t, n);
      FewerCandidates(t, n, i.value);
      var t' := t.MarkPending(i.value);
      var j := t'.Rarest(n);
      if j.Some? && j.value !in peerPieces {
        RarestIsLeast(t', n);
        assert Candidates(t'.MarkFailed(j.value), n) == Candidates(t', n);
        SkipFails(t'.MarkFailed(j.value), n, peerPieces);
      }
    }
  }

  lemma StartNextFails(tor: Torrent, sh: Shared, s: Session, pick: nat)
    requires tor.pieceLength > 0
    ensures FailsOnlyMissing(sh.tracker, StartNext(tor, sh, s, pick).shared.tracker)
  {
    SkipFails(sh.tracker, tor.Count(), s.peerPieces);
  }

  lemma AdvanceFails(tor: Torrent, sh: Shared, s: Session, pick: nat)
    requires tor.pieceLength > 0
    ensures FailsOnlyMissing(sh.tracker, Advance(tor, sh, s, pick).shared.tracker)
  {
    hide StartNext;
    StartNextFails(tor, sh, s.(current := None, blocks := map[]), pick);
  }

  /** The message makes the session give up its current piece: a Choke, or a last block with a wrong digest. */
  ghost predicate GivesUp(tor: Torrent, s: Session, m: Message)
    requires s.current.Some?
  {
    match m
    case Choke => true
    case Piece(index, begin, block) =>
      var blocks, length := s.blocks[begin := block], tor.Length(index);
      s.current.value == index && Assembly.Complete(blocks, length)
      && tor.sha1(Assemble(blocks, length)) != tor.sha1(tor.Piece(index))
    case _ => false
  }

  /** The event fails a piece that is already had. */
  ghost predicate FailsHeld(tor: Torrent, w: Swarm, e: Event) {
    match e
    case Drop(sid) => Live(w, sid) && Current(w, sid) <= w.shared.tracker.have && Current(w, sid) != {}
    case Message(sid, m, _, _) =>
      Live(w, sid) && w.sessions[sid].phase.Receiving? && Current(w, sid) != {}
      && Current(w, sid) <= w.shared.tracker.have && GivesUp(tor, w.sessions[sid], m)
    case _ => false
  }

  /** The piece a session is on, if any. */
  ghost function Current(w: Swarm, sid: nat): set<nat> {
    if sid in w.sessions && w.sessions[sid].current.Some? then {w.sessions[sid].current.value} else {}
  }

  ghost predicate Disjoint(t: Tracker) { t.have !! t.failed }

  lemma MessageFails(tor: Torrent, sh: Shared, s: Session, m: Message, unchoked: bool, pick: nat)
    requires tor.pieceLength > 0 && Disjoint(sh.tracker)
    ensures Disjoint(OnMessage(tor, sh, s, m, unchoked, pick).shared.tracker) <==>
              !(s.current.Some? && s.current.value in sh.tracker.have && GivesUp(tor, s, m))
  {
    hide StartNext, Advance, Assembly.Complete, Assemble, Bitfields.ToSet;
    match m
    case Unchoke => StartNextFails(tor, sh, s.(peerChoking := false), pick);
    case Piece(index, begin, block) =>
      if s.current.Some? {
        var t := sh.tracker.MarkFailed(index);
        AdvanceFails(tor, sh.(tracker := t), s.(blocks := s.blocks[begin := block]), pick);
        assert index in t.failed;
      }
    case Choke =>
      if s.current.Some? { assert s.current.value in sh.tracker.MarkFailed(s.current.value).failed; }
    case _ =>
  }

  lemma SentFails(tor: Torrent, sh: Shared, s: Session, pick: nat)
    requires tor.pieceLength > 0 && Disjoint(sh.tracker)
    ensures Disjoint(OnSent(tor, sh, s, pick).shared.tracker)
  {
    hide Advance;
    AdvanceFails(tor, sh, s, pick);
    if s.current.Some? { AdvanceFails(tor, sh.(endgame := sh.endgame.Done(s.current.value)), s, pick); }
  }

  lemma StoredFails(tor: Torrent, sh: Shared, s: Session)
    requires Disjoint(sh.tracker)
    ensures Disjoint(OnStored(tor, sh, s).shared.tracker)
  {}

  lemma CheckerFails(tor: Torrent, w: Swarm, e: Event)
    requires tor.pieceLength > 0 && Disjoint(w.shared.tracker)
    ensures Disjoint(CheckerStep(tor, w, e).shared.tracker)
  {}

  /**
   * `have` and `failed`, disjoint so far, stay disjoint if and only if the event is not a Drop, a Choke or
   * a last block with a wrong digest for a session whose current piece is already had.
   */
  lemma DisjointUnlessHeldFails(tor: Torrent, w: Swarm, e: Event)
    requires tor.pieceLength > 0 && Disjoint(w.shared.tracker)
    ensures Disjoint(Step(tor, w, e).shared.tracker) <==> !FailsHeld(tor, w, e)
  {
    hide OnMessage, OnSent, OnStored, CheckerStep, GivesUp;
    match e
    case Message(sid, m, unchoked, pick) =>
      if Live(w, sid) { MessageFails(tor, w.shared, w.sessions[sid], m, unchoked, pick); }
    case Sent(sid, pick) => if Live(w, sid) { SentFails(tor, w.shared, w.sessions[sid], pick); }
    case Stored(sid) => if Live(w, sid) { StoredFails(tor, w.shared, w.sessions[sid]); }
    case Drop(sid) =>
      if Live(w, sid) && w.sessions[sid].current.Some? {
        var i := w.sessions[sid].current.value;
        assert i in w.shared.tracker.MarkFailed(i).failed;
      }
    case Check(_) => CheckerFails(tor, w, e);
    case CheckRead(_) => CheckerFails(tor, w, e);
    case CheckVerify => CheckerFails(tor, w, e);
    case CheckSkip => CheckerFails(tor, w, e);
    case _ =>
  }

  // ----- runs that show it ------------------------------------------------------------------------------

  ghost predicate Reachable(tor: Torrent, store: Bytes, w: Swarm)
    requires tor.pieceLength > 0
  {
    exists events :: w == Run(tor, Initial(store), events)
  }

  lemma Start(tor: Torrent, store: Bytes)
    requires tor.pieceLength > 0
    ensures Reachable(tor, store, Initial(store))
  {
    assert Run(tor, Initial(store), []) == Initial(store);
  }

  lemma Then(tor: Torrent, store: Bytes, w: Swarm, e: Event)
    requires tor.pieceLength > 0 && Reachable(tor, store, w)
    ensures Reachable(tor, store, Step(tor, w, e))
  {
    var events :| w == Run(tor, Initial(store), events);
    RunSnoc(tor, Initial(store), events, e);
    assert Run(tor, Initial(store), events + [e]) == Step(tor, w, e);
  }

  /** A torrent of one-byte pieces. */
  ghost function Small(content: Bytes): Torrent {
    Torrent(content, 1, x => x)
  }

  lemma SmallPiece(content: Bytes, i: nat)
    requires i < |content|
    ensures var tor := Small(content);
            tor.Count() == |content| && tor.At(i) == i && tor.Length(i) == 1 && tor.Piece(i) == [content[i]]
  {}

  /** The one peer so far, done with our bitfield. */
  ghost function Greeted(store: Bytes, addr: Addr): Swarm {
    Initial(store).(sessions := map[0 := NewSession(addr).(phase := Receiving)])
  }

  lemma Greet(tor: Torrent, store: Bytes, addr: Addr)
    requires tor.pieceLength > 0
    ensures Reachable(tor, store, Greeted(store, addr))
  {
    Start(tor, store);
    Then(tor, store, Initial(store), Connect(0, addr));
    var w := Step(tor, Initial(store), Connect(0, addr));
    Then(tor, store, w, Sent(0, 0));
    assert Step(tor, w, Sent(0, 0)).sessions == Greeted(store, addr).sessions;
    assert Step(tor, w, Sent(0, 0)) == Greeted(store, addr);
  }

  /** One session: the state of a swarm with a single peer. */
  ghost function Alone(t: Tracker, e: Endgame, store: Bytes, s: Session): Swarm {
    Swarm(Shared(t, e, store, {}, false), map[0 := s], Unchecked, multiset{})
  }

  /** The peer has the only piece, and we have said that we want it. */
  lemma PeerHasIt(b: byte, store: Bytes, addr: Addr) returns (w: Swarm)
    requires |store| == 1
    ensures Reachable(Small([b]), store, w)
    ensures w == Alone(Tracker({}, {}, {}, map[0 := 1]), Endgame(false, {}, map[]), store,
                       Session(addr, None, map[], {0}, true, true, Receiving))
  {
    hide Run, Step;
    var tor := Small([b]);
    Greet(tor, store, addr);
    var e := Event.Message(0, Have(0), true, 0);
    Then(tor, store, Greeted(store, addr), e);
    HaveComesIn([b], store, addr, 0);
    var w1 := Step(tor, Greeted(store, addr), e);
    Then(tor, store, w1, Sent(0, 0));
    w := InterestGoesOut(tor, w1, addr, 0);
  }

  /** It announces a piece. */
  lemma HaveComesIn(content: Bytes, store: Bytes, addr: Addr, i: nat)
    requires i < |content|
    ensures Step(Small(content), Greeted(store, addr), Event.Message(0, Have(i), true, 0))
         == Alone(Tracker({}, {}, {}, map[i := 1]), Endgame(false, {}, map[]), store,
                  Session(addr, None, map[], {i}, true, false, Declaring))
  {
    hide OnPiece, OnChoke, OnUnchoke;
    SmallPiece(content, i);
    var w := Step(Small(content), Greeted(store, addr), Event.Message(0, Have(i), true, 0));
    assert {} + {i} == {i} && w.shared.tracker.availability == map[i := 1];
    assert w.sessions == map[0 := Session(addr, None, map[], {i}, true, false, Declaring)];
  }

  lemma InterestGoesOut(tor: Torrent, w: Swarm, addr: Addr, i: nat) returns (w': Swarm)
    requires tor.pieceLength > 0 && w.sessions == map[0 := Session(addr, None, map[], {i}, true, false, Declaring)]
    ensures w' == Step(tor, w, Sent(0, 0))
    ensures w' == w.(sessions := map[0 := Session(addr, None, map[], {i}, true, true, Receiving)])
  {
    hide Advance;
    w' := Step(tor, w, Sent(0, 0));
    assert w'.sessions == map[0 := Session(addr, None, map[], {i}, true, true, Receiving)];
  }

  /** It unchoked us, and we asked for the piece. */
  lemma PieceAskedFor(b: byte, store: Bytes, addr: Addr) returns (w: Swarm)
    requires |store| == 1
    ensures Reachable(Small([b]), store, w) && w.shared.store == store && w.sessions.Keys == {0}
    ensures w.sessions[0] == Session(addr, Some(0), map[], {0}, false, true, Receiving)
    ensures w.shared.tracker.have == {} == w.shared.tracker.failed && !w.shared.endgame.active
    ensures w.shared.late == {} && w.checker.Unchecked?
  {
    hide Run, Step;
    var tor := Small([b]);
    var w0 := PeerHasIt(b, store, addr);
    Then(tor, store, w0, Event.Message(0, Unchoke, true, 0));
    UnchokeComesIn(b, store, addr, w0);
    var w1 := Step(tor, w0, Event.Message(0, Unchoke, true, 0));
    Then(tor, store, w1, Sent(0, 0));
    w := Step(tor, w1, Sent(0, 0));
    RequestGoesOut(b, w1);
  }

  lemma UnchokeComesIn(b: byte, store: Bytes, addr: Addr, w: Swarm)
    requires w == Alone(Tracker({}, {}, {}, map[0 := 1]), Endgame(false, {}, map[]), store,
                        Session(addr, None, map[], {0}, true, true, Receiving))
    ensures var w' := Step(Small([b]), w, Event.Message(0, Unchoke, true, 0));
            && w'.sessions.Keys == {0}
            && w'.sessions[0] == Session(addr, Some(0), map[], {0}, false, true, Requesting(0))
            && w'.shared.tracker.have == {} == w'.shared.tracker.failed && !w'.shared.endgame.active
            && w'.shared.store == store && w'.shared.late == {} && w'.checker.Unchecked?
  {
    hide OnPiece, OnChoke, OnAnnouncement, Skip;
    SmallPiece([b], 0);
    OnlyCandidate(w.shared.tracker);
  }

  lemma RequestGoesOut(b: byte, w: Swarm)
    requires w.sessions.Keys == {0} && w.sessions[0].current == Some(0) && w.sessions[0].phase == Requesting(0)
    ensures var w' := Step(Small([b]), w, Sent(0, 0));
            && w'.sessions.Keys == {0} && w'.sessions[0] == w.sessions[0].(phase := Receiving)
            && w'.shared == w.shared && w'.checker == w.checker
  {
    hide Advance;
    SmallPiece([b], 0);
  }

  lemma OnlyCandidate(t: Tracker)
    requires t.Candidate(0)
    ensures t.Rarest(1) == Some(0) && Skip(t, 1, {0}) == t
  {
    assert t.Rarest(0) == None;
  }

  lemma OneBlock(b: byte)
    ensures var blocks: Blocks := map[0 := [b]];
            Assembly.Complete(blocks, 1) && Assemble(blocks, 1) == [b]
  {
    var blocks: Blocks := map[0 := [b]];
    var piece := [b];
    assert Tile(piece, 0) == piece;
    CompleteIffAllTiles(blocks, piece);
    AssembleOfHonest(blocks, piece);
  }

  lemma BlockArrives(w: Swarm, b: byte)
    requires 0 in w.sessions && w.sessions[0].phase.Receiving?
    requires w.sessions[0].current == Some(0) && w.sessions[0].blocks == map[]
    ensures var w' := Step(Small([b]), w, Event.Message(0, Piece(0, 0, [b]), true, 0));
            && w'.shared == w.shared && 0 in w'.sessions
            && w'.sessions[0].phase == Writing([b], 0) && w'.sessions[0].current == Some(0)
  {
    SmallPiece([b], 0);
    OneBlock(b);
    assert w.sessions[0].blocks[0 := [b]] == map[0 := [b]];
  }

  /** The piece arrived and was stored and marked; its announcement is going out. */
  lemma PieceStored(b: byte, store: Bytes, addr: Addr) returns (w: Swarm)
    requires |store| == 1
    ensures Reachable(Small([b]), store, w) && Live(w, 0)
    ensures w.sessions[0].current == Some(0) && w.sessions[0].phase.Announcing?
    ensures w.shared.tracker.have == {0} && w.shared.tracker.failed == {} && !w.shared.endgame.active
  {
    hide OnMessage, OnSent, Run, Slice, Overwrite;
    var tor := Small([b]);
    var w0 := PieceAskedFor(b, store, addr);
    var e := Event.Message(0, Piece(0, 0, [b]), true, 0);
    BlockArrives(w0, b);
    Then(tor, store, w0, e);
    var w1 := Step(tor, w0, e);
    Then(tor, store, w1, Transfer(0, 1));
    var w2 := Step(tor, w1, Transfer(0, 1));
    assert w2.sessions[0].phase == Writing([b], 1);
    Then(tor, store, w2, Stored(0));
    w := Step(tor, w2, Stored(0));
    assert w.shared.tracker.have == {} + {0};
  }

  /**
   * A reachable state whose next event leaves a piece both had and failed: one session, no endgame, and
   * the connection is lost while the verified piece is being announced.
   */
  lemma LostWhileAnnouncing() returns (tor: Torrent, store: Bytes, w: Swarm)
    ensures tor.Valid() && |store| == |tor.content| && Reachable(tor, store, w)
    ensures Disjoint(w.shared.tracker) && !w.shared.endgame.active && FailsHeld(tor, w, Drop(0))
    ensures !Disjoint(Step(tor, w, Drop(0)).shared.tracker)
  {
    tor, store := Small([7]), [0];
    SmallPiece([7], 0);
    w := PieceStored(7, store, Addr([], 0));
    assert Current(w, 0) == {0};
    DisjointUnlessHeldFails(tor, w, Drop(0));
  }

  lemma FirstOfTwo(i: nat)
    requires i < 2
    ensures Bitfields.HasPiece([128], i) <==> i == 0
    ensures Bitfields.HasPiece([64], i) <==> i == 1
  {
    assert Bitfields.BitAt(128 / 2 / 2 / 2 / 2 / 2 / 2, 1) && !Bitfields.BitAt(64 / 2 / 2 / 2 / 2 / 2 / 2, 1);
    assert !Bitfields.BitAt(128 / 2 / 2 / 2 / 2 / 2 / 2, 0) && Bitfields.BitAt(64 / 2 / 2 / 2 / 2 / 2 / 2, 0);
  }

  lemma TwoBitfields()
    ensures Bitfields.ToSet([128], 2) == {0} && Bitfields.ToSet([64], 2) == {1}
  {
    FirstOfTwo(0);
    FirstOfTwo(1);
  }

  /** The first of two Bitfields. */
  lemma OneBitfield(content: Bytes, store: Bytes, addr: Addr) returns (w: Swarm)
    requires |content| == 2 && |store| == 2
    ensures Reachable(Small(content), store, w) && w.sessions.Keys == {0} && w.stale == multiset{}
    ensures w.sessions[0].phase.Receiving? && w.sessions[0].peerPieces == {0}
  {
    hide Bitfields.ToSet, Run;
    var tor := Small(content);
    SmallPiece(content, 0);
    TwoBitfields();
    Greet(tor, store, addr);
    var e := Event.Message(0, Bitfield([128]), true, 0);
    Then(tor, store, Greeted(store, addr), e);
    var w1 := Step(tor, Greeted(store, addr), e);
    Then(tor, store, w1, Sent(0, 0));
    w := Step(tor, w1, Sent(0, 0));
  }

  /**
   * A run whose counts drift: a peer sends one Bitfield with the first piece and another with the second.
   * The first piece stays counted, though no peer is known to have it.
   */
  lemma CountsDrift() returns (tor: Torrent, store: Bytes, w: Swarm)
    ensures tor.Valid() && |store| == |tor.content| && Reachable(tor, store, w)
    ensures Holders(w, 0) == {} && w.shared.tracker.Available(0) == 1
  {
    hide Run, Step;
    tor, store := Small([7, 8]), [0, 0];
    SmallPiece([7, 8], 0);
    SmallPiece([7, 8], 1);
    var w0 := OneBitfield([7, 8], store, Addr([], 0));
    Then(tor, store, w0, Event.Message(0, Bitfield([64]), true, 0));
    w := AnotherBitfield([7, 8], w0);
    var events :| w == Run(tor, Initial(store), events);
    AvailabilityLaw(tor, store, events, 0);
  }

  lemma AnotherBitfield(content: Bytes, w: Swarm) returns (w': Swarm)
    requires |content| == 2 && w.sessions.Keys == {0} && w.stale == multiset{}
    requires w.sessions[0].phase.Receiving? && w.sessions[0].peerPieces == {0}
    ensures w' == Step(Small(content), w, Event.Message(0, Bitfield([64]), true, 0))
    ensures w'.stale[0] == 1 && Holders(w', 0) == {}
  {
    hide Bitfields.ToSet, OnPiece, OnChoke, OnUnchoke;
    SmallPiece(content, 0);
    TwoBitfields();
    w' := Step(Small(content), w, Event.Message(0, Bitfield([64]), true, 0));
    assert w'.sessions[0].peerPieces == {1};
  }
}
