/**
 * Pieces that are pending though no session is on them: which events make one, which take one up again,
 * and a run that leaves one behind.
 */
module Orphans {
  import opened Bytes
  import opened Wire
  import opened Pieces
  import opened Assembly
  import opened Swarm
  import opened Selection
  import opened Safety
  import opened Runs
  import opened Accounts
  import Bitfields

  /** A live session is on piece i. */
  ghost predicate Owned(w: Swarm, i: nat) {
    exists sid :: Live(w, sid) && w.sessions[sid].current == Some(i)
  }

  /** A live session other than this one is on piece i. */
  ghost predicate OwnedByOther(w: Swarm, sid: nat, i: nat) {
    exists k :: k != sid && Live(w, k) && w.sessions[k].current == Some(i)
  }

  /** Piece i is kept from being selected, and nobody downloads it. */
  ghost predicate Orphan(w: Swarm, i: nat) {
    i in w.shared.tracker.pending && !Owned(w, i)
  }

  // ----- which events run `_start_piece` ----------------------------------------------------------------

  /** `_start_piece` is run on this tracker. */
  datatype Begun = Nothing | Begun(tracker: Tracker)

  ghost function AdvanceBegins(tor: Torrent, t: Tracker, s: Session): Begun
    requires tor.pieceLength > 0
  {
    if !t.Complete(tor.Count()) && !s.peerChoking then Begun(t) else Nothing
  }

  ghost function MessageBegins(tor: Torrent, sh: Shared, s: Session, m: Message): Begun
    requires tor.pieceLength > 0
  {
    match m
    case Unchoke => if !sh.tracker.Complete(tor.Count()) && s.current.None? then Begun(sh.tracker) else Nothing
    case Piece(index, _, _) =>
      if s.current == Some(index) && GivesUp(tor, s, m) then AdvanceBegins(tor, sh.tracker.MarkFailed(index), s)
      else Nothing
    case _ => Nothing
  }

  ghost function SentBegins(tor: Torrent, sh: Shared, s: Session): Begun
    requires tor.pieceLength > 0
  {
    match s.phase
    case Announcing =>
      if s.current.Some? && sh.endgame.active && s.current.value in sh.endgame.requests then Nothing
      else AdvanceBegins(tor, sh.tracker, s)
    case Cancelling => AdvanceBegins(tor, sh.tracker, s)
    case _ => Nothing
  }

  /** The event runs `_start_piece` and passes piece i over for good. */
  ghost predicate Passes(tor: Torrent, begun: Begun, peerPieces: set<nat>, i: nat)
    requires tor.pieceLength > 0
  {
    begun.Begun? &&
    var t, n := begun.tracker, tor.Count();
    PassedOver(t, n, peerPieces, Skip(t, n, peerPieces).Rarest(n), i)
  }

  /**
   * The event makes a session look for a piece and leave i, a candidate its peer lacks that ranks before
   * what it settles for, while no other session is on i.
   */
  ghost predicate SkipsUnowned(tor: Torrent, w: Swarm, e: Event, i: nat)
    requires tor.pieceLength > 0
  {
    match e
    case Message(sid, m, _, _) =>
      && Live(w, sid) && w.sessions[sid].phase.Receiving?
      && Passes(tor, MessageBegins(tor, w.shared, w.sessions[sid], m), w.sessions[sid].peerPieces, i)
      && !OwnedByOther(w, sid, i)
    case Sent(sid, _) =>
      && Live(w, sid) && Passes(tor, SentBegins(tor, w.shared, w.sessions[sid]), w.sessions[sid].peerPieces, i)
      && !OwnedByOther(w, sid, i)
    case _ => false
  }

  // ----- one session ------------------------------------------------------------------------------------

  /** Pending, and not because of this session. */
  predicate Left(sh: Shared, s: Session, i: nat) {
    i in sh.tracker.pending && s.current != Some(i)
  }

  /**
   * What a step of a session leaves pending: what it found so and did not take up, and what it passed
   * over.  What it takes up from there comes from the endgame list, and only its own piece becomes had.
   */
  ghost predicate LeavesPending(tor: Torrent, sh: Shared, s: Session, o: Outcome, begun: Begun)
    requires tor.pieceLength > 0
  {
    && (forall i: nat :: Left(o.shared, o.session, i) <==>
          (Left(sh, s, i) && o.session.current != Some(i)) || Passes(tor, begun, s.peerPieces, i))
    && (forall i: nat :: Left(sh, s, i) && o.session.current == Some(i) ==>
          o.shared.endgame.active && i in o.shared.endgame.pieces)
    && (forall i :: i in o.shared.tracker.have ==> i in sh.tracker.have || s.current == Some(i))
  }

  lemma ChosenFromEndgame(t: Tracker, e: Endgame, n: nat, peerPieces: set<nat>, addr: Addr, pick: nat)
    requires TrackerInv(t, n) && EndgameInv(e, t, n)
    ensures var c := StartPiece(t, e, n, peerPieces, addr, pick);
            && (c.piece.Some? ==> c.piece.value in peerPieces)
            && (c.piece.Some? && c.piece.value in t.pending ==>
                  c.endgame.active && c.piece.value in c.endgame.pieces)
  {
    StartPieceComplete(t, e, n, peerPieces, addr, pick);
    SkipStopsAtRarestHeld(t, n, peerPieces);
    RarestIsLeast(Skip(t, n, peerPieces), n);
  }

  /** The pending pieces after `_start_piece`: those before, the passed over, and perhaps the chosen one. */
  lemma StartPiecePending(t: Tracker, e: Endgame, n: nat, peerPieces: set<nat>, addr: Addr, pick: nat, i: nat)
    requires TrackerInv(t, n) && EndgameInv(e, t, n)
    ensures var c := StartPiece(t, e, n, peerPieces, addr, pick);
            c.piece != Some(i) ==>
              (i in c.tracker.pending <==>
               i in t.pending || PassedOver(t, n, peerPieces, Skip(t, n, peerPieces).Rarest(n), i))
  {
    hide Skip, PassedOver;
    SkipStopsAtRarestHeld(t, n, peerPieces);
  }

  lemma StartNextLeaves(tor: Torrent, sh: Shared, s: Session, pick: nat)
    requires tor.Valid() && SharedInv(tor, sh) && s.current.None?
    ensures LeavesPending(tor, sh, s, StartNext(tor, sh, s, pick), Begun(sh.tracker))
  {
    hide StartPiece, Skip, Holds, Genuine;
    var n := tor.Count();
    ChosenFromEndgame(sh.tracker, sh.endgame, n, s.peerPieces, s.addr, pick);
    StartPieceEffect(sh.tracker, sh.endgame, n, s.peerPieces, s.addr, pick);
    var o := StartNext(tor, sh, s, pick);
    forall i: nat
      ensures Left(o.shared, o.session, i) <==>
                (Left(sh, s, i) && o.session.current != Some(i)) || Passes(tor, Begun(sh.tracker), s.peerPieces, i)
    {
      StartPiecePending(sh.tracker, sh.endgame, n, s.peerPieces, s.addr, pick, i);
    }
  }

  lemma AdvanceLeaves(tor: Torrent, sh: Shared, s: Session, pick: nat)
    requires tor.Valid() && SharedInv(tor, sh) && (s.current.Some? ==> s.current.value !in sh.tracker.pending)
    ensures LeavesPending(tor, sh, s, Advance(tor, sh, s, pick), AdvanceBegins(tor, sh.tracker, s))
  {
    hide StartNext, Skip, Holds, Genuine, PassedOver;
    StartNextLeaves(tor, sh, s.(current := None, blocks := map[]), pick);
  }

  lemma PieceLeaves(tor: Torrent, sh: Shared, s: Session, m: Message, pick: nat)
    requires tor.Valid() && SharedInv(tor, sh) && m.Piece? && s.current == Some(m.index)
    ensures LeavesPending(tor, sh, s, OnPiece(tor, sh, s, m.begin, m.block, pick), MessageBegins(tor, sh, s, m))
  {
    hide Advance, Skip, PassedOver, Holds, Genuine, Assembly.Complete, Assemble, EndgameInv;
    var failed := sh.(tracker := sh.tracker.MarkFailed(m.index));
    MarkFailedSound(tor, sh, m.index);
    AdvanceLeaves(tor, failed, s.(blocks := s.blocks[m.begin := m.block]), pick);
  }

  lemma UnchokeLeaves(tor: Torrent, sh: Shared, s: Session, pick: nat)
    requires tor.Valid() && SharedInv(tor, sh)
    ensures LeavesPending(tor, sh, s, OnUnchoke(tor, sh, s, pick), MessageBegins(tor, sh, s, Unchoke))
  {
    hide StartNext, Skip, PassedOver, Holds, Genuine, EndgameInv;
    if s.current.None? { StartNextLeaves(tor, sh, s.(peerChoking := false), pick); }
  }

  lemma MessageLeaves(tor: Torrent, sh: Shared, s: Session, m: Message, unchoked: bool, pick: nat)
    requires tor.Valid() && SharedInv(tor, sh)
    ensures LeavesPending(tor, sh, s, OnMessage(tor, sh, s, m, unchoked, pick), MessageBegins(tor, sh, s, m))
  {
    hide OnUnchoke, OnPiece, SharedInv, Skip, PassedOver, GivesUp, Bitfields.ToSet;
    match m
    case Unchoke => UnchokeLeaves(tor, sh, s, pick);
    case Piece(index, _, _) => if s.current == Some(index) { PieceLeaves(tor, sh, s, m, pick); }
    case _ =>
  }

  lemma SentLeaves(tor: Torrent, sh: Shared, s: Session, pick: nat)
    requires tor.Valid() && SharedInv(tor, sh) && SessionInv(tor, sh, s)
    ensures LeavesPending(tor, sh, s, OnSent(tor, sh, s, pick), SentBegins(tor, sh, s))
  {
    hide Advance, Skip, Holds, Genuine, PassedOver;
    if s.phase.Announcing? || s.phase.Cancelling? { AdvanceLeaves(tor, sh, s, pick); }
  }

  lemma StoredLeaves(tor: Torrent, sh: Shared, s: Session)
    requires tor.pieceLength > 0
    ensures LeavesPending(tor, sh, s, OnStored(tor, sh, s), Nothing)
  {}

  lemma TransferLeaves(tor: Torrent, sh: Shared, s: Session, k: nat)
    requires tor.pieceLength > 0
    ensures LeavesPending(tor, sh, s, OnTransfer(tor, sh, s, k), Nothing)
  {}

  // ----- the whole swarm --------------------------------------------------------------------------------

  /**
   * Between two states: i is an orphan now exactly if it was skipped just now, or was one before and
   * neither a session is on it nor is it had now; and it is from the endgame list that a session took it up.
   */
  ghost predicate OrphanLaw(w: Swarm, after: Swarm, i: nat, skipped: bool) {
    && (Orphan(after, i) <==> skipped || (Orphan(w, i) && !Owned(after, i) && i !in after.shared.tracker.have))
    && (Orphan(w, i) && Owned(after, i) ==> after.shared.endgame.active && i in after.shared.endgame.pieces)
  }

  /** Who is on a piece, seen from one session. */
  lemma OwnersSplit(w: Swarm, sid: nat, i: nat)
    requires Live(w, sid)
    ensures Owned(w, i) <==> w.sessions[sid].current == Some(i) || OwnedByOther(w, sid, i)
  {}

  lemma OthersStay(w: Swarm, sid: nat, o: Outcome, stale: multiset<nat>, i: nat)
    requires sid in w.sessions
    ensures OwnedByOther(Put(w, sid, o).(stale := stale), sid, i) == OwnedByOther(w, sid, i)
  {
    var after := Put(w, sid, o).(stale := stale);
    if OwnedByOther(w, sid, i) {
      var k :| k != sid && Live(w, k) && w.sessions[k].current == Some(i);
      assert Live(after, k) && after.sessions[k].current == Some(i);
    }
    if OwnedByOther(after, sid, i) {
      var k :| k != sid && Live(after, k) && after.sessions[k].current == Some(i);
      assert Live(w, k) && w.sessions[k].current == Some(i);
    }
  }

  /** The law for the step of a session that goes on. */
  lemma SessionOrphans(tor: Torrent, w: Swarm, sid: nat, o: Outcome, stale: multiset<nat>, begun: Begun, i: nat)
    requires tor.pieceLength > 0 && Live(w, sid) && LeavesPending(tor, w.shared, w.sessions[sid], o, begun)
    requires !o.session.phase.Ended? && w.shared.tracker.have !! w.shared.tracker.pending
    ensures var after := Put(w, sid, o).(stale := stale);
            OrphanLaw(w, after, i, Passes(tor, begun, w.sessions[sid].peerPieces, i) && !OwnedByOther(w, sid, i))
  {
    hide Passes, OwnedByOther, Owned;
    var after := Put(w, sid, o).(stale := stale);
    OwnersSplit(w, sid, i);
    OwnersSplit(after, sid, i);
    OthersStay(w, sid, o, stale, i);
    assert Left(o.shared, o.session, i) <==>
      (Left(w.shared, w.sessions[sid], i) && o.session.current != Some(i))
      || Passes(tor, begun, w.sessions[sid].peerPieces, i);
  }

  /** A session that ends leaves no piece pending that it was on. */
  lemma DropOrphans(tor: Torrent, w: Swarm, sid: nat, i: nat)
    requires Live(w, sid) && w.shared.tracker.have !! w.shared.tracker.pending
    ensures OrphanLaw(w, Put(w, sid, OnDrop(tor, w.shared, w.sessions[sid])), i, false)
  {
    hide OwnedByOther, Owned;
    var o := OnDrop(tor, w.shared, w.sessions[sid]);
    OwnersSplit(w, sid, i);
    OthersStay(w, sid, o, w.stale, i);
    EndedOwnsNothing(Put(w, sid, o), sid, i);
  }

  lemma EndedOwnsNothing(w: Swarm, sid: nat, i: nat)
    requires sid in w.sessions && w.sessions[sid].phase.Ended?
    ensures Owned(w, i) <==> OwnedByOther(w, sid, i)
  {}

  lemma SameSessions(w: Swarm, after: Swarm, i: nat)
    requires after.sessions == w.sessions
    ensures Owned(after, i) == Owned(w, i)
  {
    assert forall sid :: Live(after, sid) == Live(w, sid);
  }

  lemma ConnectOwnsNothing(w: Swarm, sid: nat, addr: Addr, i: nat)
    requires sid !in w.sessions
    ensures Owned(w.(sessions := w.sessions[sid := NewSession(addr)]), i) == Owned(w, i)
  {
    var after := w.(sessions := w.sessions[sid := NewSession(addr)]);
    assert forall k :: k != sid ==> Live(after, k) == Live(w, k);
    if Owned(w, i) {
      var k :| Live(w, k) && w.sessions[k].current == Some(i);
      assert Live(after, k) && after.sessions[k].current == Some(i);
    }
  }

  lemma CheckerOrphans(tor: Torrent, w: Swarm, e: Event, i: nat)
    requires tor.pieceLength > 0 && w.shared.tracker.have !! w.shared.tracker.pending
    ensures OrphanLaw(w, CheckerStep(tor, w, e), i, false)
  {
    hide Owned;
    SameSessions(w, CheckerStep(tor, w, e), i);
  }

  lemma MessageOrphans(tor: Torrent, w: Swarm, sid: nat, m: Message, unchoked: bool, pick: nat, i: nat)
    requires tor.Valid() && Inv(tor, w) && Live(w, sid) && w.sessions[sid].phase.Receiving?
    ensures var e := Event.Message(sid, m, unchoked, pick);
            OrphanLaw(w, Step(tor, w, e), i, SkipsUnowned(tor, w, e, i))
  {
    hide OnMessage, Passes, OrphanLaw, OwnedByOther, Holds, Genuine, MessageBegins, LeavesPending, AvailabilityInv,
         CheckerInv, SessionInv, EndgameInv;
    var sh, s := w.shared, w.sessions[sid];
    MessageLeaves(tor, sh, s, m, unchoked, pick);
    SoundNotEnded(tor, sh, s, m, unchoked, pick);
    SessionOrphans(tor, w, sid, OnMessage(tor, sh, s, m, unchoked, pick), w.stale + Repeats(s, m),
                   MessageBegins(tor, sh, s, m), i);
  }

  lemma SentOrphans(tor: Torrent, w: Swarm, sid: nat, pick: nat, i: nat)
    requires tor.Valid() && Inv(tor, w) && Live(w, sid)
    ensures OrphanLaw(w, Step(tor, w, Sent(sid, pick)), i, SkipsUnowned(tor, w, Sent(sid, pick), i))
  {
    hide OnSent, Passes, OrphanLaw, OwnedByOther, Holds, Genuine, SentBegins, LeavesPending, AvailabilityInv,
         CheckerInv, SessionInv, EndgameInv;
    var sh, s := w.shared, w.sessions[sid];
    SentLeaves(tor, sh, s, pick);
    SentUntouched(tor, sh, s, pick);
    SessionOrphans(tor, w, sid, OnSent(tor, sh, s, pick), w.stale, SentBegins(tor, sh, s), i);
  }

  lemma StoredOrphans(tor: Torrent, w: Swarm, sid: nat, i: nat)
    requires tor.Valid() && Inv(tor, w) && Live(w, sid)
    ensures OrphanLaw(w, Step(tor, w, Stored(sid)), i, false)
  {
    hide OnStored, OrphanLaw, OwnedByOther, Holds, Genuine, LeavesPending, AvailabilityInv, CheckerInv, SessionInv;
    var sh, s := w.shared, w.sessions[sid];
    StoredLeaves(tor, sh, s);
    StoredUntouched(tor, sh, s);
    SessionOrphans(tor, w, sid, OnStored(tor, sh, s), w.stale, Nothing, i);
  }

  lemma TransferOrphans(tor: Torrent, w: Swarm, sid: nat, k: nat, i: nat)
    requires tor.Valid() && Inv(tor, w) && Live(w, sid)
    ensures OrphanLaw(w, Step(tor, w, Transfer(sid, k)), i, false)
  {
    hide OnTransfer, OrphanLaw, OwnedByOther, Holds, Genuine, LeavesPending, AvailabilityInv, CheckerInv, SessionInv;
    var sh, s := w.shared, w.sessions[sid];
    TransferLeaves(tor, sh, s, k);
    TransferUntouched(tor, sh, s, k);
    SessionOrphans(tor, w, sid, OnTransfer(tor, sh, s, k), w.stale, Nothing, i);
  }

  /**
   * The law of orphans for every event: a piece is one afterwards if and only if the event makes a session
   * skip it while no other session is on it, or it was one before and was neither taken up nor had since.
   * A session takes up an orphan only from the list of an active endgame.
   */
  lemma OrphansAfterStep(tor: Torrent, w: Swarm, e: Event, i: nat)
    requires tor.Valid() && Inv(tor, w)
    ensures OrphanLaw(w, Step(tor, w, e), i, SkipsUnowned(tor, w, e, i))
  {
    hide OnMessage, OnSent, OnStored, OnTransfer, OnDrop, CheckerStep, Passes, Owned, OwnedByOther, Holds, Genuine,
         MessageBegins, SentBegins, Balanced;
    match e
    case Connect(sid, addr) => if sid !in w.sessions { ConnectOwnsNothing(w, sid, addr, i); }
    case Message(sid, m, unchoked, pick) =>
      if Live(w, sid) && w.sessions[sid].phase.Receiving? { MessageOrphans(tor, w, sid, m, unchoked, pick, i); }
    case Sent(sid, pick) => if Live(w, sid) { SentOrphans(tor, w, sid, pick, i); }
    case Transfer(sid, k) => if Live(w, sid) { TransferOrphans(tor, w, sid, k, i); }
    case Stored(sid) => if Live(w, sid) { StoredOrphans(tor, w, sid, i); }
    case Drop(sid) => if Live(w, sid) { DropOrphans(tor, w, sid, i); }
    case LateWrite(_, _) => SameSessions(w, Step(tor, w, e), i);
    case Start => SameSessions(w, Step(tor, w, e), i);
    case _ => CheckerOrphans(tor, w, e, i);
  }

  // ----- whole runs -------------------------------------------------------------------------------------

  /** Somebody downloads every pending piece. */
  ghost predicate NoOrphans(w: Swarm) {
    forall i :: i in w.shared.tracker.pending ==> Owned(w, i)
  }

  ghost predicate SkipsAny(tor: Torrent, w: Swarm, e: Event)
    requires tor.pieceLength > 0
  {
    exists i: nat :: SkipsUnowned(tor, w, e, i)
  }

  /** With every pending piece on somebody's hands, an event keeps it so if and only if it skips none for good. */
  lemma NoOrphansIff(tor: Torrent, w: Swarm, e: Event)
    requires tor.Valid() && Inv(tor, w) && NoOrphans(w)
    ensures NoOrphans(Step(tor, w, e)) <==> !SkipsAny(tor, w, e)
  {
    hide Step, Inv, Owned, SkipsUnowned;
    forall i: nat ensures Orphan(Step(tor, w, e), i) <==> SkipsUnowned(tor, w, e, i) {
      OrphansAfterStep(tor, w, e, i);
    }
    if SkipsAny(tor, w, e) {
      var i: nat :| SkipsUnowned(tor, w, e, i);
      assert Orphan(Step(tor, w, e), i);
    }
    if !NoOrphans(Step(tor, w, e)) {
      var i :| i in Step(tor, w, e).shared.tracker.pending && !Owned(Step(tor, w, e), i);
      assert Orphan(Step(tor, w, e), i);
    }
  }

  /** The state of a run after k of its events. */
  ghost function After(tor: Torrent, store: Bytes, events: seq<Event>, k: nat): Swarm
    requires tor.pieceLength > 0 && k <= |events|
  {
    Run(tor, Initial(store), events[..k])
  }

  lemma AfterNext(tor: Torrent, store: Bytes, events: seq<Event>, k: nat)
    requires tor.Valid() && |store| == |tor.content| && k < |events|
    ensures After(tor, store, events, k + 1) == Step(tor, After(tor, store, events, k), events[k])
    ensures Inv(tor, After(tor, store, events, k))
  {
    hide Step, Inv;
    assert events[..k + 1][..k] == events[..k];
    InitialInv(tor, store);
    RunInv(tor, Initial(store), events[..k]);
  }

  lemma NoneAtFirst(tor: Torrent, store: Bytes, events: seq<Event>)
    requires tor.pieceLength > 0
    ensures NoOrphans(After(tor, store, events, 0)) && forall i :: !Orphan(After(tor, store, events, 0), i)
  {
    hide Owned;
    assert events[..0] == [];
  }

  /** Over a run somebody downloads every pending piece all the time exactly when no event skips one for good. */
  lemma NoOrphansOverRuns(tor: Torrent, store: Bytes, events: seq<Event>)
    requires tor.Valid() && |store| == |tor.content|
    ensures (forall k :: 0 <= k <= |events| ==> NoOrphans(After(tor, store, events, k)))
            <==> forall k :: 0 <= k < |events| ==> !SkipsAny(tor, After(tor, store, events, k), events[k])
  {
    hide Step, Inv, NoOrphans, SkipsAny, After;
    if forall k :: 0 <= k <= |events| ==> NoOrphans(After(tor, store, events, k)) {
      forall k | 0 <= k < |events| ensures !SkipsAny(tor, After(tor, store, events, k), events[k]) {
        AfterNext(tor, store, events, k);
        NoOrphansIff(tor, After(tor, store, events, k), events[k]);
      }
    }
    if forall k :: 0 <= k < |events| ==> !SkipsAny(tor, After(tor, store, events, k), events[k]) {
      forall k | 0 <= k <= |events| ensures NoOrphans(After(tor, store, events, k)) {
        NeverSkipped(tor, store, events, k);
      }
    }
  }

  lemma {:induction false} NeverSkipped(tor: Torrent, store: Bytes, events: seq<Event>, k: nat)
    requires tor.Valid() && |store| == |tor.content| && k <= |events|
    requires forall j :: 0 <= j < |events| ==> !SkipsAny(tor, After(tor, store, events, j), events[j])
    ensures NoOrphans(After(tor, store, events, k))
  {
    hide Step, Inv, NoOrphans, SkipsAny, After;
    if k == 0 {
      NoneAtFirst(tor, store, events);
    } else {
      NeverSkipped(tor, store, events, k - 1);
      AfterNext(tor, store, events, k - 1);
      NoOrphansIff(tor, After(tor, store, events, k - 1), events[k - 1]);
    }
  }

  /** No session is on piece i, and it is not had. */
  ghost predicate Untaken(w: Swarm, i: nat) {
    !Owned(w, i) && i !in w.shared.tracker.have
  }

  /** The k-th event skips piece i, and from then until after n events nobody takes it up or completes it. */
  ghost predicate SkippedSince(tor: Torrent, store: Bytes, events: seq<Event>, n: nat, i: nat, k: nat)
    requires tor.pieceLength > 0 && n <= |events|
  {
    && k < n && SkipsUnowned(tor, After(tor, store, events, k), events[k], i)
    && forall j :: k < j <= n ==> Untaken(After(tor, store, events, j), i)
  }

  /** At any time of any run a piece is an orphan exactly if it was skipped and nobody took it up since. */
  lemma {:induction false} OrphansOverRuns(tor: Torrent, store: Bytes, events: seq<Event>, n: nat, i: nat)
    requires tor.Valid() && |store| == |tor.content| && n <= |events|
    ensures Orphan(After(tor, store, events, n), i)
            <==> exists k: nat :: SkippedSince(tor, store, events, n, i, k)
  {
    hide Step, Inv, Owned, SkipsUnowned, After;
    if n == 0 {
      NoneAtFirst(tor, store, events);
    } else {
      var w, e, after := After(tor, store, events, n - 1), events[n - 1], After(tor, store, events, n);
      OrphansOverRuns(tor, store, events, n - 1, i);
      AfterNext(tor, store, events, n - 1);
      OrphansAfterStep(tor, w, e, i);
      if Orphan(after, i) {
        OrphanIsUntaken(tor, store, events, n, i);
        if SkipsUnowned(tor, w, e, i) {
          assert SkippedSince(tor, store, events, n, i, n - 1);
        } else {
          var k: nat :| SkippedSince(tor, store, events, n - 1, i, k);
          assert SkippedSince(tor, store, events, n, i, k);
        }
      }
      if k: nat :| SkippedSince(tor, store, events, n, i, k) {
        if k < n - 1 { assert SkippedSince(tor, store, events, n - 1, i, k); }
        assert Untaken(after, i);
      }
    }
  }

  lemma OrphanIsUntaken(tor: Torrent, store: Bytes, events: seq<Event>, n: nat, i: nat)
    requires tor.Valid() && |store| == |tor.content| && n <= |events| && Orphan(After(tor, store, events, n), i)
    ensures Untaken(After(tor, store, events, n), i)
  {
    hide Owned, Step, Holds, Genuine;
    InitialInv(tor, store);
    RunInv(tor, Initial(store), events[..n]);
  }

  // ----- a run that leaves an orphan ----------------------------------------------------------------------

  /** The peer has announced the second of two pieces, and we have said that we want it. */
  lemma PeerHasTheSecond(content: Bytes, store: Bytes, addr: Addr) returns (w: Swarm)
    requires |content| == 2 && |store| == 2
    ensures Reachable(Small(content), store, w)
    ensures w == Alone(Tracker({}, {}, {}, map[1 := 1]), Endgame(false, {}, map[]), store,
                       Session(addr, None, map[], {1}, true, true, Receiving))
  {
    hide Run, Step;
    var tor := Small(content);
    Greet(tor, store, addr);
    var e := Event.Message(0, Have(1), true, 0);
    Then(tor, store, Greeted(store, addr), e);
    HaveComesIn(content, store, addr, 1);
    var w1 := Step(tor, Greeted(store, addr), e);
    Then(tor, store, w1, Sent(0, 0));
    w := InterestGoesOut(tor, w1, addr, 1);
  }

  lemma SecondIsHeld(t: Tracker)
    requires t == Tracker({}, {}, {}, map[1 := 1])
    ensures t.Rarest(2) == Some(0) && t.MarkPending(0).Rarest(2) == Some(1)
    ensures Skip(t, 2, {1}) == t.MarkPending(0)
  {
    assert t.Rarest(0) == None && t.Rarest(1) == Some(0);
    assert t.MarkPending(0).Rarest(0) == None && t.MarkPending(0).Rarest(1) == None;
  }

  /** Its session, unchoked, passes the first piece over and takes the second. */
  lemma SecondIsTaken(content: Bytes, store: Bytes, addr: Addr, w: Swarm)
    requires |content| == 2
    requires w == Alone(Tracker({}, {}, {}, map[1 := 1]), Endgame(false, {}, map[]), store,
                        Session(addr, None, map[], {1}, true, true, Receiving))
    ensures Orphan(Step(Small(content), w, Event.Message(0, Unchoke, true, 0)), 0)
  {
    hide OnPiece, OnChoke, OnAnnouncement, Skip;
    SmallPiece(content, 0);
    SecondIsHeld(w.shared.tracker);
    var after := Step(Small(content), w, Event.Message(0, Unchoke, true, 0));
    assert after.sessions.Keys == {0} && after.sessions[0].current == Some(1);
    assert 0 in after.shared.tracker.pending;
  }

  lemma ReachableInv(tor: Torrent, store: Bytes, w: Swarm)
    requires tor.Valid() && |store| == |tor.content| && Reachable(tor, store, w)
    ensures Inv(tor, w)
  {
    var events :| w == Run(tor, Initial(store), events);
    InitialInv(tor, store);
    RunInv(tor, Initial(store), events);
  }

  /**
   * A reachable state with an orphan: the only peer has the second of two pieces, and when it unchokes us
   * its session marks the first one pending and downloads the second.
   */
  lemma LeftPending() returns (tor: Torrent, store: Bytes, w: Swarm)
    ensures tor.Valid() && |store| == |tor.content| && Reachable(tor, store, w)
    ensures NoOrphans(w) && SkipsAny(tor, w, Event.Message(0, Unchoke, true, 0))
    ensures Orphan(Step(tor, w, Event.Message(0, Unchoke, true, 0)), 0)
  {
    hide Step, Run, Inv, Owned, SkipsUnowned;
    tor, store := Small([7, 8]), [0, 0];
    w := PeerHasTheSecond([7, 8], store, Addr([], 0));
    SecondIsTaken([7, 8], store, Addr([], 0), w);
    ReachableInv(tor, store, w);
    NoOrphansIff(tor, w, Event.Message(0, Unchoke, true, 0));
  }
}
