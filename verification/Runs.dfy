/** The theorems about whole runs of the swarm. */
module Runs {
  import opened Bytes
  import opened Wire
  import opened Pieces
  import opened Assembly
  import opened Swarm
  import opened Selection
  import opened Safety

  // ----- one step keeps the invariant ---------------------------------------------------------------

  lemma InitialInv(tor: Torrent, store: Bytes)
    requires tor.Valid() && |store| == |tor.content|
    ensures Inv(tor, Initial(store))
  {
    var w := Initial(store);
    forall i ensures Holders(w, i) == {} {}
  }

  /** A session's step keeps the whole invariant, whatever the other sessions are doing. */
  lemma SessionStepInv(tor: Torrent, w: Swarm, sid: nat, o: Outcome, repeats: multiset<nat>)
    requires tor.Valid() && Inv(tor, w) && Live(w, sid)
    requires Sound(tor, w.shared, w.sessions[sid], o) && Balanced(w.shared, w.sessions[sid], o, repeats)
    requires o.session.phase.Ended? ==> forall i :: w.sessions[sid].addr !in o.shared.endgame.Requesters(i)
    ensures Inv(tor, Put(w, sid, o).(stale := w.stale + repeats))
  {
    var w' := Put(w, sid, o).(stale := w.stale + repeats);
    BalancedKeepsAvailability(w, sid, o, repeats);
    hide SharedInv, SessionInv, AvailabilityInv, Balanced;
    forall x | Live(w', x) ensures SessionInv(tor, w'.shared, w'.sessions[x]) {
      if x != sid {
        assert Live(w, x);
        SessionInvStable(tor, w.shared, w'.shared, w.sessions[x]);
      }
    }
    RequestersStayLive(tor, w, sid, o, repeats);
  }

  lemma RequestersStayLive(tor: Torrent, w: Swarm, sid: nat, o: Outcome, repeats: multiset<nat>)
    requires tor.Valid() && Inv(tor, w) && Live(w, sid) && Sound(tor, w.shared, w.sessions[sid], o)
    requires o.session.phase.Ended? ==> forall i :: w.sessions[sid].addr !in o.shared.endgame.Requesters(i)
    ensures var w' := Put(w, sid, o).(stale := w.stale + repeats);
            forall i, a :: a in w'.shared.endgame.Requesters(i) ==> LiveAddr(w', a)
  {
    var w' := Put(w, sid, o).(stale := w.stale + repeats);
    var own := w.sessions[sid].addr;
    forall i, a | a in w'.shared.endgame.Requesters(i) ensures LiveAddr(w', a) {
      if a == own {
        assert Live(w', sid) && w'.sessions[sid].addr == a;
      } else {
        assert a in w.shared.endgame.Requesters(i) && LiveAddr(w, a);
        var x :| Live(w, x) && w.sessions[x].addr == a;
        assert Live(w', x) && w'.sessions[x].addr == a;
      }
    }
  }

  lemma UntouchedIsBalanced(tor: Torrent, w: Swarm, sid: nat, o: Outcome)
    requires tor.pieceLength > 0 && Inv(tor, w) && Live(w, sid) && Untouched(w.shared, w.sessions[sid], o)
    ensures Balanced(w.shared, w.sessions[sid], o, multiset{})
  {}

  /** A change of the shared state alone. */
  lemma SharedStepInv(tor: Torrent, w: Swarm, sh: Shared, checker: Checker)
    requires tor.Valid() && Inv(tor, w) && SharedInv(tor, sh) && Progress(tor, w.shared, sh)
    requires sh.tracker.availability == w.shared.tracker.availability && sh.endgame == w.shared.endgame
    requires CheckerInv(tor, w.(shared := sh, checker := checker))
    ensures Inv(tor, w.(shared := sh, checker := checker))
  {
    var w' := w.(shared := sh, checker := checker);
    hide SharedInv, SessionInv, CheckerInv;
    forall x | Live(w', x) ensures SessionInv(tor, sh, w'.sessions[x]) {
      assert Live(w, x);
      SessionInvStable(tor, w.shared, sh, w.sessions[x]);
    }
    forall i ensures Holders(w', i) == Holders(w, i) {
      assert forall sid :: Live(w', sid) == Live(w, sid);
    }
    forall i, a | a in w'.shared.endgame.Requesters(i) ensures LiveAddr(w', a) {
      assert a in w.shared.endgame.Requesters(i) && LiveAddr(w, a);
      var x :| Live(w, x) && w.sessions[x].addr == a;
      assert Live(w', x);
    }
  }

  lemma CheckerStepInv(tor: Torrent, w: Swarm, e: Event)
    requires tor.Valid() && Inv(tor, w)
    ensures Inv(tor, CheckerStep(tor, w, e))
  {
    var w' := CheckerStep(tor, w, e);
    if w.checker.Checking? && w.checker.todo != [] && w.checker.todo[0] < tor.Count() && !e.CheckSkip? {
      var i, got := w.checker.todo[0], w.checker.got;
      if e.CheckRead? {
        CheckReadInv(tor, w, i, got, Min(e.k, Subtract(tor.Length(i), |got|)));
        SharedStepInv(tor, w, w.shared, w'.checker);
      } else if e.CheckVerify? && |got| == tor.Length(i) {
        if tor.sha1(got) == tor.sha1(tor.Piece(i)) {
          CheckedPieceHolds(tor, w, i, got);
          MarkHaveSound(tor, w.shared, i);
        }
        SharedStepInv(tor, w, w'.shared, w'.checker);
      }
    } else {
      SharedStepInv(tor, w, w.shared, w'.checker);
    }
  }

  lemma CheckReadInv(tor: Torrent, w: Swarm, i: nat, got: Bytes, n: nat)
    requires tor.Valid() && Inv(tor, w) && w.checker.Checking? && w.checker.todo != []
    requires w.checker.todo[0] == i < tor.Count() && w.checker.got == got && |got| + n <= tor.Length(i)
    ensures var from := tor.At(i) + |got|;
            CheckerInv(tor, w.(checker := Checking(w.checker.todo, got + Slice(w.shared.store, from, from + n))))
  {
    hide AvailabilityInv, SessionInv, TrackerInv, EndgameInv, Holds, Slice;
    InRangeIffOffset(tor.pieceLength, |tor.content|, i);
    ReadMore(tor, w.shared.store, tor.At(i), got, n);
  }

  lemma ReadMore(tor: Torrent, store: Bytes, at: nat, got: Bytes, n: nat)
    requires |store| == |tor.content| && at + |got| + n <= |store|
    requires forall j :: 0 <= j < |got| && got[j] == tor.content[at + j] ==> Correct(tor, store, at + j)
    ensures var all := got + Slice(store, at + |got|, at + |got| + n);
            |all| == |got| + n
            && forall j :: 0 <= j < |all| && all[j] == tor.content[at + j] ==> Correct(tor, store, at + j)
  {
    var more := Slice(store, at + |got|, at + |got| + n);
    var all := got + more;
    forall j | 0 <= j < |all| && all[j] == tor.content[at + j] ensures Correct(tor, store, at + j) {
      if j < |got| { assert all[j] == got[j]; } else { assert all[j] == more[j - |got|] == store[at + j]; }
    }
  }

  /** Data read in several chunks beside running writers still proves the region, once its digest matches. */
  lemma CheckedPieceHolds(tor: Torrent, w: Swarm, i: nat, got: Bytes)
    requires tor.Valid() && Inv(tor, w) && w.checker.Checking? && w.checker.todo != []
    requires w.checker.todo[0] == i < tor.Count() && w.checker.got == got
    requires tor.sha1(got) == tor.sha1(tor.Piece(i))
    ensures Holds(tor, w.shared.store, i)
  {
    InRangeIffOffset(tor.pieceLength, |tor.content|, i);
    PieceIsGenuine(tor, i);
    assert got == tor.Piece(i);
    forall k | tor.At(i) <= k < tor.At(i) + tor.Length(i) ensures Correct(tor, w.shared.store, k) {
      var j := k - tor.At(i);
      assert got[j] == tor.content[tor.At(i) + j];
    }
  }

  lemma LateWriteInv(tor: Torrent, w: Swarm, write: Write, k: nat)
    requires tor.Valid() && Inv(tor, w) && write in w.shared.late
    ensures Inv(tor, Step(tor, w, LateWrite(write, k)))
  {
    var chunk := Slice(write.data, 0, Min(k, |write.data|));
    assert Slice(write.data, 0, k) == chunk;
    GenuineSlice(tor, write.offset, write.data, 0, Min(k, |write.data|));
    OverwriteGenuine(tor, w.shared.store, write.offset, chunk);
    var store := Overwrite(w.shared.store, write.offset, chunk);
    hide Overwrite, Slice;
    StoreImproved(tor, w.shared, store);
    SharedStepInv(tor, w, w.shared.(store := store), w.checker);
  }

  lemma ConnectInv(tor: Torrent, w: Swarm, sid: nat, addr: Addr)
    requires tor.Valid() && Inv(tor, w) && sid !in w.sessions
    ensures Inv(tor, Step(tor, w, Connect(sid, addr)))
  {
    var w' := Step(tor, w, Connect(sid, addr));
    forall x | Live(w', x) ensures SessionInv(tor, w'.shared, w'.sessions[x]) {
      if x != sid { assert Live(w, x); }
    }
    forall i ensures Holders(w', i) == Holders(w, i) {
      assert forall x :: x != sid ==> Live(w', x) == Live(w, x);
    }
    forall i, a | a in w'.shared.endgame.Requesters(i) ensures LiveAddr(w', a) {
      assert a in w.shared.endgame.Requesters(i) && LiveAddr(w, a);
      var x :| Live(w, x) && w.sessions[x].addr == a;
      assert Live(w', x) && w'.sessions[x].addr == a;
    }
  }

  lemma StepInv(tor: Torrent, w: Swarm, e: Event)
    requires tor.Valid() && Inv(tor, w)
    ensures Inv(tor, Step(tor, w, e))
  {
    match e
    case Connect(sid, addr) => if sid !in w.sessions { ConnectInv(tor, w, sid, addr); }
    case LateWrite(write, k) => if write in w.shared.late { LateWriteInv(tor, w, write, k); }
    case Check(_) => CheckerStepInv(tor, w, e);
    case CheckRead(_) => CheckerStepInv(tor, w, e);
    case CheckVerify => CheckerStepInv(tor, w, e);
    case CheckSkip => CheckerStepInv(tor, w, e);
    case Start =>
      if w.shared.tracker.Complete(tor.Count()) { SharedStepInv(tor, w, w.shared.(done := true), w.checker); }
    case _ => if Live(w, e.sid) { SessionEventInv(tor, w, e); }
  }

  lemma SessionEventInv(tor: Torrent, w: Swarm, e: Event)
    requires tor.Valid() && Inv(tor, w)
    requires e.Message? || e.Sent? || e.Transfer? || e.Stored? || e.Drop?
    requires Live(w, e.sid)
    ensures Inv(tor, Step(tor, w, e))
  {
    var sid := e.sid;
    var sh, s := w.shared, w.sessions[sid];
    hide Sound, Balanced, Untouched, SharedInv, SessionInv, Progress, AvailabilityInv, CheckerInv;
    match e
    case Message(_, m, unchoked, pick) =>
      if s.phase.Receiving? {
        MessageSound(tor, sh, s, m, unchoked, pick);
        NoZeroCounts(w);
        MessageBalanced(tor, sh, s, m, unchoked, pick);
        SoundNotEnded(tor, sh, s, m, unchoked, pick);
        SessionStepInv(tor, w, sid, OnMessage(tor, sh, s, m, unchoked, pick), Repeats(s, m));
      }
    case Sent(_, pick) =>
      SentSound(tor, sh, s, pick);
      SentUntouched(tor, sh, s, pick);
      UntouchedStepInv(tor, w, sid, OnSent(tor, sh, s, pick));
    case Transfer(_, k) =>
      TransferSound(tor, sh, s, k);
      assert Untouched(sh, s, OnTransfer(tor, sh, s, k)) by { TransferUntouched(tor, sh, s, k); }
      UntouchedStepInv(tor, w, sid, OnTransfer(tor, sh, s, k));
    case Stored(_) =>
      StoredSound(tor, sh, s);
      StoredUntouched(tor, sh, s);
      UntouchedStepInv(tor, w, sid, OnStored(tor, sh, s));
    case Drop(_) =>
      DropSound(tor, sh, s);
      DropBalanced(tor, w, sid);
      SessionStepInv(tor, w, sid, OnDrop(tor, sh, s), multiset{});
      SameSwarm(w, sid, OnDrop(tor, sh, s));
  }

  lemma NoZeroCounts(w: Swarm)
    requires AvailabilityInv(w)
    ensures forall i :: i in w.shared.tracker.availability ==> w.shared.tracker.availability[i] > 0
  {}

  lemma SameSwarm(w: Swarm, sid: nat, o: Outcome)
    ensures Put(w, sid, o).(stale := w.stale + multiset{}) == Put(w, sid, o)
  {
    assert w.stale + multiset{} == w.stale;
  }

  lemma SoundNotEnded(tor: Torrent, sh: Shared, s: Session, m: Wire.Message, unchoked: bool, pick: nat)
    requires tor.pieceLength > 0 && s.phase.Receiving?
    ensures !OnMessage(tor, sh, s, m, unchoked, pick).session.phase.Ended?
  {
    hide Skip, StartPiece, Assemble, Assembly.Complete, Tracker.Announce, Tracker.MarkFailed;
  }

  lemma TransferUntouched(tor: Torrent, sh: Shared, s: Session, k: nat)
    requires !s.phase.Ended?
    ensures Untouched(sh, s, OnTransfer(tor, sh, s, k))
  {}

  lemma StoredUntouched(tor: Torrent, sh: Shared, s: Session)
    requires !s.phase.Ended?
    ensures Untouched(sh, s, OnStored(tor, sh, s))
  {}

  lemma UntouchedStepInv(tor: Torrent, w: Swarm, sid: nat, o: Outcome)
    requires tor.Valid() && Inv(tor, w) && Live(w, sid)
    requires Sound(tor, w.shared, w.sessions[sid], o) && Untouched(w.shared, w.sessions[sid], o)
    ensures Inv(tor, Put(w, sid, o))
  {
    UntouchedIsBalanced(tor, w, sid, o);
    hide Inv, Sound, Balanced;
    SessionStepInv(tor, w, sid, o, multiset{});
    SameSwarm(w, sid, o);
  }

  /** Every reachable state satisfies the invariant. */
  lemma {:induction false} RunInv(tor: Torrent, w: Swarm, events: seq<Event>)
    requires tor.Valid() && Inv(tor, w)
    ensures Inv(tor, Run(tor, w, events))
    decreases |events|
  {
    if events != [] {
      RunInv(tor, w, events[..|events| - 1]);
      StepInv(tor, Run(tor, w, events[..|events| - 1]), events[|events| - 1]);
    }
  }

  // ----- what one step may change -----------------------------------------------------------------

  lemma ProgressRefl(tor: Torrent, sh: Shared)
    requires tor.pieceLength > 0
    ensures Progress(tor, sh, sh)
  {}

  lemma StepProgress(tor: Torrent, w: Swarm, e: Event)
    requires tor.Valid() && Inv(tor, w)
    ensures Progress(tor, w.shared, Step(tor, w, e).shared)
  {
    var sh := w.shared;
    hide Progress, AvailabilityInv, CheckerInv;
    ProgressRefl(tor, sh);
    match e
    case Message(sid, m, unchoked, pick) =>
      if Live(w, sid) && w.sessions[sid].phase.Receiving? { MessageSound(tor, sh, w.sessions[sid], m, unchoked, pick); }
    case Sent(sid, pick) => if Live(w, sid) { SentSound(tor, sh, w.sessions[sid], pick); }
    case Transfer(sid, k) => if Live(w, sid) { TransferSound(tor, sh, w.sessions[sid], k); }
    case Stored(sid) => if Live(w, sid) { StoredSound(tor, sh, w.sessions[sid]); }
    case Drop(sid) => if Live(w, sid) { DropSound(tor, sh, w.sessions[sid]); }
    case LateWrite(write, k) => if write in sh.late { LateWriteProgress(tor, w, write, k); }
    case CheckVerify => CheckProgress(tor, w, e);
    case Start => StartProgress(tor, sh);
    case _ =>
  }

  lemma StartProgress(tor: Torrent, sh: Shared)
    requires tor.pieceLength > 0
    ensures Progress(tor, sh, sh.(done := true))
  {}

  lemma LateWriteProgress(tor: Torrent, w: Swarm, write: Write, k: nat)
    requires tor.Valid() && Inv(tor, w) && write in w.shared.late
    ensures Progress(tor, w.shared, Step(tor, w, LateWrite(write, k)).shared)
  {
    GenuineSlice(tor, write.offset, write.data, 0, Min(k, |write.data|));
    OverwriteGenuine(tor, w.shared.store, write.offset, Slice(write.data, 0, Min(k, |write.data|)));
    assert Slice(write.data, 0, k) == Slice(write.data, 0, Min(k, |write.data|));
  }

  lemma CheckProgress(tor: Torrent, w: Swarm, e: Event)
    requires tor.pieceLength > 0 && e.CheckVerify?
    ensures Progress(tor, w.shared, Step(tor, w, e).shared)
  {}

  // ----- theorems -------------------------------------------------------------------------------------

  /** What was verified is right, and completion means the whole content. */
  ghost predicate Safe(tor: Torrent, sh: Shared)
    requires tor.pieceLength > 0
  {
    && |sh.store| == |tor.content|
    && (forall i :: i in sh.tracker.have ==>
          i < tor.Count() && i !in sh.tracker.pending
          && Slice(sh.store, tor.At(i), tor.At(i) + tor.Length(i)) == tor.Piece(i))
    && (sh.done ==> sh.store == tor.content)
  }

  lemma InvariantIsSafe(tor: Torrent, sh: Shared)
    requires tor.Valid() && SharedInv(tor, sh)
    ensures Safe(tor, sh)
  {
    forall i | i in sh.tracker.have
      ensures Slice(sh.store, tor.At(i), tor.At(i) + tor.Length(i)) == tor.Piece(i)
    {
      HeldRegion(tor, sh, i);
    }
    if sh.done { CompleteStore(tor, sh); }
  }

  /**
   * Download safety.  In every run, from any initial storage: each piece in `have` exists, is not
   * pending, and its region of the storage equals the original; and once `done` is signalled the whole
   * storage equals the original content.
   */
  lemma DownloadSafety(tor: Torrent, store: Bytes, events: seq<Event>)
    requires tor.Valid() && |store| == |tor.content|
    ensures Safe(tor, Run(tor, Initial(store), events).shared)
  {
    hide Run, Safe, SharedInv;
    InitialInv(tor, store);
    RunInv(tor, Initial(store), events);
    InvariantIsSafe(tor, Run(tor, Initial(store), events).shared);
  }

  lemma HeldRegion(tor: Torrent, sh: Shared, i: nat)
    requires tor.Valid() && SharedInv(tor, sh) && i in sh.tracker.have
    ensures Slice(sh.store, tor.At(i), tor.At(i) + tor.Length(i)) == tor.Piece(i)
  {
    InRangeIffOffset(tor.pieceLength, |tor.content|, i);
    assert Holds(tor, sh.store, i);
    hide SharedInv, PieceCount;
    var a, n := tor.At(i), tor.Length(i);
    var stored, original := sh.store[a..a + n], tor.content[a..a + n];
    forall j | 0 <= j < n ensures stored[j] == original[j] {
      assert Correct(tor, sh.store, a + j);
    }
  }

  lemma CompleteStore(tor: Torrent, sh: Shared)
    requires tor.Valid() && SharedInv(tor, sh) && sh.tracker.Complete(tor.Count())
    ensures sh.store == tor.content
  {
    CompleteIffNoneMissing(sh.tracker, tor.Count());
    forall k | 0 <= k < |tor.content| ensures sh.store[k] == tor.content[k] {
      var i := PieceOfByte(tor.pieceLength, |tor.content|, k);
      assert i !in Missing(sh.tracker, tor.Count());
      assert Holds(tor, sh.store, i);
      assert Correct(tor, sh.store, k);
    }
  }

  /** Verified pieces are never given up, and a storage byte once right is never damaged. */
  lemma {:induction false} NothingIsLost(tor: Torrent, store: Bytes, events: seq<Event>, n: nat)
    requires tor.Valid() && |store| == |tor.content| && n <= |events|
    ensures var earlier := Run(tor, Initial(store), events[..n]).shared;
            var later := Run(tor, Initial(store), events).shared;
            && earlier.tracker.have <= later.tracker.have
            && forall k :: Correct(tor, earlier.store, k) ==> Correct(tor, later.store, k)
    decreases |events|
  {
    if n == |events| {
      assert events[..n] == events;
    } else {
      var init := events[..|events| - 1];
      assert init[..n] == events[..n];
      NothingIsLost(tor, store, init, n);
      InitialInv(tor, store);
      RunInv(tor, Initial(store), init);
      StepProgress(tor, Run(tor, Initial(store), init), events[|events| - 1]);
    }
  }

  /**
   * Endgame.  While it is active every missing piece is on its list; it is switched off only when
   * nothing is missing any more; and only addresses of live sessions are ever listed as requesters.
   */
  lemma EndgameOverRuns(tor: Torrent, store: Bytes, events: seq<Event>, e: Event)
    requires tor.Valid() && |store| == |tor.content|
    ensures var w := Run(tor, Initial(store), events);
            var w' := Step(tor, w, e);
            && (w.shared.endgame.active ==> Missing(w.shared.tracker, tor.Count()) <= w.shared.endgame.pieces)
            && (w.shared.endgame.active && !w'.shared.endgame.active ==> Missing(w'.shared.tracker, tor.Count()) == {})
            && forall i, a :: a in w.shared.endgame.Requesters(i) ==> LiveAddr(w, a)
  {
    InitialInv(tor, store);
    RunInv(tor, Initial(store), events);
    var w := Run(tor, Initial(store), events);
    hide Run, Step;
    StepProgress(tor, w, e);
    StepInv(tor, w, e);
    CompleteIffNoneMissing(Step(tor, w, e).shared.tracker, tor.Count());
  }

  /** One count: the live holders and the excess; zeros are not kept. */
  ghost predicate Counted(w: Swarm, i: nat) {
    && w.shared.tracker.Available(i) == |Holders(w, i)| + w.stale[i]
    && (i in w.shared.tracker.availability <==> w.shared.tracker.Available(i) > 0)
  }

  /**
   * Availability.  In every run each count equals the number of live sessions whose peer has the piece
   * plus an excess, and zeros are dropped.  The excess is what repeated Haves and later Bitfields left
   * behind: a Bitfield replaces the pieces a session takes back at its end, but not their counts.
   */
  lemma AvailabilityLaw(tor: Torrent, store: Bytes, events: seq<Event>, i: nat)
    requires tor.Valid() && |store| == |tor.content|
    ensures Counted(Run(tor, Initial(store), events), i)
  {
    InitialInv(tor, store);
    RunInv(tor, Initial(store), events);
  }

  /** A Bitfield with nothing announced before it, or a Have for a piece not announced before. */
  predicate Announces(s: Session, m: Message) {
    match m
    case Bitfield(_) => s.peerPieces == {}
    case Have(index) => index !in s.peerPieces
    case _ => true
  }

  /** In the whole run no Bitfield came after an announcement, and no Have for a piece already announced. */
  ghost predicate Fresh(tor: Torrent, w: Swarm, events: seq<Event>)
    requires tor.pieceLength > 0
    decreases |events|
  {
    events == [] ||
    var before, e := Run(tor, w, events[..|events| - 1]), events[|events| - 1];
    && Fresh(tor, w, events[..|events| - 1])
    && (e.Message? && Live(before, e.sid) && before.sessions[e.sid].phase.Receiving? ==>
          Announces(before.sessions[e.sid], e.m))
  }

  lemma NothingRepeated(s: Session, m: Message)
    ensures Repeats(s, m) == multiset{} <==> Announces(s, m)
  {
    if m.Bitfield? && s.peerPieces != {} {
      var i :| i in s.peerPieces;
      assert multiset(s.peerPieces)[i] > 0;
    }
  }

  lemma {:induction false} FreshIffNoneStale(tor: Torrent, w: Swarm, events: seq<Event>)
    requires tor.pieceLength > 0 && w.stale == multiset{}
    ensures Fresh(tor, w, events) <==> Run(tor, w, events).stale == multiset{}
    decreases |events|
  {
    if events != [] {
      FreshIffNoneStale(tor, w, events[..|events| - 1]);
      var before, e := Run(tor, w, events[..|events| - 1]), events[|events| - 1];
      if e.Message? && Live(before, e.sid) { NothingRepeated(before.sessions[e.sid], e.m); }
      StaleAfterStep(tor, Run(tor, w, events[..|events| - 1]), events[|events| - 1]);
    }
  }

  lemma StaleAfterStep(tor: Torrent, w: Swarm, e: Event)
    requires tor.pieceLength > 0
    ensures Step(tor, w, e).stale ==
      if e.Message? && Live(w, e.sid) && w.sessions[e.sid].phase.Receiving?
      then w.stale + Repeats(w.sessions[e.sid], e.m) else w.stale
  {
    hide OnMessage, OnSent, OnTransfer, OnStored, OnDrop;
  }

  /** The excess never shrinks, whoever leaves. */
  lemma {:induction false} ExcessStays(tor: Torrent, w: Swarm, events: seq<Event>, n: nat)
    requires tor.pieceLength > 0 && n <= |events|
    ensures Run(tor, w, events[..n]).stale <= Run(tor, w, events).stale
    decreases |events|
  {
    if n == |events| {
      assert events[..n] == events;
    } else {
      var init := events[..|events| - 1];
      assert init[..n] == events[..n];
      ExcessStays(tor, w, init, n);
      StaleAfterStep(tor, Run(tor, w, init), events[|events| - 1]);
    }
  }

  /**
   * The counts are exact at the end of a run if and only if in it no Bitfield came after an announcement
   * and no Have for a piece already announced.
   */
  lemma AvailabilityConservedIffFresh(tor: Torrent, store: Bytes, events: seq<Event>)
    requires tor.Valid() && |store| == |tor.content|
    ensures var w := Run(tor, Initial(store), events);
            (forall i :: w.shared.tracker.Available(i) == |Holders(w, i)|) <==> Fresh(tor, Initial(store), events)
  {
    InitialInv(tor, store);
    RunInv(tor, Initial(store), events);
    FreshIffNoneStale(tor, Initial(store), events);
    var w := Run(tor, Initial(store), events);
    hide Run, Fresh;
    if forall i :: w.shared.tracker.Available(i) == |Holders(w, i)| {
      forall i: nat ensures w.stale[i] == 0 {
        assert w.shared.tracker.Available(i) == |Holders(w, i)|;
      }
      assert w.stale == multiset{};
    }
  }

  /** Byte j of the answer a session is sending is original, if it lies in the requested piece. */
  ghost predicate AnswersGenuinely(tor: Torrent, w: Swarm, sid: nat, j: nat) {
    Live(w, sid) && w.sessions[sid].phase.Uploading? ==>
      var Uploading(index, begin, block) := w.sessions[sid].phase;
      j < |block| && begin + j < tor.Length(index) ==> Original(tor, tor.At(index) + begin + j, block[j])
  }

  /** In every run, every byte sent in answer to a request is original as far as it lies in that piece. */
  lemma UploadsAreGenuine(tor: Torrent, store: Bytes, events: seq<Event>, sid: nat, j: nat)
    requires tor.Valid() && |store| == |tor.content|
    ensures AnswersGenuinely(tor, Run(tor, Initial(store), events), sid, j)
  {
    InitialInv(tor, store);
    RunInv(tor, Initial(store), events);
  }

  lemma RunSnoc(tor: Torrent, w: Swarm, events: seq<Event>, e: Event)
    requires tor.pieceLength > 0
    ensures Run(tor, w, events + [e]) == Step(tor, Run(tor, w, events), e)
  {
    assert (events + [e])[..|events|] == events;
  }

  lemma ReadWhole(tor: Torrent, store: Bytes, i: nat)
    requires tor.Valid() && |store| == |tor.content| && i < tor.Count() && Holds(tor, store, i)
    ensures Slice(store, tor.At(i), tor.At(i) + tor.Length(i)) == tor.Piece(i)
    ensures |tor.Piece(i)| == tor.Length(i)
  {
    InRangeIffOffset(tor.pieceLength, |tor.content|, i);
    var a, n := tor.At(i), tor.Length(i);
    forall j | 0 <= j < n ensures store[a..a + n][j] == tor.Piece(i)[j] { assert Correct(tor, store, a + j); }
  }

  lemma CheckerReads(tor: Torrent, w: Swarm, i: nat)
    requires tor.pieceLength > 0 && i < tor.Count() && w.checker == Checking([i], [])
    ensures var piece := Slice(w.shared.store, tor.At(i), tor.At(i) + tor.Length(i));
            CheckerStep(tor, w, CheckRead(tor.Length(i))) == w.(checker := Checking([i], piece))
  {
    hide Slice, PieceCount;
    var piece := Slice(w.shared.store, tor.At(i), tor.At(i) + tor.Length(i));
    assert [] + piece == piece;
  }

  /** The resume check finds one intact piece. */
  lemma CheckOne(tor: Torrent, store: Bytes, i: nat) returns (events: seq<Event>)
    requires tor.Valid() && |store| == |tor.content| && i < tor.Count() && Holds(tor, store, i)
    ensures var w := Run(tor, Initial(store), events);
            w.shared.tracker.have == {i} && w.shared.store == store && w.sessions == map[]
  {
    var w, read := Initial(store), CheckRead(tor.Length(i));
    events := [Check([i]), read, CheckVerify];
    var w1 := w.(checker := Checking([i], []));
    var w2 := w.(checker := Checking([i], tor.Piece(i)));
    assert Step(tor, w, Check([i])) == w1;
    ReadWhole(tor, store, i);
    CheckerReads(tor, w1, i);
    assert Run(tor, w, []) == w;
    hide Run, Slice, PieceCount, OnMessage, OnSent, OnTransfer, OnStored, OnDrop;
    RunSnoc(tor, w, [], Check([i]));
    RunSnoc(tor, w, [Check([i])], read);
    RunSnoc(tor, w, [Check([i]), read], CheckVerify);
    assert [] + [Check([i])] == [Check([i])] && [Check([i])] + [read] == [Check([i]), read];
    assert [Check([i]), read] + [CheckVerify] == events;
  }

  /** A peer connects and asks for bytes of a piece we have; the answer is read from storage in one go. */
  lemma AskOne(tor: Torrent, store: Bytes, before: seq<Event>, index: nat, begin: nat, length: nat)
      returns (events: seq<Event>)
    requires tor.pieceLength > 0 && tor.At(index) + begin + length <= |store|
    requires var w := Run(tor, Initial(store), before);
             index in w.shared.tracker.have && w.shared.store == store && w.sessions == map[]
    ensures var w := Run(tor, Initial(store), events);
            var from := tor.At(index) + begin;
            Live(w, 0) && w.sessions[0].phase == Uploading(index, begin, store[from..from + length])
  {
    var w := Initial(store);
    hide Run, Step, Slice;
    events := before + [Connect(0, Addr([], 0))];
    RunSnoc(tor, w, before, Connect(0, Addr([], 0)));
    RunSnoc(tor, w, events, Sent(0, 0));
    events := events + [Sent(0, 0)];
    RunSnoc(tor, w, events, Event.Message(0, Request(index, begin, length), true, 0));
    events := events + [Event.Message(0, Request(index, begin, length), true, 0)];
    RequestComesIn(tor, Run(tor, w, before), index, begin, length);
    ReadGoesOut(tor, Run(tor, w, events), index, begin, length);
    RunSnoc(tor, w, events, Transfer(0, length));
    events := events + [Transfer(0, length)];
    RunSnoc(tor, w, events, Stored(0));
    events := events + [Stored(0)];
  }

  lemma RequestComesIn(tor: Torrent, w: Swarm, index: nat, begin: nat, length: nat)
    requires tor.pieceLength > 0 && index in w.shared.tracker.have && w.sessions == map[]
    ensures var w1 := Step(tor, w, Connect(0, Addr([], 0)));
            var w2 := Step(tor, w1, Sent(0, 0));
            var w3 := Step(tor, w2, Event.Message(0, Request(index, begin, length), true, 0));
            Live(w3, 0) && w3.shared == w.shared && w3.sessions[0].phase == Serving(index, begin, length, [])
  {
    hide OnPiece, StartNext, Advance, OnAnnouncement;
  }

  lemma ReadGoesOut(tor: Torrent, w: Swarm, index: nat, begin: nat, length: nat)
    requires tor.pieceLength > 0 && Live(w, 0) && w.sessions[0].phase == Serving(index, begin, length, [])
    requires tor.At(index) + begin + length <= |w.shared.store|
    ensures var from := tor.At(index) + begin;
            var w' := Step(tor, Step(tor, w, Transfer(0, length)), Stored(0));
            Live(w', 0) && w'.sessions[0].phase == Uploading(index, begin, w.shared.store[from..from + length])
  {
    hide Overwrite;
    var from := tor.At(index) + begin;
    assert [] + w.shared.store[from..from + length] == w.shared.store[from..from + length];
    assert Slice(w.shared.store, from, from + length) == w.shared.store[from..from + length];
  }

  /** Byte j of every answer to a request at `begin` of piece `index` is original, in every run. */
  ghost predicate AlwaysGenuine(tor: Torrent, index: nat, begin: nat, j: nat)
    requires tor.pieceLength > 0
  {
    forall store: Bytes, events: seq<Event>, sid: nat, block: Bytes ::
      |store| == |tor.content| && Live(Run(tor, Initial(store), events), sid) && j < |block|
      && Run(tor, Initial(store), events).sessions[sid].phase == Uploading(index, begin, block)
      ==> Original(tor, tor.At(index) + begin + j, block[j])
  }

  /**
   * A request is not checked against the end of its piece.  A byte of an answer is guaranteed to be
   * original if and only if it lies inside the requested piece; past it, unverified storage is served.
   */
  lemma GenuineIffInsidePiece(tor: Torrent, index: nat, begin: nat, j: nat)
    requires tor.Valid() && index < tor.Count() && tor.At(index) + begin + j < |tor.content|
    ensures AlwaysGenuine(tor, index, begin, j) <==> begin + j < tor.Length(index)
  {
    if begin + j < tor.Length(index) {
      forall store: Bytes, events: seq<Event>, sid: nat, block: Bytes |
        |store| == |tor.content| && Live(Run(tor, Initial(store), events), sid) && j < |block|
        && Run(tor, Initial(store), events).sessions[sid].phase == Uploading(index, begin, block)
        ensures Original(tor, tor.At(index) + begin + j, block[j])
      {
        UploadsAreGenuine(tor, store, events, sid, j);
      }
    } else {
      var k := tor.At(index) + begin + j;
      var store := tor.content[k := if tor.content[k] == 0 then 1 else 0];
      InRangeIffOffset(tor.pieceLength, |tor.content|, index);
      assert Holds(tor, store, index);
      var checked := CheckOne(tor, store, index);
      var events := AskOne(tor, store, checked, index, begin, j + 1);
      var from := tor.At(index) + begin;
      assert store[from..from + (j + 1)][j] == store[k];
      assert !Original(tor, k, store[from..from + (j + 1)][j]);
    }
  }
}
