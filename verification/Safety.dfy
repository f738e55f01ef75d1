/** Invariants of the swarm over all runs, and the theorems they give. */
module Safety {
  import opened Bytes
  import opened Wire
  import opened Pieces
  import opened Assembly
  import opened Swarm
  import opened Selection
  import Bitfields

  // ----- the storage ----------------------------------------------------------------------------

  /** Byte k of the storage is byte k of the original content. */
  ghost predicate Correct(tor: Torrent, store: Bytes, k: nat) {
    k < |store| && k < |tor.content| && store[k] == tor.content[k]
  }

  /** The storage region of piece i equals the original piece. */
  ghost predicate Holds(tor: Torrent, store: Bytes, i: nat) {
    forall k :: tor.At(i) <= k < tor.At(i) + tor.Length(i) ==> Correct(tor, store, k)
  }

  /** `data` is what the original content has at `offset`. */
  ghost predicate Genuine(tor: Torrent, offset: nat, data: Bytes) {
    offset + |data| <= |tor.content| && forall j :: 0 <= j < |data| ==> data[j] == tor.content[offset + j]
  }

  lemma GenuineSlice(tor: Torrent, offset: nat, data: Bytes, a: nat, b: nat)
    requires Genuine(tor, offset, data) && a <= b <= |data|
    ensures Slice(data, a, b) == data[a..b] && Genuine(tor, offset + a, Slice(data, a, b))
  {
    forall j | 0 <= j < b - a ensures data[a..b][j] == tor.content[offset + a + j] {
      assert data[a + j] == tor.content[offset + (a + j)];
    }
  }

  lemma PieceIsGenuine(tor: Torrent, i: nat)
    requires tor.At(i) <= |tor.content|
    ensures |tor.Piece(i)| == tor.Length(i) && Genuine(tor, tor.At(i), tor.Piece(i))
  {}

  /** Genuine data can be written anywhere at any time: correct bytes stay correct. */
  lemma OverwriteGenuine(tor: Torrent, store: Bytes, offset: nat, data: Bytes)
    requires |store| == |tor.content| && Genuine(tor, offset, data)
    ensures var r := Overwrite(store, offset, data);
            && |r| == |store|
            && (forall k :: Correct(tor, store, k) ==> Correct(tor, r, k))
            && (forall k :: offset <= k < offset + |data| ==> Correct(tor, r, k))
  {
    var r := Overwrite(store, offset, data);
    if data != [] {
      assert |r| == |store|;
      forall k | 0 <= k < |store|
        ensures r[k] == if offset <= k < offset + |data| then data[k - offset] else store[k]
      {}
      forall k | offset <= k < offset + |data| ensures Correct(tor, r, k) {
        assert data[k - offset] == tor.content[offset + (k - offset)];
      }
    }
  }

  // ----- invariants -----------------------------------------------------------------------------

  ghost predicate SharedInv(tor: Torrent, sh: Shared)
    requires tor.pieceLength > 0
  {
    && |sh.store| == |tor.content|
    && TrackerInv(sh.tracker, tor.Count())
    && EndgameInv(sh.endgame, sh.tracker, tor.Count())
    && (forall i :: i in sh.tracker.have ==> Holds(tor, sh.store, i))
    && (forall w :: w in sh.late ==> Genuine(tor, w.offset, w.data))
    && (sh.done ==> sh.tracker.Complete(tor.Count()))
  }

  /** Bytes read to answer a request, as far as they lie in the requested piece, are the original ones. */
  ghost predicate ServesGenuine(tor: Torrent, index: nat, begin: nat, got: Bytes) {
    forall j :: 0 <= j < |got| && begin + j < tor.Length(index) ==> Original(tor, tor.At(index) + begin + j, got[j])
  }

  /** Byte k of the original content is b. */
  ghost predicate Original(tor: Torrent, k: nat, b: byte) {
    k < |tor.content| && tor.content[k] == b
  }

  ghost predicate SessionInv(tor: Torrent, sh: Shared, s: Session)
    requires tor.pieceLength > 0
  {
    && (s.current.Some? ==> s.current.value < tor.Count())
    && match s.phase
       case Requesting(offset) => s.current.Some? && offset < tor.Length(s.current.value)
       case Writing(data, written) =>
         s.current.Some? && data == tor.Piece(s.current.value) && written <= |data| &&
         forall k :: tor.At(s.current.value) <= k < tor.At(s.current.value) + written ==> Correct(tor, sh.store, k)
       case Announcing | Cancelling => s.current.Some? && s.current.value in sh.tracker.have
       case Serving(index, begin, _, got) => index in sh.tracker.have && ServesGenuine(tor, index, begin, got)
       case Uploading(index, begin, block) => index in sh.tracker.have && ServesGenuine(tor, index, begin, block)
       case _ => true
  }

  /** What other sessions may rely on while this one runs. */
  ghost predicate Progress(tor: Torrent, sh: Shared, sh': Shared)
    requires tor.pieceLength > 0
  {
    && sh.tracker.have <= sh'.tracker.have
    && (forall k :: Correct(tor, sh.store, k) ==> Correct(tor, sh'.store, k))
    && (sh.endgame.active && !sh'.endgame.active ==> sh'.tracker.Complete(tor.Count()))
  }

  lemma SessionInvStable(tor: Torrent, sh: Shared, sh': Shared, s: Session)
    requires tor.pieceLength > 0 && SessionInv(tor, sh, s) && Progress(tor, sh, sh')
    ensures SessionInv(tor, sh', s)
  {}

  /** What every step of a session guarantees. */
  ghost predicate Sound(tor: Torrent, sh: Shared, s: Session, o: Outcome)
    requires tor.pieceLength > 0
  {
    && SharedInv(tor, o.shared) && SessionInv(tor, o.shared, o.session) && Progress(tor, sh, o.shared)
    && o.session.addr == s.addr
    && forall i, a :: a in o.shared.endgame.Requesters(i) ==> a in sh.endgame.Requesters(i) || a == s.addr
  }

  lemma StoreImproved(tor: Torrent, sh: Shared, store: Bytes)
    requires tor.Valid() && SharedInv(tor, sh) && |store| == |tor.content|
    requires forall k :: Correct(tor, sh.store, k) ==> Correct(tor, store, k)
    ensures SharedInv(tor, sh.(store := store)) && Progress(tor, sh, sh.(store := store))
  {}

  // ----- each step --------------------------------------------------------------------------------

  lemma StartNextSound(tor: Torrent, sh: Shared, s: Session, pick: nat)
    requires tor.Valid() && SharedInv(tor, sh)
    ensures Sound(tor, sh, s, StartNext(tor, sh, s, pick))
  {
    StartPieceEffect(sh.tracker, sh.endgame, tor.Count(), s.peerPieces, s.addr, pick);
    var piece := StartNext(tor, sh, s, pick).session.current;
    if piece.Some? { InRangeIffOffset(tor.pieceLength, |tor.content|, piece.value); }
  }

  lemma AdvanceSound(tor: Torrent, sh: Shared, s: Session, pick: nat)
    requires tor.Valid() && SharedInv(tor, sh)
    ensures Sound(tor, sh, s, Advance(tor, sh, s, pick))
  {
    var s' := s.(current := None, blocks := map[]);
    StartNextSound(tor, sh, s', pick);
  }

  lemma MarkFailedSound(tor: Torrent, sh: Shared, i: nat)
    requires tor.Valid() && SharedInv(tor, sh)
    ensures var sh' := sh.(tracker := sh.tracker.MarkFailed(i)); SharedInv(tor, sh') && Progress(tor, sh, sh')
  {
    assert Missing(sh.tracker.MarkFailed(i), tor.Count()) == Missing(sh.tracker, tor.Count());
  }

  lemma SoundAfter(tor: Torrent, sh: Shared, sh': Shared, s: Session, o: Outcome)
    requires tor.pieceLength > 0 && Progress(tor, sh, sh') && Sound(tor, sh', s, o)
    requires sh'.endgame == sh.endgame && sh.tracker.have <= sh'.tracker.have
    ensures Sound(tor, sh, s, o)
  {}

  lemma MessageSound(tor: Torrent, sh: Shared, s: Session, m: Wire.Message, unchoked: bool, pick: nat)
    requires tor.Valid() && SharedInv(tor, sh) && SessionInv(tor, sh, s) && s.phase.Receiving?
    ensures Sound(tor, sh, s, OnMessage(tor, sh, s, m, unchoked, pick))
  {
    hide OnAnnouncement, OnChoke, OnUnchoke, OnPiece, Sound, SharedInv, SessionInv, Bitfields.ToSet;
    match m
    case Bitfield(data) =>
      var news := Bitfields.ToSet(data, tor.Count());
      AnnouncementSound(tor, sh, s, news, news, false);
    case Have(index) => AnnouncementSound(tor, sh, s, {index}, s.peerPieces + {index}, s.amInterested);
    case Choke => ChokeSound(tor, sh, s);
    case Unchoke => UnchokeSound(tor, sh, s, pick);
    case Request(index, begin, length) =>
      IdleSound(tor, sh, s);
      if index in sh.tracker.have { ServingSound(tor, sh, s, index, begin, length); }
    case Piece(index, begin, block) =>
      IdleSound(tor, sh, s);
      if s.current == Some(index) { PieceSound(tor, sh, s, begin, block, pick); }
    case _ => IdleSound(tor, sh, s);
  }

  lemma IdleSound(tor: Torrent, sh: Shared, s: Session)
    requires tor.Valid() && SharedInv(tor, sh) && SessionInv(tor, sh, s)
    ensures Sound(tor, sh, s, Outcome(sh, s))
  {}

  lemma ServingSound(tor: Torrent, sh: Shared, s: Session, index: nat, begin: nat, length: nat)
    requires tor.Valid() && SharedInv(tor, sh) && SessionInv(tor, sh, s) && index in sh.tracker.have
    ensures Sound(tor, sh, s, Outcome(sh, s.(phase := Serving(index, begin, length, []))))
  {}

  lemma AnnouncementSound(tor: Torrent, sh: Shared, s: Session, news: set<nat>, all: set<nat>, known: bool)
    requires tor.Valid() && SharedInv(tor, sh) && SessionInv(tor, sh, s)
    ensures Sound(tor, sh, s, OnAnnouncement(tor, sh, s, news, all, known))
  {
    assert Missing(sh.tracker.Announce(news), tor.Count()) == Missing(sh.tracker, tor.Count());
  }

  lemma ChokeSound(tor: Torrent, sh: Shared, s: Session)
    requires tor.Valid() && SharedInv(tor, sh) && SessionInv(tor, sh, s) && s.phase.Receiving?
    ensures Sound(tor, sh, s, OnChoke(sh, s))
  {
    if s.current.Some? { MarkFailedSound(tor, sh, s.current.value); }
  }

  lemma UnchokeSound(tor: Torrent, sh: Shared, s: Session, pick: nat)
    requires tor.Valid() && SharedInv(tor, sh) && SessionInv(tor, sh, s) && s.phase.Receiving?
    ensures Sound(tor, sh, s, OnUnchoke(tor, sh, s, pick))
  {
    hide StartNext;
    StartNextSound(tor, sh, s.(peerChoking := false), pick);
  }

  /** Only data with the piece's digest is written, and such data is the piece, however it was assembled. */
  lemma PieceSound(tor: Torrent, sh: Shared, s: Session, begin: nat, block: Bytes, pick: nat)
    requires tor.Valid() && SharedInv(tor, sh) && SessionInv(tor, sh, s) && s.phase.Receiving? && s.current.Some?
    ensures Sound(tor, sh, s, OnPiece(tor, sh, s, begin, block, pick))
  {
    var i := s.current.value;
    var s' := s.(blocks := s.blocks[begin := block]);
    InRangeIffOffset(tor.pieceLength, |tor.content|, i);
    if Assembly.Complete(s'.blocks, tor.Length(i)) {
      var assembled := Assemble(s'.blocks, tor.Length(i));
      if tor.sha1(assembled) == tor.sha1(tor.Piece(i)) {
        assert assembled == tor.Piece(i);
      } else {
        var sh' := sh.(tracker := sh.tracker.MarkFailed(i));
        MarkFailedSound(tor, sh, i);
        AdvanceSound(tor, sh', s', pick);
        SoundAfter(tor, sh, sh', s', Advance(tor, sh', s', pick));
      }
    }
  }

  lemma EndgameDoneSound(tor: Torrent, sh: Shared, i: nat)
    requires tor.Valid() && SharedInv(tor, sh) && sh.endgame.active && i in sh.tracker.have
    ensures var sh' := sh.(endgame := sh.endgame.Done(i));
            && SharedInv(tor, sh') && Progress(tor, sh, sh')
            && forall j, a :: a in sh'.endgame.Requesters(j) ==> a in sh.endgame.Requesters(j)
  {
    var e' := sh.endgame.Done(i);
    assert Missing(sh.tracker, tor.Count()) <= e'.pieces;
    CompleteIffNoneMissing(sh.tracker, tor.Count());
  }

  lemma SentSound(tor: Torrent, sh: Shared, s: Session, pick: nat)
    requires tor.Valid() && SharedInv(tor, sh) && SessionInv(tor, sh, s)
    ensures Sound(tor, sh, s, OnSent(tor, sh, s, pick))
  {
    if s.phase.Announcing? && sh.endgame.active && s.current.value in sh.endgame.requests {
      EndgameDoneSound(tor, sh, s.current.value);
    } else if s.phase.Announcing? || s.phase.Cancelling? {
      AdvanceSound(tor, sh, s, pick);
    }
  }

  lemma TransferSound(tor: Torrent, sh: Shared, s: Session, k: nat)
    requires tor.Valid() && SharedInv(tor, sh) && SessionInv(tor, sh, s)
    ensures Sound(tor, sh, s, OnTransfer(tor, sh, s, k))
  {
    match s.phase
    case Writing(data, written) =>
      WriteSound(tor, sh, s, data, written, k);
    case Serving(index, begin, length, got) =>
      ReadGenuine(tor, sh, index, begin, got, Min(k, Subtract(length, |got|)));
    case _ =>
  }

  lemma ChunkIsGenuine(tor: Torrent, i: nat, written: nat, next: nat)
    requires tor.Valid() && i < tor.Count() && written <= next <= |tor.Piece(i)|
    ensures var chunk := Slice(tor.Piece(i), written, next);
            |chunk| == next - written && Genuine(tor, tor.At(i) + written, chunk)
  {
    InRangeIffOffset(tor.pieceLength, |tor.content|, i);
    PieceIsGenuine(tor, i);
    GenuineSlice(tor, tor.At(i), tor.Piece(i), written, next);
  }

  lemma WriteSound(tor: Torrent, sh: Shared, s: Session, data: Bytes, written: nat, k: nat)
    requires tor.Valid() && SharedInv(tor, sh) && SessionInv(tor, sh, s) && s.phase == Writing(data, written)
    ensures Sound(tor, sh, s, OnTransfer(tor, sh, s, k))
  {
    hide Overwrite, Slice, Genuine, SharedInv, SessionInv, Progress, Correct, PieceContent, PieceCount;
    WritingFacts(tor, sh, s);
    var i, next := s.current.value, Min(written + k, |data|);
    ChunkIsGenuine(tor, i, written, next);
    var store := Overwrite(sh.store, tor.At(i) + written, Slice(data, written, next));
    OverwriteGenuine(tor, sh.store, tor.At(i) + written, Slice(data, written, next));
    StoreImproved(tor, sh, store);
    WrittenSession(tor, sh, s, store, written, next);
  }

  lemma WritingFacts(tor: Torrent, sh: Shared, s: Session)
    requires tor.pieceLength > 0 && SharedInv(tor, sh) && SessionInv(tor, sh, s) && s.phase.Writing?
    ensures |sh.store| == |tor.content| && s.current.Some? && s.current.value < tor.Count()
    ensures s.phase.data == tor.Piece(s.current.value) && s.phase.written <= |s.phase.data|
  {}

  lemma WrittenSession(tor: Torrent, sh: Shared, s: Session, store: Bytes, written: nat, next: nat)
    requires tor.pieceLength > 0 && SessionInv(tor, sh, s) && s.phase.Writing? && s.phase.written == written
    requires written <= next <= |s.phase.data|
    requires forall k :: Correct(tor, sh.store, k) ==> Correct(tor, store, k)
    requires var at := tor.At(s.current.value); forall k :: at + written <= k < at + next ==> Correct(tor, store, k)
    ensures SessionInv(tor, sh.(store := store), s.(phase := Writing(s.phase.data, next)))
  {}

  lemma ReadGenuine(tor: Torrent, sh: Shared, index: nat, begin: nat, got: Bytes, n: nat)
    requires tor.Valid() && SharedInv(tor, sh) && index in sh.tracker.have && ServesGenuine(tor, index, begin, got)
    ensures var from := tor.At(index) + begin + |got|;
            ServesGenuine(tor, index, begin, got + Slice(sh.store, from, from + n))
  {
    var from := tor.At(index) + begin + |got|;
    var more := Slice(sh.store, from, from + n);
    InRangeIffOffset(tor.pieceLength, |tor.content|, index);
    assert Holds(tor, sh.store, index);
    hide SharedInv, TrackerInv, EndgameInv, PieceCount;
    ConcatGenuine(tor, sh.store, index, begin, got, more);
  }

  lemma ConcatGenuine(tor: Torrent, store: Bytes, index: nat, begin: nat, got: Bytes, more: Bytes)
    requires ServesGenuine(tor, index, begin, got) && Holds(tor, store, index)
    requires var from := tor.At(index) + begin + |got|;
             more == [] || (from + |more| <= |store| && more == store[from..from + |more|])
    ensures ServesGenuine(tor, index, begin, got + more)
  {
    var all, base := got + more, tor.At(index) + begin;
    forall j | 0 <= j < |all| && begin + j < tor.Length(index) ensures Original(tor, base + j, all[j]) {
      if j < |got| {
        assert Original(tor, base + j, got[j]) && all[j] == got[j];
      } else {
        assert Correct(tor, store, base + j);
        assert all[j] == more[j - |got|] == store[base + j];
      }
    }
  }

  lemma MarkHaveSound(tor: Torrent, sh: Shared, i: nat)
    requires tor.Valid() && SharedInv(tor, sh) && i < tor.Count() && Holds(tor, sh.store, i)
    ensures var sh' := sh.(tracker := sh.tracker.MarkHave(i)); SharedInv(tor, sh') && Progress(tor, sh, sh')
  {
    var n, t' := tor.Count(), sh.tracker.MarkHave(i);
    assert Missing(t', n) <= Missing(sh.tracker, n);
    CompleteIffNoneMissing(sh.tracker, n);
    CompleteIffNoneMissing(t', n);
  }

  lemma StoredSound(tor: Torrent, sh: Shared, s: Session)
    requires tor.Valid() && SharedInv(tor, sh) && SessionInv(tor, sh, s)
    ensures Sound(tor, sh, s, OnStored(tor, sh, s))
  {
    if s.phase.Writing? && s.phase.written == |s.phase.data| {
      InRangeIffOffset(tor.pieceLength, |tor.content|, s.current.value);
      PieceIsGenuine(tor, s.current.value);
      MarkHaveSound(tor, sh, s.current.value);
    }
  }

  lemma DropSound(tor: Torrent, sh: Shared, s: Session)
    requires tor.Valid() && SharedInv(tor, sh) && SessionInv(tor, sh, s)
    ensures Sound(tor, sh, s, OnDrop(tor, sh, s))
    ensures forall i :: s.addr !in OnDrop(tor, sh, s).shared.endgame.Requesters(i)
  {
    hide PieceCount, Slice;
    var t := if s.current.Some? then sh.tracker.MarkFailed(s.current.value) else sh.tracker;
    assert Missing(t.Withdraw(s.peerPieces), tor.Count()) == Missing(sh.tracker, tor.Count());
    if s.phase.Writing? { LateWriteGenuine(tor, s.current.value, s.phase.written); }
  }

  lemma LateWriteGenuine(tor: Torrent, i: nat, written: nat)
    requires tor.Valid() && i < tor.Count() && written <= |tor.Piece(i)|
    ensures Genuine(tor, tor.At(i) + written, Slice(tor.Piece(i), written, |tor.Piece(i)|))
  {
    InRangeIffOffset(tor.pieceLength, |tor.content|, i);
    PieceIsGenuine(tor, i);
    GenuineSlice(tor, tor.At(i), tor.Piece(i), written, |tor.Piece(i)|);
  }

  // ----- availability --------------------------------------------------------------------------------

  /** The live sessions whose peer is known to have piece i. */
  ghost function Holders(w: Swarm, i: nat): set<nat> {
    set sid | sid in w.sessions && Live(w, sid) && i in w.sessions[sid].peerPieces
  }

  function One(b: bool): nat { if b then 1 else 0 }

  lemma HoldersPut(w: Swarm, sid: nat, o: Outcome, i: nat)
    requires Live(w, sid)
    ensures |Holders(Put(w, sid, o), i)| + One(i in w.sessions[sid].peerPieces)
         == |Holders(w, i)| + One(!o.session.phase.Ended? && i in o.session.peerPieces)
  {
    hide Holders, Put, Live;
    OthersHold(w, sid, o, i);
    SetWithout(Holders(w, i), sid);
    SetWithout(Holders(Put(w, sid, o), i), sid);
  }

  lemma OthersHold(w: Swarm, sid: nat, o: Outcome, i: nat)
    requires Live(w, sid)
    ensures Holders(Put(w, sid, o), i) - {sid} == Holders(w, i) - {sid}
    ensures sid in Holders(w, i) <==> i in w.sessions[sid].peerPieces
    ensures sid in Holders(Put(w, sid, o), i) <==> !o.session.phase.Ended? && i in o.session.peerPieces
  {
    var w' := Put(w, sid, o);
    forall x ensures x in Holders(w', i) - {sid} <==> x in Holders(w, i) - {sid} {
      if x in w.sessions && x != sid { assert w'.sessions[x] == w.sessions[x]; }
    }
  }

  lemma SetWithout(s: set<nat>, x: nat)
    ensures |s| == |s - {x}| + One(x in s)
  {
    if x in s { assert s == (s - {x}) + {x}; }
  }

  /** Every count is the number of live holders plus the number of repeated announcements. */
  ghost predicate AvailabilityInv(w: Swarm) {
    && (forall i :: w.shared.tracker.Available(i) == |Holders(w, i)| + w.stale[i])
    && forall i :: i in w.shared.tracker.availability ==> w.shared.tracker.availability[i] > 0
  }

  /** How a step of one session moves the counts, what the peer holds and the repeats, per piece. */
  ghost predicate Balanced(sh: Shared, s: Session, o: Outcome, repeats: multiset<nat>) {
    && (forall i :: o.shared.tracker.Available(i) + One(i in s.peerPieces)
                 == sh.tracker.Available(i) + One(!o.session.phase.Ended? && i in o.session.peerPieces) + repeats[i])
    && forall i :: i in o.shared.tracker.availability ==> o.shared.tracker.availability[i] > 0
  }

  lemma BalancedKeepsAvailability(w: Swarm, sid: nat, o: Outcome, repeats: multiset<nat>)
    requires AvailabilityInv(w) && Live(w, sid) && Balanced(w.shared, w.sessions[sid], o, repeats)
    ensures AvailabilityInv(Put(w, sid, o).(stale := w.stale + repeats))
  {
    var w' := Put(w, sid, o).(stale := w.stale + repeats);
    forall i ensures w'.shared.tracker.Available(i) == |Holders(w', i)| + w'.stale[i] {
      HoldersPut(w, sid, o, i);
      assert Holders(w', i) == Holders(Put(w, sid, o), i);
    }
  }

  /** Steps other than an announcement or the end of a session leave the counts and the peer's pieces alone. */
  ghost predicate Untouched(sh: Shared, s: Session, o: Outcome) {
    && o.shared.tracker.availability == sh.tracker.availability
    && o.session.peerPieces == s.peerPieces && !o.session.phase.Ended?
  }

  lemma StartNextUntouched(tor: Torrent, sh: Shared, s: Session, pick: nat)
    requires tor.pieceLength > 0
    ensures Untouched(sh, s, StartNext(tor, sh, s, pick))
  {
    SkipStopsAtRarestHeld(sh.tracker, tor.Count(), s.peerPieces);
  }

  lemma AdvanceUntouched(tor: Torrent, sh: Shared, s: Session, pick: nat)
    requires tor.pieceLength > 0
    ensures Untouched(sh, s, Advance(tor, sh, s, pick))
  {
    StartNextUntouched(tor, sh, s.(current := None, blocks := map[]), pick);
  }

  lemma AnnouncementBalanced(sh: Shared, s: Session, o: Outcome, news: set<nat>, repeats: multiset<nat>)
    requires o.shared.tracker.availability == sh.tracker.Announce(news).availability && !o.session.phase.Ended?
    requires forall i :: i in sh.tracker.availability ==> sh.tracker.availability[i] > 0
    requires forall i :: One(i in news) + One(i in s.peerPieces) == One(i in o.session.peerPieces) + repeats[i]
    ensures Balanced(sh, s, o, repeats)
  {
    forall i ensures o.shared.tracker.Available(i) == sh.tracker.Available(i) + One(i in news) {}
  }

  lemma MessageBalanced(tor: Torrent, sh: Shared, s: Session, m: Wire.Message, unchoked: bool, pick: nat)
    requires tor.pieceLength > 0 && s.phase.Receiving?
    requires forall i :: i in sh.tracker.availability ==> sh.tracker.availability[i] > 0
    ensures Balanced(sh, s, OnMessage(tor, sh, s, m, unchoked, pick), Repeats(s, m))
  {
    hide Balanced, Skip, StartPiece, Assemble, Assembly.Complete;
    var o := OnMessage(tor, sh, s, m, unchoked, pick);
    match m
    case Bitfield(data) =>
      AnnouncementBalanced(sh, s, o, Bitfields.ToSet(data, tor.Count()), Repeats(s, m));
    case Have(index) =>
      AnnouncementBalanced(sh, s, o, {index}, Repeats(s, m));
    case _ =>
      MessageUntouched(tor, sh, s, m, unchoked, pick);
      UntouchedBalances(sh, s, o);
  }

  lemma UntouchedBalances(sh: Shared, s: Session, o: Outcome)
    requires Untouched(sh, s, o)
    requires forall i :: i in sh.tracker.availability ==> sh.tracker.availability[i] > 0
    ensures Balanced(sh, s, o, multiset{})
  {}

  lemma MessageUntouched(tor: Torrent, sh: Shared, s: Session, m: Wire.Message, unchoked: bool, pick: nat)
    requires tor.pieceLength > 0 && s.phase.Receiving? && !m.Bitfield? && !m.Have?
    ensures Untouched(sh, s, OnMessage(tor, sh, s, m, unchoked, pick))
  {
    hide Skip, StartPiece, Assemble, Assembly.Complete;
    match m
    case Unchoke =>
      StartNextUntouched(tor, sh, s.(peerChoking := false), pick);
    case Piece(index, begin, block) =>
      if s.current.Some? {
        var s' := s.(blocks := s.blocks[begin := block]);
        AdvanceUntouched(tor, sh.(tracker := sh.tracker.MarkFailed(s.current.value)), s', pick);
      }
    case _ =>
  }

  lemma SentUntouched(tor: Torrent, sh: Shared, s: Session, pick: nat)
    requires tor.pieceLength > 0 && !s.phase.Ended?
    ensures Untouched(sh, s, OnSent(tor, sh, s, pick))
  {
    AdvanceUntouched(tor, sh, s, pick);
  }

  /** A live session's own announcements are counted, so withdrawing them subtracts exactly one each. */
  lemma DropBalanced(tor: Torrent, w: Swarm, sid: nat)
    requires tor.pieceLength > 0 && AvailabilityInv(w) && Live(w, sid)
    ensures Balanced(w.shared, w.sessions[sid], OnDrop(tor, w.shared, w.sessions[sid]), multiset{})
  {
    var s := w.sessions[sid];
    forall i | i in s.peerPieces ensures w.shared.tracker.Available(i) >= 1 {
      assert sid in Holders(w, i);
    }
  }

  // ----- the whole system ---------------------------------------------------------------------------

  /** Whatever the checker has read correctly is still correct in the storage. */
  ghost predicate CheckerInv(tor: Torrent, w: Swarm)
    requires tor.pieceLength > 0
  {
    w.checker.Checking? && w.checker.todo != [] && w.checker.todo[0] < tor.Count() ==>
      var i, got := w.checker.todo[0], w.checker.got;
      && |got| <= tor.Length(i)
      && forall j :: 0 <= j < |got| && got[j] == tor.content[tor.At(i) + j] ==>
           Correct(tor, w.shared.store, tor.At(i) + j)
  }

  ghost predicate LiveAddr(w: Swarm, a: Addr) {
    exists sid :: Live(w, sid) && w.sessions[sid].addr == a
  }

  ghost predicate Inv(tor: Torrent, w: Swarm)
    requires tor.pieceLength > 0
  {
    && SharedInv(tor, w.shared)
    && (forall sid :: Live(w, sid) ==> SessionInv(tor, w.shared, w.sessions[sid]))
    && (forall i, a :: a in w.shared.endgame.Requesters(i) ==> LiveAddr(w, a))
    && AvailabilityInv(w)
    && CheckerInv(tor, w)
  }
}
