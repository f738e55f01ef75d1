/** What `_start_piece` chooses, and what it leaves pending on the way. */
module Selection {
  import opened Bytes
  import opened Wire
  import opened Pieces
  import opened Swarm

  /** The tracker, and so the selection, knows only pieces of this torrent. */
  ghost predicate TrackerInv(t: Tracker, n: nat) {
    && (forall i :: i in t.have || i in t.pending ==> i < n)
    && t.have !! t.pending
  }

  ghost predicate EndgameInv(e: Endgame, t: Tracker, n: nat) {
    && (e.active <==> e.pieces != {})
    && (e.active ==> Missing(t, n) <= e.pieces)
    && forall i :: i in e.pieces ==> i < n
  }

  /** `is_complete` counts; for a tracker of n pieces the count is right. */
  lemma CompleteIffNoneMissing(t: Tracker, n: nat)
    requires forall i :: i in t.have ==> i < n
    ensures t.Complete(n) <==> Missing(t, n) == {}
  {
    UpToMembers(n);
    assert UpTo(n) == t.have + Missing(t, n);
    assert t.have !! Missing(t, n);
    assert |UpTo(n)| == |t.have| + |Missing(t, n)|;
  }

  /** i was passed over on the way to r: a candidate the peer lacks that ranks before r. */
  ghost predicate PassedOver(t: Tracker, n: nat, peerPieces: set<nat>, r: Option<nat>, i: nat) {
    i < n && t.Candidate(i) && i !in peerPieces && (r.None? || t.NoCommoner(i, r.value))
  }

  /**
   * The skipping loop stops at the rarest candidate the peer has, or at None if it has none, and
   * leaves pending exactly the candidates that rank before it.
   */
  lemma {:induction false} SkipStopsAtRarestHeld(t: Tracker, n: nat, peerPieces: set<nat>)
    ensures var t' := Skip(t, n, peerPieces);
            var r := t'.Rarest(n);
            && t'.have == t.have && t'.availability == t.availability
            && (forall i :: i in t'.pending <==> i in t.pending || PassedOver(t, n, peerPieces, r, i))
            && (r.None? <==> forall i :: 0 <= i < n && t.Candidate(i) ==> i !in peerPieces)
            && (r.Some? ==> r.value < n && t.Candidate(r.value) && r.value in peerPieces)
            && (r.Some? ==> forall i :: 0 <= i < n && t.Candidate(i) && i in peerPieces ==> t.NoCommoner(r.value, i))
    decreases |Candidates(t, n)|
  {
    var first := t.Rarest(n);
    RarestIsLeast(t, n);
    if first.Some? && first.value !in peerPieces {
      FewerCandidates(t, n, first.value);
      var t1 := t.MarkPending(first.value);
      var second := t1.Rarest(n);
      RarestIsLeast(t1, n);
      SameRanking(t, t1);
      assert forall i :: t.Candidate(i) && i != first.value ==> t1.Candidate(i);
      if second.Some? && second.value !in peerPieces {
        var t2 := t1.MarkFailed(second.value);
        assert Candidates(t2, n) == Candidates(t1, n);
        SkipStopsAtRarestHeld(t2, n, peerPieces);
        SameRanking(t, t2);
        assert forall i :: t.Candidate(i) && i != first.value ==> t2.Candidate(i);
      }
    }
  }

  lemma SameRanking(t: Tracker, t': Tracker)
    requires t'.availability == t.availability
    ensures forall i, j {:trigger t.NoCommoner(i, j)} {:trigger t'.NoCommoner(i, j)} ::
              t.NoCommoner(i, j) == t'.NoCommoner(i, j)
  {}

  /**
   * Selection is complete: with the session's endgame record, a session gets no piece exactly when its
   * peer holds none that is missing.  A piece it gets is missing and held by the peer; while the peer
   * holds a piece nobody is after, it is the rarest such piece.
   */
  lemma StartPieceComplete(t: Tracker, e: Endgame, n: nat, peerPieces: set<nat>, addr: Addr, pick: nat)
    requires TrackerInv(t, n) && EndgameInv(e, t, n)
    ensures var c := StartPiece(t, e, n, peerPieces, addr, pick);
            var free := Candidates(t, n) * peerPieces;
            && (c.piece.None? <==> Missing(t, n) * peerPieces == {})
            && (c.piece.Some? ==> c.piece.value in Missing(t, n) * peerPieces)
            && (free != {} ==> c.piece.Some? && c.piece.value in free
                               && forall i :: i in free ==> t.NoCommoner(c.piece.value, i))
  {
    SkipStopsAtRarestHeld(t, n, peerPieces);
    var t' := Skip(t, n, peerPieces);
    CompleteIffNoneMissing(t', n);
    assert Missing(t', n) == Missing(t, n);
    var c := StartPiece(t, e, n, peerPieces, addr, pick);
    if t'.Rarest(n).Some? {
      assert c.piece.value in Candidates(t, n) * peerPieces;
      assert c.piece.value in Missing(t, n) * peerPieces;
    } else {
      assert Candidates(t, n) * peerPieces == {};
      if !t'.Complete(n) {
        var e' := if e.active then e else e.Enter(Missing(t', n));
        assert Wanted(t', e', peerPieces) == Missing(t, n) * peerPieces;
      }
    }
  }

  /** What `_start_piece` does to the shared state. */
  lemma StartPieceEffect(t: Tracker, e: Endgame, n: nat, peerPieces: set<nat>, addr: Addr, pick: nat)
    requires TrackerInv(t, n) && EndgameInv(e, t, n)
    ensures var c := StartPiece(t, e, n, peerPieces, addr, pick);
            && TrackerInv(c.tracker, n) && EndgameInv(c.endgame, c.tracker, n)
            && c.tracker.have == t.have && c.tracker.availability == t.availability
            && (forall i :: i in t.pending ==> i in c.tracker.pending)
            && (e.active ==> c.endgame.active)
            && (forall i, a :: a in c.endgame.Requesters(i) ==> a in e.Requesters(i) || a == addr)
            && (c.piece.Some? ==> c.piece.value < n && c.piece.value !in t.have
                                  && addr in c.endgame.Requesters(c.piece.value))
            && (forall i, a :: a in e.Requesters(i) ==> a in c.endgame.Requesters(i))
  {
    SkipStopsAtRarestHeld(t, n, peerPieces);
    var t' := Skip(t, n, peerPieces);
    assert Missing(t', n) == Missing(t, n);
    RarestIsLeast(t', n);
    var c := StartPiece(t, e, n, peerPieces, addr, pick);
    assert Missing(c.tracker, n) == Missing(t, n);
  }
}
