/** How a torrent's flat content is cut into pieces, and the tracker of what was downloaded. */
module Pieces {
  import opened Bytes

  // ----- geometry ---------------------------------------------------------------------------

  datatype PieceSpec = PieceSpec(index: nat, offset: nat, length: nat, hash: Bytes)

  function PieceCount(pieceLength: nat, total: nat): nat
    requires pieceLength > 0
  {
    total / pieceLength + if total % pieceLength != 0 then 1 else 0
  }

  function Offset(pieceLength: nat, i: nat): nat {
    i * pieceLength
  }

  /** The i-th piece's place, length and expected digest. */
  function SpecAt(pieceLength: nat, total: nat, raw: Bytes, i: nat): PieceSpec
    requires Offset(pieceLength, i) <= total
  {
    PieceSpec(i, Offset(pieceLength, i), Min(pieceLength, total - Offset(pieceLength, i)),
              Slice(raw, i * 20, (i + 1) * 20))
  }

  lemma NextOffset(pieceLength: nat, i: nat)
    ensures Offset(pieceLength, i + 1) == Offset(pieceLength, i) + pieceLength
  {}

  lemma {:induction false} OffsetsAscend(pieceLength: nat, i: nat, j: nat)
    requires i < j
    ensures Offset(pieceLength, i) + pieceLength <= Offset(pieceLength, j)
    decreases j
  {
    NextOffset(pieceLength, j - 1);
    if i < j - 1 { OffsetsAscend(pieceLength, i, j - 1); }
  }

  /** The pieces are exactly those indices whose offset lies inside the content. */
  lemma InRangeIffOffset(pieceLength: nat, total: nat, i: nat)
    requires pieceLength > 0
    ensures i < PieceCount(pieceLength, total) <==> Offset(pieceLength, i) < total
  {
    var q, r := total / pieceLength, total % pieceLength;
    assert total == Offset(pieceLength, q) + r;
    if i < q {
      OffsetsAscend(pieceLength, i, q);
    } else if i > q {
      OffsetsAscend(pieceLength, q, i);
    }
  }

  /** Every byte of the content lies in exactly one piece. */
  lemma PieceOfByte(pieceLength: nat, total: nat, k: nat) returns (i: nat)
    requires pieceLength > 0 && k < total
    ensures i < PieceCount(pieceLength, total)
    ensures Offset(pieceLength, i) <= k < Offset(pieceLength, i) + Min(pieceLength, total - Offset(pieceLength, i))
    ensures forall j :: Offset(pieceLength, j) <= k < Offset(pieceLength, j) + pieceLength ==> j == i
  {
    i := k / pieceLength;
    assert k == Offset(pieceLength, i) + k % pieceLength;
    InRangeIffOffset(pieceLength, total, i);
    forall j: nat | Offset(pieceLength, j) <= k < Offset(pieceLength, j) + pieceLength ensures j == i {
      if j < i { OffsetsAscend(pieceLength, j, i); }
      if i < j { OffsetsAscend(pieceLength, i, j); }
    }
  }

  /** The i-th piece of the content. */
  function PieceContent(content: Bytes, pieceLength: nat, i: nat): Bytes
    requires Offset(pieceLength, i) <= |content|
  {
    content[Offset(pieceLength, i)..Offset(pieceLength, i) + Min(pieceLength, |content| - Offset(pieceLength, i))]
  }

  // ----- the tracker's state as a value -------------------------------------------------------

  datatype Tracker = Tracker(have: set<nat>, pending: set<nat>, failed: set<nat>, availability: map<nat, nat>) {
    predicate Candidate(i: nat) { i !in have && i !in pending }

    function Available(i: nat): nat { if i in availability then availability[i] else 0 }

    /** `is_complete`: as many verified pieces as there are pieces. */
    predicate Complete(n: nat) { |have| == n }

    function MarkHave(i: nat): Tracker { Tracker(have + {i}, pending - {i}, failed - {i}, availability) }

    function MarkPending(i: nat): Tracker { this.(pending := pending + {i}) }

    function MarkFailed(i: nat): Tracker { this.(pending := pending - {i}, failed := failed + {i}) }

    function Announce(pieces: set<nat>): Tracker {
      this.(availability := map i | i in availability.Keys + pieces :: Available(i) + if i in pieces then 1 else 0)
    }

    function Withdraw(pieces: set<nat>): Tracker {
      this.(availability := map i | i in availability.Keys && !(i in pieces && Available(i) <= 1)
                              :: if i in pieces then Available(i) - 1 else Available(i))
    }

    /** The one-pass minimum over the first n indices. */
    function Rarest(n: nat): Option<nat> {
      if n == 0 then None
      else
        var best := Rarest(n - 1);
        if !Candidate(n - 1) then best
        else if best.None? || Available(n - 1) < Available(best.value) then Some(n - 1)
        else best
    }

    /** i is at least as rare as j, ties broken by index. */
    predicate NoCommoner(i: nat, j: nat) {
      Available(i) < Available(j) || (Available(i) == Available(j) && i <= j)
    }
  }

  const EMPTY_TRACKER := Tracker({}, {}, {}, map[])

  /** Rarest-first is complete, and picks the least candidate by (availability, index). */
  lemma {:induction false} RarestIsLeast(t: Tracker, n: nat)
    ensures t.Rarest(n).None? <==> forall i :: 0 <= i < n ==> !t.Candidate(i)
    ensures t.Rarest(n).Some? ==>
              var r := t.Rarest(n).value;
              r < n && t.Candidate(r) && forall i :: 0 <= i < n && t.Candidate(i) ==> t.NoCommoner(r, i)
  {
    if n > 0 { RarestIsLeast(t, n - 1); }
  }

  // ----- the sorting selection ----------------------------------------------------------------

  /** One step of a stable sort by availability: x goes before the first entry that is not rarer. */
  function Insert(t: Tracker, x: nat, sorted: seq<nat>): seq<nat> {
    if sorted == [] || t.Available(x) <= t.Available(sorted[0]) then [x] + sorted
    else [sorted[0]] + Insert(t, x, sorted[1..])
  }

  /** `candidates.sort(key=availability)`. */
  function StableSort(t: Tracker, xs: seq<nat>): seq<nat> {
    if xs == [] then [] else Insert(t, xs[0], StableSort(t, xs[1..]))
  }

  predicate Ordered(t: Tracker, xs: seq<nat>) {
    forall i, j :: 0 <= i < j < |xs| ==> t.NoCommoner(xs[i], xs[j])
  }

  predicate Ascends(xs: seq<nat>) {
    forall i, j :: 0 <= i < j < |xs| ==> xs[i] < xs[j]
  }

  lemma {:induction false} InsertOrdered(t: Tracker, x: nat, sorted: seq<nat>)
    requires Ordered(t, sorted) && forall y :: y in sorted ==> x < y
    ensures Ordered(t, Insert(t, x, sorted))
    ensures sorted != [] ==> Insert(t, x, sorted)[0] in [x, sorted[0]]
    ensures multiset(Insert(t, x, sorted)) == multiset{x} + multiset(sorted)
    ensures forall y :: y in Insert(t, x, sorted) <==> y == x || y in sorted
  {
    if sorted != [] && t.Available(sorted[0]) < t.Available(x) {
      var head, tail := sorted[0], sorted[1..];
      assert sorted == [head] + tail;
      forall y | y in tail ensures x < y { assert y in sorted; }
      InsertOrdered(t, x, tail);
      OrderedCons(t, head, Insert(t, x, tail));
    } else {
      assert sorted != [] ==> sorted[0] in sorted;
      OrderedCons(t, x, sorted);
    }
  }

  lemma OrderedCons(t: Tracker, x: nat, xs: seq<nat>)
    requires Ordered(t, xs) && (xs != [] ==> t.NoCommoner(x, xs[0]))
    ensures Ordered(t, [x] + xs)
  {
    var all := [x] + xs;
    forall i, j | 0 <= i < j < |all| ensures t.NoCommoner(all[i], all[j]) {
      if i == 0 {
        if j > 1 { assert t.NoCommoner(xs[0], xs[j - 1]); }
      } else {
        assert t.NoCommoner(xs[i - 1], xs[j - 1]);
      }
    }
  }

  /** StableSort is a stable sort: a permutation, in order of availability, ties left in place. */
  lemma {:induction false} StableSortOrders(t: Tracker, xs: seq<nat>)
    requires Ascends(xs)
    ensures Ordered(t, StableSort(t, xs))
    ensures multiset(StableSort(t, xs)) == multiset(xs)
    ensures forall y :: y in StableSort(t, xs) <==> y in xs
  {
    if xs != [] {
      assert xs == [xs[0]] + xs[1..];
      StableSortOrders(t, xs[1..]);
      InsertOrdered(t, xs[0], StableSort(t, xs[1..]));
    }
  }

  // ----- the tracker ----------------------------------------------------------------------------

  class PieceTracker {
    const pieceLength: nat
    const totalLength: nat
    const piecesRaw: Bytes
    const pieceCount: nat
    const specs: seq<PieceSpec>
    var have: set<nat>
    var pending: set<nat>
    var failed: set<nat>
    var availability: map<nat, nat>

    ghost predicate Valid() {
      && pieceLength > 0
      && pieceCount == PieceCount(pieceLength, totalLength) == |specs|
      && forall i :: 0 <= i < |specs| ==>
           Offset(pieceLength, i) < totalLength && specs[i] == SpecAt(pieceLength, totalLength, piecesRaw, i)
    }

    function State(): Tracker
      reads this
    {
      Tracker(have, pending, failed, availability)
    }

    constructor (pieceLength: nat, totalLength: nat, piecesRaw: Bytes)
      requires pieceLength > 0
      ensures Valid() && State() == EMPTY_TRACKER
      ensures this.pieceLength == pieceLength && this.totalLength == totalLength && this.piecesRaw == piecesRaw
    {
      this.pieceLength, this.totalLength, this.piecesRaw := pieceLength, totalLength, piecesRaw;
      var count := PieceCount(pieceLength, totalLength);
      this.pieceCount := count;
      var built := BuildSpecs(pieceLength, totalLength, piecesRaw, count);
      specs := built;
      have, pending, failed, availability := {}, {}, {}, map[];
    }

    static method BuildSpecs(pieceLength: nat, total: nat, raw: Bytes, count: nat) returns (specs: seq<PieceSpec>)
      requires pieceLength > 0 && count == PieceCount(pieceLength, total)
      ensures |specs| == count
      ensures forall i :: 0 <= i < count ==>
                Offset(pieceLength, i) < total && specs[i] == SpecAt(pieceLength, total, raw, i)
    {
      specs := [];
      var offset := 0;
      for i := 0 to count
        invariant |specs| == i && offset == Min(Offset(pieceLength, i), total)
        invariant forall k :: 0 <= k < i ==>
                    Offset(pieceLength, k) < total && specs[k] == SpecAt(pieceLength, total, raw, k)
      {
        InRangeIffOffset(pieceLength, total, i);
        NextOffset(pieceLength, i);
        var length := Min(pieceLength, total - offset);
        specs := specs + [PieceSpec(i, offset, length, Slice(raw, i * 20, (i + 1) * 20))];
        offset := offset + length;
      }
    }

    method MarkHave(i: nat)
      modifies this
      ensures State() == old(State()).MarkHave(i)
    {
      have, pending, failed := have + {i}, pending - {i}, failed - {i};
    }

    method MarkPending(i: nat)
      modifies this
      ensures State() == old(State()).MarkPending(i)
    {
      pending := pending + {i};
    }

    method MarkFailed(i: nat)
      modifies this
      ensures State() == old(State()).MarkFailed(i)
    {
      pending, failed := pending - {i}, failed + {i};
    }

    method UpdateAvailability(pieces: set<nat>)
      modifies this
      ensures State() == old(State()).Announce(pieces)
    {
      var rest := pieces;
      while rest != {}
        invariant rest <= pieces && unchanged(`have) && unchanged(`pending) && unchanged(`failed)
        invariant State() == old(State()).Announce(pieces - rest)
        decreases rest
      {
        var i :| i in rest;
        availability := availability[i := (if i in availability then availability[i] else 0) + 1];
        rest := rest - {i};
      }
      assert pieces - {} == pieces;
    }

    method RemoveAvailability(pieces: set<nat>)
      modifies this
      ensures State() == old(State()).Withdraw(pieces)
    {
      var rest := pieces;
      while rest != {}
        invariant rest <= pieces && unchanged(`have) && unchanged(`pending) && unchanged(`failed)
        invariant State() == old(State()).Withdraw(pieces - rest)
        decreases rest
      {
        var i :| i in rest;
        var count := if i in availability then availability[i] else 0;
        if count <= 1 {
          availability := availability - {i};
        } else {
          availability := availability[i := count - 1];
        }
        rest := rest - {i};
      }
      assert pieces - {} == pieces;
    }

    /** `select_piece` in piece.py: list the candidates, sort them stably by availability, take the head. */
    method SelectPiece() returns (r: Option<nat>)
      ensures r == State().Rarest(pieceCount)
    {
      var candidates: seq<nat> := [];
      for i := 0 to pieceCount
        invariant Ascends(candidates)
        invariant forall k: nat :: k in candidates <==> k < i && State().Candidate(k)
      {
        assert forall j :: 0 <= j < |candidates| ==> candidates[j] in candidates;
        if i !in have && i !in pending { candidates := candidates + [i]; }
      }
      RarestIsLeast(State(), pieceCount);
      if candidates == [] { return None; }
      ghost var best := State().Rarest(pieceCount);
      assert candidates[0] in candidates;
      StableSortOrders(State(), candidates);
      candidates := StableSort(State(), candidates);
      assert best.value in candidates && candidates[0] in candidates;
      return Some(candidates[0]);
    }

    /** `select_piece` in piece.pyx: one pass that keeps the rarest candidate so far. */
    method SelectPieceOnePass() returns (r: Option<nat>)
      ensures r == State().Rarest(pieceCount)
    {
      var bestAvail, bestIdx: int := 0, -1;
      for i := 0 to pieceCount
        invariant -1 <= bestIdx
        invariant State().Rarest(i) == if bestIdx == -1 then None else Some(bestIdx)
        invariant bestIdx != -1 ==> bestAvail == State().Available(bestIdx)
      {
        if i !in have && i !in pending {
          var avail := if i in availability then availability[i] else 0;
          if bestIdx == -1 || avail < bestAvail {
            bestAvail, bestIdx := avail, i;
          }
        }
      }
      return if bestIdx == -1 then None else Some(bestIdx);
    }
  }
}
