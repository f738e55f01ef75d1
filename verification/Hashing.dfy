/** Creating the piece hashes of a torrent, and finding its pieces again in a storage. */
module Hashing {
  import opened Bytes
  import opened Pieces
  import opened Swarm
  import opened Selection
  import opened Engine

  /** The files as one continuous byte stream. */
  function Concat(files: seq<Bytes>): Bytes {
    if files == [] then [] else files[0] + Concat(files[1..])
  }

  /** The digests of the consecutive pieces of `content`, the last one possibly shorter. */
  function Digests(content: Bytes, pieceLength: nat, sha1: Bytes -> Bytes): Bytes
    requires pieceLength > 0
    decreases |content|
  {
    if content == [] then []
    else
      var n := Min(pieceLength, |content|);
      sha1(content[..n]) + Digests(content[n..], pieceLength, sha1)
  }

  /** What is still to be hashed: the bytes in the hasher, the rest of this file, the other files. */
  function ToHash(hashed: Bytes, file: Bytes, pos: nat, others: seq<Bytes>): Bytes
    requires pos <= |file|
  {
    hashed + (file[pos..] + Concat(others))
  }

  lemma ReadChunk(hashed: Bytes, file: Bytes, pos: nat, n: nat, others: seq<Bytes>)
    requires pos + n <= |file|
    ensures ToHash(hashed + file[pos..pos + n], file, pos + n, others) == ToHash(hashed, file, pos, others)
  {
    hide Concat;
    assert file[pos..] == file[pos..pos + n] + file[pos + n..];
    var a, b, c, d := hashed, file[pos..pos + n], file[pos + n..], Concat(others);
    assert a + b + (c + d) == a + ((b + c) + d);
  }

  lemma FullPiece(hashed: Bytes, rest: Bytes, pieceLength: nat, sha1: Bytes -> Bytes)
    requires pieceLength > 0 && |hashed| == pieceLength
    ensures Digests(hashed + rest, pieceLength, sha1) == sha1(hashed) + Digests(rest, pieceLength, sha1)
  {
    assert (hashed + rest)[..pieceLength] == hashed && (hashed + rest)[pieceLength..] == rest;
  }

  /** One file: read chunk by chunk, never past the end of the piece being hashed. */
  method HashFile(file: Bytes, pieceLength: nat, sha1: Bytes -> Bytes, pieces: Bytes, hasher: Bytes,
                  ghost others: seq<Bytes>)
      returns (pieces': Bytes, hasher': Bytes)
    requires pieceLength > 0 && |hasher| < pieceLength
    ensures |hasher'| < pieceLength
    ensures pieces + Digests(hasher + (file + Concat(others)), pieceLength, sha1)
         == pieces' + Digests(hasher' + Concat(others), pieceLength, sha1)
  {
    hide Digests, Concat;
    pieces', hasher' := pieces, hasher;
    var pos := 0;
    assert file[0..] == file;
    while pos < |file|
      invariant pos <= |file| && |hasher'| < pieceLength
      invariant pieces' + Digests(ToHash(hasher', file, pos, others), pieceLength, sha1)
             == pieces + Digests(hasher + (file + Concat(others)), pieceLength, sha1)
    {
      // `f.read(remaining)`: some bytes, at most as many as the piece still lacks.
      var n: nat :| 1 <= n <= pieceLength - |hasher'| && n <= |file| - pos;
      ReadChunk(hasher', file, pos, n, others);
      hasher', pos := hasher' + file[pos..pos + n], pos + n;
      if |hasher'| == pieceLength {
        ghost var rest := file[pos..] + Concat(others);
        FullPiece(hasher', rest, pieceLength, sha1);
        Assoc(pieces', sha1(hasher'), Digests(rest, pieceLength, sha1));
        assert [] + rest == rest;
        pieces', hasher' := pieces' + sha1(hasher'), [];
      }
    }
    assert file[|file|..] + Concat(others) == Concat(others);
  }

  lemma LastPiece(hashed: Bytes, pieceLength: nat, sha1: Bytes -> Bytes)
    requires pieceLength > 0 && |hashed| < pieceLength
    ensures Digests(hashed, pieceLength, sha1) == if hashed == [] then [] else sha1(hashed)
  {
    if hashed != [] {
      assert hashed[..|hashed|] == hashed && hashed[|hashed|..] == [];
      assert sha1(hashed) + [] == sha1(hashed);
    }
  }

  /** `_hash_pieces`: whatever the chunks, the digests of the pieces of the concatenated files. */
  method HashPieces(files: seq<Bytes>, pieceLength: nat, sha1: Bytes -> Bytes) returns (raw: Bytes)
    requires pieceLength > 0
    ensures raw == Digests(Concat(files), pieceLength, sha1)
  {
    hide Digests;
    var hasher: Bytes := [];
    raw := [];
    Nothing(Digests(Concat(files), pieceLength, sha1));
    Nothing(Concat(files));
    assert files[0..] == files;
    for i := 0 to |files|
      invariant |hasher| < pieceLength
      invariant raw + Digests(hasher + Concat(files[i..]), pieceLength, sha1)
             == Digests(Concat(files), pieceLength, sha1)
    {
      assert files[i..][0] == files[i] && files[i..][1..] == files[i + 1..];
      raw, hasher := HashFile(files[i], pieceLength, sha1, raw, hasher, files[i + 1..]);
    }
    assert files[|files|..] == [] && hasher + [] == hasher;
    LastPiece(hasher, pieceLength, sha1);
    if |hasher| > 0 { raw := raw + sha1(hasher); } else { assert raw + [] == raw; }
  }

  lemma Nothing(b: Bytes)
    ensures [] + b == b
  {}

  // ----- the digests are the tracker's specifications -------------------------------------------------

  lemma {:induction false} DigestCount(content: Bytes, pieceLength: nat, sha1: Bytes -> Bytes)
    requires pieceLength > 0 && forall x: Bytes :: |sha1(x)| == 20
    ensures |Digests(content, pieceLength, sha1)| == 20 * PieceCount(pieceLength, |content|)
    decreases |content|
  {
    if content != [] {
      var n := Min(pieceLength, |content|);
      DigestCount(content[n..], pieceLength, sha1);
      CountStep(pieceLength, |content|);
    }
  }

  lemma CountStep(pieceLength: nat, total: nat)
    requires pieceLength > 0 && total > 0
    ensures PieceCount(pieceLength, total) == 1 + PieceCount(pieceLength, total - Min(pieceLength, total))
  {
    var a, b := PieceCount(pieceLength, total), PieceCount(pieceLength, total - Min(pieceLength, total));
    InRangeIffOffset(pieceLength, total, b);
    InRangeIffOffset(pieceLength, total, b + 1);
    NextOffset(pieceLength, b);
    InRangeIffOffset(pieceLength, total - Min(pieceLength, total), b);
    InRangeIffOffset(pieceLength, total, 0);
    if b > 0 {
      InRangeIffOffset(pieceLength, total - Min(pieceLength, total), b - 1);
      NextOffset(pieceLength, b - 1);
    }
  }

  /** Digest i is that of piece i. */
  lemma {:induction false} DigestAt(content: Bytes, pieceLength: nat, sha1: Bytes -> Bytes, i: nat)
    requires pieceLength > 0 && Offset(pieceLength, i) < |content| && forall x: Bytes :: |sha1(x)| == 20
    ensures Slice(Digests(content, pieceLength, sha1), i * 20, (i + 1) * 20)
         == sha1(PieceContent(content, pieceLength, i))
    decreases i
  {
    var n := Min(pieceLength, |content|);
    var head, tail := sha1(content[..n]), Digests(content[n..], pieceLength, sha1);
    assert |head| == 20;
    if i == 0 {
      assert PieceContent(content, pieceLength, 0) == content[..n];
    } else {
      NextOffset(pieceLength, i - 1);
      DigestAt(content[n..], pieceLength, sha1, i - 1);
      PieceOfTail(content, pieceLength, i);
      assert Slice(head + tail, i * 20, (i + 1) * 20) == Slice(tail, (i - 1) * 20, i * 20);
    }
  }

  lemma PieceOfTail(content: Bytes, pieceLength: nat, i: nat)
    requires pieceLength > 0 && i > 0 && Offset(pieceLength, i) < |content|
    ensures Offset(pieceLength, i - 1) + pieceLength == Offset(pieceLength, i)
    ensures PieceContent(content[pieceLength..], pieceLength, i - 1) == PieceContent(content, pieceLength, i)
  {
    NextOffset(pieceLength, i - 1);
    var a, n := Offset(pieceLength, i), Min(pieceLength, |content| - Offset(pieceLength, i));
    hide Offset;
    assert content[pieceLength..][a - pieceLength..a - pieceLength + n] == content[a..a + n];
  }

  /** A tracker built from a created torrent expects exactly the digests of the pieces of its content. */
  lemma TrackerDescribes(session: TorrentSession, tor: Torrent)
    requires tor.pieceLength > 0 && (forall x: Bytes :: |tor.sha1(x)| == 20)
    requires session.tracker.Valid() && session.sha1 == tor.sha1
    requires session.tracker.pieceLength == tor.pieceLength && session.tracker.totalLength == |tor.content|
    requires session.tracker.piecesRaw == Digests(tor.content, tor.pieceLength, tor.sha1)
    ensures session.Describes(tor)
    ensures |session.tracker.piecesRaw| == 20 * session.tracker.pieceCount
  {
    DigestCount(tor.content, tor.pieceLength, tor.sha1);
    forall i | 0 <= i < session.tracker.pieceCount
      ensures session.tracker.specs[i].hash == tor.sha1(tor.Piece(i))
    {
      InRangeIffOffset(tor.pieceLength, |tor.content|, i);
      DigestAt(tor.content, tor.pieceLength, tor.sha1, i);
    }
  }

  // ----- the resume check -----------------------------------------------------------------------------

  /** The stored region of piece i has the piece's digest. */
  ghost predicate Verifies(tor: Torrent, store: Bytes, i: nat) {
    var data := Slice(store, tor.At(i), tor.At(i) + tor.Length(i));
    |data| == tor.Length(i) && tor.sha1(data) == tor.sha1(tor.Piece(i))
  }

  /** What `check_resume` looks at: the resumed pieces, or all of them when there are none. */
  function ToCheck(resumed: set<nat>, n: nat): set<nat> {
    if resumed != {} then resumed else UpTo(n)
  }

  ghost function Found(tor: Torrent, store: Bytes, todo: set<nat>): set<nat>
    requires tor.pieceLength > 0
  {
    set i | i in todo && i < tor.Count() && Verifies(tor, store, i)
  }

  /** The tracker after mark_have for each of `found`. */
  function MarkAll(t: Tracker, found: set<nat>): Tracker {
    Tracker(t.have + found, t.pending - found, t.failed - found, t.availability)
  }

  lemma MarkAllStep(t: Tracker, found: set<nat>, i: nat)
    ensures MarkAll(t, found).MarkHave(i) == MarkAll(t, found + {i}) && MarkAll(t, {}) == t
  {}

  /** Read one piece back and compare its digest. */
  method CheckPiece(session: TorrentSession, i: nat, ghost tor: Torrent) returns (ok: bool)
    requires session.Describes(tor)
    ensures ok <==> i < tor.Count() && Verifies(tor, session.store, i)
  {
    if i >= session.tracker.pieceCount { return false; }
    SpecOf(session, tor, i);
    var spec := session.tracker.specs[i];
    var data := Slice(session.store, spec.offset, spec.offset + spec.length);
    return |data| == spec.length && session.sha1(data) == spec.hash;
  }

  /** `check_resume`, with nobody else writing meanwhile: marks exactly the pieces that verify. */
  method CheckResume(session: TorrentSession, resumed: set<nat>, ghost tor: Torrent)
    requires session.Describes(tor)
    modifies session.tracker
    ensures session.tracker.State()
         == MarkAll(old(session.tracker.State()), Found(tor, session.store, ToCheck(resumed, tor.Count())))
  {
    hide Found, Verifies, MarkAll;
    var tracker := session.tracker;
    var todo := ToCheck(resumed, tracker.pieceCount);
    ghost var was := tracker.State();
    var rest := todo;
    NothingFound(tor, session.store);
    assert todo - todo == {};
    MarkAllStep(was, {}, 0);
    while rest != {}
      invariant rest <= todo && tracker.State() == MarkAll(was, Found(tor, session.store, todo - rest))
      decreases rest
    {
      var i :| i in rest;
      var ok := CheckPiece(session, i, tor);
      FoundStep(tor, session.store, todo, rest, i);
      MarkAllStep(was, Found(tor, session.store, todo - rest), i);
      if ok { tracker.MarkHave(i); } else { PlusNothing(Found(tor, session.store, todo - rest)); }
      rest := rest - {i};
    }
    assert todo - {} == todo;
  }

  lemma PlusNothing(s: set<nat>)
    ensures s + {} == s
  {}

  lemma NothingFound(tor: Torrent, store: Bytes)
    requires tor.pieceLength > 0
    ensures Found(tor, store, {}) == {}
  {}

  lemma FoundStep(tor: Torrent, store: Bytes, todo: set<nat>, rest: set<nat>, i: nat)
    requires tor.pieceLength > 0 && i in rest && rest <= todo
    ensures Found(tor, store, todo - (rest - {i}))
         == Found(tor, store, todo - rest) + if i < tor.Count() && Verifies(tor, store, i) then {i} else {}
  {}

  /** Over the original files a full scan finds every piece, so the torrent is complete. */
  lemma FullScanFindsAll(tor: Torrent, t: Tracker)
    requires tor.Valid() && t.have == Found(tor, tor.content, ToCheck({}, tor.Count()))
    ensures t.have == UpTo(tor.Count()) && t.Complete(tor.Count())
  {
    UpToMembers(tor.Count());
    forall i: nat | i < tor.Count() ensures Verifies(tor, tor.content, i) {
      InRangeIffOffset(tor.pieceLength, |tor.content|, i);
    }
  }
}
