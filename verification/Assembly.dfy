/** Requesting a piece in blocks and putting the blocks that arrive back together. */
module Assembly {
  import opened Bytes
  import opened Wire
  import opened Pieces

  const BLOCK_SIZE := 0x4000

  /** The blocks received so far, by their offset in the piece. */
  type Blocks = map<nat, Bytes>

  // ----- completeness -------------------------------------------------------------------------

  /** `sum(len(b) for b in blocks.values())`. */
  ghost function Received(blocks: Blocks): nat {
    if blocks == map[] then 0
    else
      var k :| k in blocks;
      |blocks[k]| + Received(blocks - {k})
  }

  /** The sum does not depend on the order in which the dictionary yields its values. */
  lemma {:induction false} ReceivedRemove(blocks: Blocks, k: nat)
    requires k in blocks
    ensures Received(blocks) == |blocks[k]| + Received(blocks - {k})
    decreases |blocks|
  {
    var first :| first in blocks && Received(blocks) == |blocks[first]| + Received(blocks - {first});
    if first != k {
      ReceivedRemove(blocks - {first}, k);
      ReceivedRemove(blocks - {k}, first);
      assert blocks - {first} - {k} == blocks - {k} - {first};
    }
  }

  /** `_piece_complete`. */
  ghost predicate Complete(blocks: Blocks, length: nat) {
    Received(blocks) >= length
  }

  method PieceComplete(blocks: Blocks, length: nat) returns (r: bool)
    ensures r == Complete(blocks, length)
  {
    var received, rest := 0, blocks;
    while rest != map[]
      invariant received + Received(rest) == Received(blocks)
      decreases |rest|
    {
      var k :| k in rest;
      ReceivedRemove(rest, k);
      received, rest := received + |rest[k]|, rest - {k};
    }
    return received >= length;
  }

  // ----- reassembly ---------------------------------------------------------------------------

  /** `buf[begin : begin + len(data)] = data` on a bytearray: a block that overruns makes it longer. */
  function Assign(buf: Bytes, begin: nat, data: Bytes): Bytes {
    buf[..Min(begin, |buf|)] + data + buf[Min(begin + |data|, |buf|)..]
  }

  /** The blocks named by `keys`, written over `buf` one after the other. */
  function Overlay(blocks: Blocks, keys: seq<nat>, buf: Bytes): Bytes
    requires forall k :: k in keys ==> k in blocks
  {
    if keys == [] then buf
    else
      var last := keys[|keys| - 1];
      Assign(Overlay(blocks, keys[..|keys| - 1], buf), last, blocks[last])
  }

  ghost predicate IsSorted(keys: seq<nat>, of: set<nat>) {
    Ascends(keys) && forall k :: k in keys <==> k in of
  }

  lemma SortedHead(keys: seq<nat>, of: set<nat>)
    requires IsSorted(keys, of) && keys != []
    ensures keys[0] in of && forall k :: k in of ==> keys[0] <= k
    ensures IsSorted(keys[1..], of - {keys[0]})
  {
    assert keys[0] in keys;
    forall k | k in of ensures k in keys && keys[0] <= k {
      var i :| 0 <= i < |keys| && keys[i] == k;
    }
    assert keys == [keys[0]] + keys[1..];
    assert keys[0] !in keys[1..];
  }

  lemma {:induction false} SortedIsUnique(a: seq<nat>, b: seq<nat>, of: set<nat>)
    requires IsSorted(a, of) && IsSorted(b, of)
    ensures a == b
    decreases |a|
  {
    if a != [] { SortedHead(a, of); }
    if b != [] { SortedHead(b, of); }
    if a != [] && b != [] {
      SortedIsUnique(a[1..], b[1..], of - {a[0]});
      assert a == [a[0]] + a[1..] && b == [b[0]] + b[1..];
    }
  }

  lemma {:induction false} SortedExists(of: set<nat>)
    ensures exists keys :: IsSorted(keys, of)
  {
    if of == {} {
      assert IsSorted([], of);
    } else {
      var k :| k in of;
      var max := Maximum(of);
      SortedExists(of - {max});
      var keys :| IsSorted(keys, of - {max});
      forall k | k in keys ensures k < max { assert k in of - {max}; }
      assert forall i :: 0 <= i < |keys| ==> keys[i] in keys;
      assert IsSorted(keys + [max], of);
    }
  }

  lemma {:induction false} Maximum(of: set<nat>) returns (max: nat)
    requires of != {}
    ensures max in of && forall k :: k in of ==> k <= max
  {
    var first :| first in of;
    var rest := of - {first};
    assert forall k :: k in of ==> k == first || k in rest;
    max := first;
    if rest != {} {
      var other := Maximum(rest);
      if other > first { max := other; }
    }
  }

  /** `sorted(keys)`. */
  ghost function Sorted(of: set<nat>): (keys: seq<nat>)
    ensures IsSorted(keys, of)
  {
    SortedExists(of);
    var keys :| IsSorted(keys, of);
    keys
  }

  /** `_assemble_piece`. */
  ghost function Assemble(blocks: Blocks, length: nat): Bytes {
    Overlay(blocks, Sorted(blocks.Keys), Zeros(length))
  }

  lemma InsertAt(keys: seq<nat>, i: nat, k: nat)
    requires i <= |keys| && Ascends(keys)
    requires (forall j :: 0 <= j < i ==> keys[j] < k) && (i < |keys| ==> k < keys[i])
    ensures Ascends(keys[..i] + [k] + keys[i..])
    ensures forall x :: x in keys[..i] + [k] + keys[i..] <==> x == k || x in keys
  {
    assert keys == keys[..i] + keys[i..];
  }

  method SortKeys(of: set<nat>) returns (keys: seq<nat>)
    ensures keys == Sorted(of)
  {
    keys := [];
    var rest := of;
    while rest != {}
      invariant rest <= of && IsSorted(keys, of - rest)
      decreases rest
    {
      var k :| k in rest;
      var i := 0;
      while i < |keys| && keys[i] < k
        invariant 0 <= i <= |keys| && forall j :: 0 <= j < i ==> keys[j] < k
      {
        i := i + 1;
      }
      assert keys == keys[..i] + keys[i..];
      assert forall j :: i <= j < |keys| ==> keys[j] in keys && keys[j] != k;
      InsertAt(keys, i, k);
      keys, rest := keys[..i] + [k] + keys[i..], rest - {k};
    }
    SortedIsUnique(keys, Sorted(of), of);
  }

  method AssemblePiece(blocks: Blocks, length: nat) returns (r: Bytes)
    ensures r == Assemble(blocks, length)
  {
    r := Zeros(length);
    var keys := SortKeys(blocks.Keys);
    for i := 0 to |keys|
      invariant r == Overlay(blocks, keys[..i], Zeros(length))
    {
      assert keys[i] in keys;
      assert keys[..i + 1][..i] == keys[..i];
      r := Assign(r, keys[i], blocks[keys[i]]);
    }
    assert keys[..|keys|] == keys;
  }

  // ----- requesting -----------------------------------------------------------------------------

  /** The requests `_request_piece_blocks` sends from `offset` on. */
  function Requests(index: nat, offset: nat, length: nat): seq<Message>
    decreases length - offset
  {
    if offset >= length then []
    else
      var n := Min(BLOCK_SIZE, length - offset);
      [Request(index, offset, n)] + Requests(index, offset + n, length)
  }

  /** The requests tile [0, length) in blocks of at most 16 KiB: the j-th one is the j-th tile. */
  lemma {:induction false} RequestsTile(index: nat, start: nat, length: nat, j: nat)
    requires start <= length && j < |Requests(index, start, length)|
    ensures var begin := start + j * BLOCK_SIZE;
            && begin < length
            && Requests(index, start, length)[j] == Request(index, begin, Min(BLOCK_SIZE, length - begin))
    ensures j + 1 == |Requests(index, start, length)| ==> length <= start + (j + 1) * BLOCK_SIZE
    decreases length - start
  {
    var n := Min(BLOCK_SIZE, length - start);
    if j > 0 { RequestsTile(index, start + n, length, j - 1); }
    else if |Requests(index, start, length)| > 1 { }
    else { assert Requests(index, start + n, length) == []; }
  }

  /** What an honest peer answers to the request at `begin`. */
  function Tile(piece: Bytes, begin: nat): Bytes
    requires begin < |piece|
  {
    piece[begin..begin + Min(BLOCK_SIZE, |piece| - begin)]
  }

  /** Every block held is an honest answer to one of the requests. */
  ghost predicate Honest(blocks: Blocks, piece: Bytes) {
    forall k :: k in blocks ==> k < |piece| && k % BLOCK_SIZE == 0 && blocks[k] == Tile(piece, k)
  }

  /** Every request before `bound` has been answered. */
  ghost predicate TilesBelow(blocks: Blocks, bound: nat) {
    forall k: nat :: k < bound && k % BLOCK_SIZE == 0 ==> k in blocks
  }

  function Below(blocks: Blocks, bound: nat): Blocks {
    map k | k in blocks && k < bound :: blocks[k]
  }

  lemma OneTilePerBlock(c: nat, k: nat)
    requires c * BLOCK_SIZE <= k < (c + 1) * BLOCK_SIZE && k % BLOCK_SIZE == 0
    ensures k == c * BLOCK_SIZE
  {}

  lemma NextTile(blocks: Blocks, c: nat, length: nat)
    requires c * BLOCK_SIZE < length
    ensures TilesBelow(blocks, Min((c + 1) * BLOCK_SIZE, length))
       <==> TilesBelow(blocks, c * BLOCK_SIZE) && c * BLOCK_SIZE in blocks
  {
    var begin := c * BLOCK_SIZE;
    assert begin % BLOCK_SIZE == 0;
    if TilesBelow(blocks, begin) && begin in blocks {
      forall k: nat | k < Min((c + 1) * BLOCK_SIZE, length) && k % BLOCK_SIZE == 0 ensures k in blocks {
        if k >= begin { OneTilePerBlock(c, k); }
      }
    }
  }

  lemma BelowNext(blocks: Blocks, piece: Bytes, c: nat)
    requires Honest(blocks, piece)
    ensures var begin, next := c * BLOCK_SIZE, (c + 1) * BLOCK_SIZE;
            Below(blocks, begin)
              == if begin in blocks then Below(blocks, next) - {begin} else Below(blocks, next)
  {
    forall k | k in blocks && c * BLOCK_SIZE <= k < (c + 1) * BLOCK_SIZE ensures k == c * BLOCK_SIZE {
      OneTilePerBlock(c, k);
    }
  }

  lemma {:induction false} ReceivedBelow(blocks: Blocks, piece: Bytes, c: nat)
    requires Honest(blocks, piece) && c * BLOCK_SIZE < |piece| + BLOCK_SIZE
    ensures Received(Below(blocks, c * BLOCK_SIZE)) <= Min(c * BLOCK_SIZE, |piece|)
    ensures Received(Below(blocks, c * BLOCK_SIZE)) == Min(c * BLOCK_SIZE, |piece|)
        <==> TilesBelow(blocks, Min(c * BLOCK_SIZE, |piece|))
  {
    hide TilesBelow, Honest, Below;
    if c == 0 {
      NothingBelowZero(blocks);
    } else {
      var begin := (c - 1) * BLOCK_SIZE;
      ReceivedBelow(blocks, piece, c - 1);
      BelowNext(blocks, piece, c - 1);
      NextTile(blocks, c - 1, |piece|);
      if begin in blocks {
        TileLength(blocks, piece, c - 1);
        ReceivedRemove(Below(blocks, c * BLOCK_SIZE), begin);
      }
    }
  }

  lemma NothingBelowZero(blocks: Blocks)
    ensures Received(Below(blocks, 0)) == 0 && TilesBelow(blocks, 0)
  {}

  lemma TileLength(blocks: Blocks, piece: Bytes, c: nat)
    requires Honest(blocks, piece) && c * BLOCK_SIZE in blocks
    ensures var begin, upper := c * BLOCK_SIZE, Below(blocks, (c + 1) * BLOCK_SIZE);
            begin < |piece| && begin in upper && |upper[begin]| == Min(BLOCK_SIZE, |piece| - begin)
  {}

  /** With an honest peer, in any order and with repeats: complete exactly when every tile is there. */
  lemma CompleteIffAllTiles(blocks: Blocks, piece: Bytes)
    requires Honest(blocks, piece)
    ensures Complete(blocks, |piece|) <==> TilesBelow(blocks, |piece|)
  {
    var c := (|piece| + BLOCK_SIZE - 1) / BLOCK_SIZE;
    ReceivedBelow(blocks, piece, c);
    assert Below(blocks, c * BLOCK_SIZE) == blocks;
  }

  /** Honest blocks reassemble to the piece where they have arrived and to zeros elsewhere. */
  lemma {:induction false} OverlayOfHonest(blocks: Blocks, keys: seq<nat>, piece: Bytes)
    requires Honest(blocks, piece) && forall k :: k in keys ==> k in blocks
    ensures var r := Overlay(blocks, keys, Zeros(|piece|));
            |r| == |piece| &&
            forall j :: 0 <= j < |piece| ==> r[j] == if j - j % BLOCK_SIZE in keys then piece[j] else 0
    decreases |keys|
  {
    if keys != [] {
      var init, last := keys[..|keys| - 1], keys[|keys| - 1];
      assert keys == init + [last];
      assert last in keys;
      OverlayOfHonest(blocks, init, piece);
      var before := Overlay(blocks, init, Zeros(|piece|));
      hide Overlay, Zeros;
      AssignTile(before, last, piece);
      forall j | 0 <= j < |piece|
        ensures Assign(before, last, Tile(piece, last))[j] == if j - j % BLOCK_SIZE in keys then piece[j] else 0
      {
        TileOfByte(last, j, |piece|);
      }
    }
  }

  lemma AssignTile(before: Bytes, begin: nat, piece: Bytes)
    requires |before| == |piece| && begin < |piece|
    ensures var r := Assign(before, begin, Tile(piece, begin));
            |r| == |piece| &&
            forall j :: 0 <= j < |piece| ==> r[j] == if begin <= j < begin + BLOCK_SIZE then piece[j] else before[j]
  {}

  lemma TileOfByte(begin: nat, j: nat, length: nat)
    requires begin % BLOCK_SIZE == 0 && j < length
    ensures begin <= j < begin + BLOCK_SIZE <==> j - j % BLOCK_SIZE == begin
  {}

  lemma AssembleOfHonest(blocks: Blocks, piece: Bytes)
    requires Honest(blocks, piece) && TilesBelow(blocks, |piece|)
    ensures Assemble(blocks, |piece|) == piece
  {
    OverlayOfHonest(blocks, Sorted(blocks.Keys), piece);
  }

  /** The blocks after a list of answers, each stored under its own offset. */
  function Store(answers: seq<(nat, Bytes)>): Blocks {
    if answers == [] then map[]
    else Store(answers[..|answers| - 1])[answers[|answers| - 1].0 := answers[|answers| - 1].1]
  }

  /**
   * Whatever the order and number of repeats in which an honest peer answers, the piece is declared
   * complete exactly when every requested tile is among the answers, and is then reassembled intact.
   */
  lemma {:induction false} HonestTransfer(answers: seq<(nat, Bytes)>, piece: Bytes)
    requires forall a :: a in answers ==> a.0 < |piece| && a.0 % BLOCK_SIZE == 0 && a.1 == Tile(piece, a.0)
    ensures Complete(Store(answers), |piece|)
       <==> forall k: nat :: k < |piece| && k % BLOCK_SIZE == 0 ==> (k, Tile(piece, k)) in answers
    ensures Complete(Store(answers), |piece|) ==> Assemble(Store(answers), |piece|) == piece
  {
    StoreOfHonest(answers, piece);
    CompleteIffAllTiles(Store(answers), piece);
    if Complete(Store(answers), |piece|) { AssembleOfHonest(Store(answers), piece); }
  }

  lemma {:induction false} StoreOfHonest(answers: seq<(nat, Bytes)>, piece: Bytes)
    requires forall a :: a in answers ==> a.0 < |piece| && a.0 % BLOCK_SIZE == 0 && a.1 == Tile(piece, a.0)
    ensures Honest(Store(answers), piece)
    ensures forall k: nat :: k < |piece| ==> (k in Store(answers) <==> (k, Tile(piece, k)) in answers)
  {
    if answers != [] {
      var init, last := answers[..|answers| - 1], answers[|answers| - 1];
      assert answers == init + [last];
      StoreOfHonest(init, piece);
    }
  }
}
