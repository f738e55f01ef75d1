/** Bitfields: the encoders and decoders of piece sets that the engine and the resume file use. */
module Bitfields {
  import opened Bytes

  /** `b & (1 << k) != 0`. */
  predicate BitAt(b: nat, k: nat) {
    if k == 0 then b % 2 == 1 else BitAt(b / 2, k - 1)
  }

  /** `b | (1 << k)`. */
  function SetAt(b: nat, k: nat): nat {
    if k == 0 then b + 1 - b % 2 else 2 * SetAt(b / 2, k - 1) + b % 2
  }

  lemma {:induction false} BitOfSetAt(b: nat, k: nat, m: nat)
    ensures BitAt(SetAt(b, k), m) <==> k == m || BitAt(b, m)
  {
    if k > 0 {
      assert SetAt(b, k) / 2 == SetAt(b / 2, k - 1);
      if m > 0 { BitOfSetAt(b / 2, k - 1, m - 1); }
    } else {
      assert SetAt(b, 0) / 2 == b / 2;
    }
  }

  lemma {:induction false} SetAtInRange(b: nat, k: nat, bits: nat)
    requires k < bits && b < Pow(2, bits)
    ensures SetAt(b, k) < Pow(2, bits)
  {
    var half := Pow(2, bits - 1);
    assert Pow(2, bits) == 2 * half;
    hide Pow;
    if k > 0 {
      assert b / 2 < half;
      SetAtInRange(b / 2, k - 1, bits - 1);
    }
  }

  lemma {:induction false} SameBits(a: nat, b: nat, bits: nat)
    requires a < Pow(2, bits) && b < Pow(2, bits)
    requires forall k :: 0 <= k < bits ==> (BitAt(a, k) <==> BitAt(b, k))
    ensures a == b
  {
    if bits > 0 {
      assert BitAt(a, 0) <==> BitAt(b, 0);
      forall k | 0 <= k < bits - 1 ensures BitAt(a / 2, k) <==> BitAt(b / 2, k) {
        assert BitAt(a, k + 1) <==> BitAt(b, k + 1);
      }
      SameBits(a / 2, b / 2, bits - 1);
    }
  }

  /** `Bitfield.has_piece`: bit i counts from the most significant bit of byte 0. */
  predicate HasPiece(data: Bytes, i: nat) {
    i / 8 < |data| && BitAt(data[i / 8], 7 - i % 8)
  }

  function NumBytes(n: nat): nat {
    (n + 7) / 8
  }

  /** `data` is the bitfield of `have` among n pieces: the right length, and exactly those bits set. */
  ghost predicate IsBitfieldOf(data: Bytes, have: set<nat>, n: nat) {
    |data| == NumBytes(n) && forall i: nat :: HasPiece(data, i) <==> i in have
  }

  lemma BitfieldIsUnique(a: Bytes, b: Bytes, have: set<nat>, n: nat)
    requires IsBitfieldOf(a, have, n) && IsBitfieldOf(b, have, n)
    ensures a == b
  {
    forall j | 0 <= j < |a| ensures a[j] == b[j] {
      forall k | 0 <= k < 8 ensures BitAt(a[j], k) <==> BitAt(b[j], k) {
        var i := 8 * j + 7 - k;
        assert i / 8 == j && 7 - i % 8 == k;
        assert HasPiece(a, i) <==> HasPiece(b, i);
      }
      assert Pow(2, 8) == 256;
      SameBits(a[j], b[j], 8);
    }
  }

  /** Among n pieces, those whose bit is set. */
  function ToSet(data: Bytes, n: nat): (r: set<nat>)
    ensures forall i: nat :: i in r <==> i < n && HasPiece(data, i)
  {
    set i: nat | i < n && HasPiece(data, i)
  }

  /** `build_bitfield` and `_have_to_bitfield`: set one bit per piece, in whatever order the set yields. */
  method Encode(have: set<nat>, n: nat) returns (data: Bytes)
    requires forall i :: i in have ==> i < n
    ensures IsBitfieldOf(data, have, n)
  {
    var buf := new byte[NumBytes(n)](_ => 0);
    var rest := have;
    forall i: nat | i / 8 < buf.Length ensures !BitAt(buf[i / 8], 7 - i % 8) { ZeroHasNoBits(7 - i % 8); }
    while rest != {}
      invariant rest <= have
      invariant forall i: nat :: i / 8 < buf.Length ==> (BitAt(buf[i / 8], 7 - i % 8) <==> i in have - rest)
      decreases rest
    {
      var idx :| idx in rest;
      assert Pow(2, 8) == 256;
      SetAtInRange(buf[idx / 8], 7 - idx % 8, 8);
      ghost var before := buf[..];
      buf[idx / 8] := SetAt(buf[idx / 8], 7 - idx % 8);
      forall i: nat | i / 8 < buf.Length
        ensures BitAt(buf[i / 8], 7 - i % 8) <==> i == idx || BitAt(before[i / 8], 7 - i % 8)
      {
        if i / 8 == idx / 8 { BitOfSetAt(before[i / 8], 7 - idx % 8, 7 - i % 8); }
      }
      rest := rest - {idx};
    }
    data := buf[..];
    forall i: nat ensures HasPiece(data, i) <==> i in have {}
  }

  lemma ZeroHasNoBits(k: nat)
    ensures !BitAt(0, k)
  {
    if k > 0 { ZeroHasNoBits(k - 1); }
  }

  /** `_bitfield_to_set`. */
  method DecodeMessage(data: Bytes, n: nat) returns (r: set<nat>)
    ensures r == ToSet(data, n)
  {
    r := {};
    for i := 0 to n
      invariant r == set k | 0 <= k < i && HasPiece(data, k)
    {
      if HasPiece(data, i) { r := r + {i}; }
    }
  }

  /** `_bitfield_to_have`: the resume file's own loop, with divmod in place of shifts. */
  method DecodeResume(data: Bytes, n: nat) returns (r: set<nat>)
    ensures r == ToSet(data, n)
  {
    r := {};
    for i := 0 to n
      invariant r == set k | 0 <= k < i && HasPiece(data, k)
    {
      var byteIdx, bitIdx := i / 8, i % 8;
      if byteIdx < |data| && BitAt(data[byteIdx], 7 - bitIdx) { r := r + {i}; }
    }
  }

  /** Both decoders recover from a bitfield exactly the pieces it was made of. */
  lemma DecodeOfEncode(data: Bytes, have: set<nat>, n: nat)
    requires IsBitfieldOf(data, have, n) && forall i :: i in have ==> i < n
    ensures ToSet(data, n) == have
  {
    forall i ensures i in ToSet(data, n) <==> i in have {
      if i in have { assert HasPiece(data, i); }
    }
  }
}
