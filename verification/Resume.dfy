/** Resume files: what is saved of a download's progress, and what is accepted when it is loaded again. */
module Resume {
  import opened Bytes
  import opened Bencode
  import BencodeCodec
  import Bitfields

  /** b"info_hash" */
  const K_INFO_HASH: Bytes := [105, 110, 102, 111, 95, 104, 97, 115, 104]
  /** b"bitfield" */
  const K_BITFIELD: Bytes := [98, 105, 116, 102, 105, 101, 108, 100]
  /** b"piece_count" */
  const K_PIECE_COUNT: Bytes := [112, 105, 101, 99, 101, 95, 99, 111, 117, 110, 116]
  /** b"downloaded" */
  const K_DOWNLOADED: Bytes := [100, 111, 119, 110, 108, 111, 97, 100, 101, 100]
  /** b"uploaded" */
  const K_UPLOADED: Bytes := [117, 112, 108, 111, 97, 100, 101, 100]

  datatype ResumeData = ResumeData(infoHash: Bytes, have: set<nat>, downloaded: int, uploaded: int)

  /** The payload of `save_resume`, given the bitfield it encodes. */
  ghost function Payload(infoHash: Bytes, bitfield: Bytes, pieceCount: nat, downloaded: int, uploaded: int): Bytes {
    Encode(Dict(map[
      K_INFO_HASH := Str(infoHash),
      K_BITFIELD := Str(bitfield),
      K_PIECE_COUNT := Int(pieceCount),
      K_DOWNLOADED := Int(downloaded),
      K_UPLOADED := Int(uploaded)]))
  }

  /** A counter that is informational only: anything but an int reads as zero. */
  function CounterOf(d: map<Bytes, Value>, key: Bytes): int {
    if key in d && d[key].Int? then d[key].n else 0
  }

  /** `load_resume` on the contents of the file; None for anything it does not accept. */
  function Load(data: Bytes, infoHash: Bytes): Option<ResumeData> {
    var raw := Decode(data);
    if raw.None? || !raw.value.Dict? then None
    else
      var d := raw.value.entries;
      if K_INFO_HASH !in d || d[K_INFO_HASH] != Str(infoHash) then None
      else if K_PIECE_COUNT !in d || !d[K_PIECE_COUNT].Int? || d[K_PIECE_COUNT].n <= 0 then None
      else if K_BITFIELD in d && !d[K_BITFIELD].Str? then None
      else
        var bitfield := if K_BITFIELD in d then d[K_BITFIELD].s else [];
        Some(ResumeData(infoHash, Bitfields.ToSet(bitfield, d[K_PIECE_COUNT].n),
                        CounterOf(d, K_DOWNLOADED), CounterOf(d, K_UPLOADED)))
  }

  /**
   * Loading what was saved gives the saved state back, for the same torrent and at least one piece;
   * otherwise nothing is loaded.
   */
  lemma LoadAfterSave(infoHash: Bytes, wanted: Bytes, have: set<nat>, bitfield: Bytes, n: nat,
                      downloaded: int, uploaded: int)
    requires Bitfields.IsBitfieldOf(bitfield, have, n) && forall i :: i in have ==> i < n
    ensures Load(Payload(infoHash, bitfield, n, downloaded, uploaded), wanted)
         == if wanted == infoHash && n > 0 then Some(ResumeData(infoHash, have, downloaded, uploaded)) else None
  {
    hide Encode, Decode, Bitfields.ToSet, Bitfields.IsBitfieldOf;
    var d := map[
      K_INFO_HASH := Str(infoHash),
      K_BITFIELD := Str(bitfield),
      K_PIECE_COUNT := Int(n),
      K_DOWNLOADED := Int(downloaded),
      K_UPLOADED := Int(uploaded)];
    DecodeEncode(Dict(d));
    Bitfields.DecodeOfEncode(bitfield, have, n);
  }

  /** Whatever the file contains, no piece index outside the torrent it claims to describe is loaded. */
  lemma LoadedIndicesInRange(data: Bytes, infoHash: Bytes)
    requires Load(data, infoHash).Some?
    ensures var count := Decode(data).value.entries[K_PIECE_COUNT].n;
            Load(data, infoHash).value.infoHash == infoHash
            && forall i :: i in Load(data, infoHash).value.have ==> i < count
  {}

  method Save(infoHash: Bytes, have: set<nat>, n: nat, downloaded: int, uploaded: int) returns (data: Bytes)
    requires forall i :: i in have ==> i < n
    ensures forall wanted: Bytes ::
              Load(data, wanted)
                == if wanted == infoHash && n > 0 then Some(ResumeData(infoHash, have, downloaded, uploaded)) else None
  {
    hide Load, Bitfields.IsBitfieldOf;
    var bitfield := Bitfields.Encode(have, n);
    data := BencodeCodec.EncodeValue(Dict(map[
      K_INFO_HASH := Str(infoHash),
      K_BITFIELD := Str(bitfield),
      K_PIECE_COUNT := Int(n),
      K_DOWNLOADED := Int(downloaded),
      K_UPLOADED := Int(uploaded)]));
    forall wanted: Bytes
      ensures Load(data, wanted)
           == if wanted == infoHash && n > 0 then Some(ResumeData(infoHash, have, downloaded, uploaded)) else None
    {
      LoadAfterSave(infoHash, wanted, have, bitfield, n, downloaded, uploaded);
    }
  }
}
