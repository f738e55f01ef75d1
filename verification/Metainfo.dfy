/** Torrent metadata: parsing a `.torrent` file and serialising its contents again (BEP 3, BEP 12, BEP 27). */
module Metainfo {
  import opened Bytes
  import opened Numerals
  import opened Bencode
  import BencodeCodec

  /** b"info" */
  const K_INFO: Bytes := [105, 110, 102, 111]
  /** b"name" */
  const K_NAME: Bytes := [110, 97, 109, 101]
  /** b"piece length" */
  const K_PIECE_LENGTH: Bytes := [112, 105, 101, 99, 101, 32, 108, 101, 110, 103, 116, 104]
  /** b"pieces" */
  const K_PIECES: Bytes := [112, 105, 101, 99, 101, 115]
  /** b"length" */
  const K_LENGTH: Bytes := [108, 101, 110, 103, 116, 104]
  /** b"files" */
  const K_FILES: Bytes := [102, 105, 108, 101, 115]
  /** b"path" */
  const K_PATH: Bytes := [112, 97, 116, 104]
  /** b"private" */
  const K_PRIVATE: Bytes := [112, 114, 105, 118, 97, 116, 101]
  /** b"announce" */
  const K_ANNOUNCE: Bytes := [97, 110, 110, 111, 117, 110, 99, 101]
  /** b"announce-list" */
  const K_ANNOUNCE_LIST: Bytes := [97, 110, 110, 111, 117, 110, 99, 101, 45, 108, 105, 115, 116]
  /** b"creation date" */
  const K_CREATION_DATE: Bytes := [99, 114, 101, 97, 116, 105, 111, 110, 32, 100, 97, 116, 101]
  /** b"comment" */
  const K_COMMENT: Bytes := [99, 111, 109, 109, 101, 110, 116]
  /** b"created by" */
  const K_CREATED_BY: Bytes := [99, 114, 101, 97, 116, 101, 100, 32, 98, 121]

  datatype FileEntry = FileEntry(path: seq<Bytes>, length: int)

  datatype TorrentInfo = TorrentInfo(
    name: Bytes,
    pieceLength: int,
    piecesRaw: Bytes,
    length: Option<int>,
    files: Option<seq<FileEntry>>,
    isPrivate: bool)

  datatype TorrentMeta = TorrentMeta(
    info: TorrentInfo,
    infoHash: Bytes,
    announce: Option<Bytes>,
    announceList: Option<seq<seq<Bytes>>>,
    creationDate: Option<int>,
    comment: Option<Bytes>,
    createdBy: Option<Bytes>)

  /** A parsed value, or a DecodeError. */
  datatype Result<+T> = Got(value: T) | Bad {
    predicate IsFailure() { Bad? }
    function PropagateFailure<U>(): Result<U>
      requires Bad?
    {
      Bad
    }
    function Extract(): T
      requires Got?
    {
      value
    }
  }

  type Entries = map<Bytes, Value>

  // ----- typed getters ----------------------------------------------------------------------------------

  function BytesOrNone(d: Entries, key: Bytes): Result<Option<Bytes>> {
    if key !in d then Got(None) else if d[key].Str? then Got(Some(d[key].s)) else Bad
  }

  function IntOrNone(d: Entries, key: Bytes): Result<Option<int>> {
    if key !in d then Got(None) else if d[key].Int? then Got(Some(d[key].n)) else Bad
  }

  function RequireBytes(d: Entries, key: Bytes): Result<Bytes> {
    if key in d && d[key].Str? then Got(d[key].s) else Bad
  }

  function RequireInt(d: Entries, key: Bytes): Result<int> {
    if key in d && d[key].Int? then Got(d[key].n) else Bad
  }

  // ----- parsing ------------------------------------------------------------------------------------------

  /** A list of byte strings. */
  function StrsOf(items: seq<Value>): Result<seq<Bytes>> {
    if items == [] then Got([])
    else
      var init :- StrsOf(items[..|items| - 1]);
      var last := items[|items| - 1];
      if last.Str? then Got(init + [last.s]) else Bad
  }

  function FileOf(item: Value): Result<FileEntry> {
    if !item.Dict? then Bad
    else
      var length :- RequireInt(item.entries, K_LENGTH);
      if K_PATH !in item.entries || !item.entries[K_PATH].List? then Bad
      else
        var path :- StrsOf(item.entries[K_PATH].items);
        Got(FileEntry(path, length))
  }

  /** `_parse_files`. */
  function FilesOf(items: seq<Value>): Result<seq<FileEntry>> {
    if items == [] then Got([])
    else
      var init :- FilesOf(items[..|items| - 1]);
      var last :- FileOf(items[|items| - 1]);
      Got(init + [last])
  }

  /** `_parse_announce_list`. */
  function TiersOf(items: seq<Value>): Result<seq<seq<Bytes>>> {
    if items == [] then Got([])
    else
      var init :- TiersOf(items[..|items| - 1]);
      var last := items[|items| - 1];
      if !last.List? then Bad
      else
        var urls :- StrsOf(last.items);
        Got(init + [urls])
  }

  function InfoOf(d: Entries): Result<TorrentInfo> {
    var name :- RequireBytes(d, K_NAME);
    var pieceLength :- RequireInt(d, K_PIECE_LENGTH);
    var piecesRaw :- RequireBytes(d, K_PIECES);
    var length :- IntOrNone(d, K_LENGTH);
    var files :- if K_FILES !in d then Got(None)
                 else if !d[K_FILES].List? then Bad
                 else
                   var entries :- FilesOf(d[K_FILES].items);
                   Got(Some(entries));
    if length.None? && files.None? then Bad
    else
      var flag :- IntOrNone(d, K_PRIVATE);
      Got(TorrentInfo(name, pieceLength, piecesRaw, length, files, flag == Some(1)))
  }

  /** `parse_torrent_bytes`; an announce-list that is no list is silently ignored. */
  ghost function ParseTorrent(data: Bytes, sha1: Bytes -> Bytes): Result<TorrentMeta> {
    var top := Decode(data);
    if top.None? || !top.value.Dict? then Bad
    else
      var d := top.value.entries;
      if K_INFO !in d || !d[K_INFO].Dict? then Bad
      else
        var info :- InfoOf(d[K_INFO].entries);
        var announce :- BytesOrNone(d, K_ANNOUNCE);
        var tiers :- if K_ANNOUNCE_LIST !in d || !d[K_ANNOUNCE_LIST].List? then Got(None)
                     else
                       var parsed :- TiersOf(d[K_ANNOUNCE_LIST].items);
                       Got(Some(parsed));
        var creationDate :- IntOrNone(d, K_CREATION_DATE);
        var comment :- BytesOrNone(d, K_COMMENT);
        var createdBy :- BytesOrNone(d, K_CREATED_BY);
        Got(TorrentMeta(info, sha1(Encode(d[K_INFO])), announce, tiers, creationDate, comment, createdBy))
  }

  // ----- serialising --------------------------------------------------------------------------------------

  function Strs(ss: seq<Bytes>): seq<Value> {
    seq(|ss|, i requires 0 <= i < |ss| => Str(ss[i]))
  }

  function FileValue(f: FileEntry): Value {
    Dict(map[K_LENGTH := Int(f.length), K_PATH := List(Strs(f.path))])
  }

  function FileValues(fs: seq<FileEntry>): seq<Value> {
    seq(|fs|, i requires 0 <= i < |fs| => FileValue(fs[i]))
  }

  function TierValues(tiers: seq<seq<Bytes>>): seq<Value> {
    seq(|tiers|, i requires 0 <= i < |tiers| => List(Strs(tiers[i])))
  }

  function With(d: Entries, key: Bytes, value: Option<Value>): Entries {
    if value.Some? then d[key := value.value] else d
  }

  function OptInt(n: Option<int>): Option<Value> { if n.Some? then Some(Int(n.value)) else None }

  function OptStr(s: Option<Bytes>): Option<Value> { if s.Some? then Some(Str(s.value)) else None }

  /** `_info_to_bencode`. */
  function InfoEntries(info: TorrentInfo): Entries {
    var d := map[K_NAME := Str(info.name), K_PIECE_LENGTH := Int(info.pieceLength), K_PIECES := Str(info.piecesRaw)];
    var d := With(d, K_LENGTH, OptInt(info.length));
    var d := With(d, K_FILES, if info.files.Some? then Some(List(FileValues(info.files.value))) else None);
    With(d, K_PRIVATE, if info.isPrivate then Some(Int(1)) else None)
  }

  function TopEntries(m: TorrentMeta): Entries {
    var d := map[K_INFO := Dict(InfoEntries(m.info))];
    var d := With(d, K_ANNOUNCE, OptStr(m.announce));
    var d := With(d, K_ANNOUNCE_LIST,
                  if m.announceList.Some? then Some(List(TierValues(m.announceList.value))) else None);
    var d := With(d, K_CREATION_DATE, OptInt(m.creationDate));
    var d := With(d, K_COMMENT, OptStr(m.comment));
    With(d, K_CREATED_BY, OptStr(m.createdBy))
  }

  /** `torrent_to_bytes`. */
  ghost function TorrentToBytes(m: TorrentMeta): Bytes {
    Encode(Dict(TopEntries(m)))
  }

  // ----- round trip ---------------------------------------------------------------------------------------

  lemma {:induction false} StrsRoundTrip(ss: seq<Bytes>)
    ensures StrsOf(Strs(ss)) == Got(ss)
  {
    if ss != [] {
      var init := ss[..|ss| - 1];
      StrsRoundTrip(init);
      assert Strs(ss)[..|ss| - 1] == Strs(init);
      assert init + [ss[|ss| - 1]] == ss;
    }
  }

  lemma {:induction false} FilesRoundTrip(fs: seq<FileEntry>)
    ensures FilesOf(FileValues(fs)) == Got(fs)
  {
    if fs != [] {
      var init, last := fs[..|fs| - 1], fs[|fs| - 1];
      FilesRoundTrip(init);
      assert FileValues(fs)[..|fs| - 1] == FileValues(init);
      FileRoundTrip(last);
      assert init + [last] == fs;
    }
  }

  lemma FileRoundTrip(f: FileEntry)
    ensures FileOf(FileValue(f)) == Got(f)
  {
    StrsRoundTrip(f.path);
  }

  lemma {:induction false} TiersRoundTrip(tiers: seq<seq<Bytes>>)
    ensures TiersOf(TierValues(tiers)) == Got(tiers)
  {
    if tiers != [] {
      var init, last := tiers[..|tiers| - 1], tiers[|tiers| - 1];
      TiersRoundTrip(init);
      assert TierValues(tiers)[..|tiers| - 1] == TierValues(init);
      StrsRoundTrip(last);
      assert init + [last] == tiers;
    }
  }

  lemma InfoRoundTrip(info: TorrentInfo)
    ensures InfoOf(InfoEntries(info)) == if info.length.Some? || info.files.Some? then Got(info) else Bad
  {
    if info.files.Some? { FilesRoundTrip(info.files.value); }
    hide FileValues, FilesOf;
  }

  /**
   * A torrent survives being written and read back exactly when it has a length or a file list and
   * carries the hash of its own info dictionary.
   */
  lemma MetainfoRoundTrip(m: TorrentMeta, sha1: Bytes -> Bytes)
    ensures ParseTorrent(TorrentToBytes(m), sha1) == Got(m)
       <==> (m.info.length.Some? || m.info.files.Some?) && m.infoHash == sha1(Encode(Dict(InfoEntries(m.info))))
  {
    hide Encode, Decode, TierValues, TiersOf, InfoEntries, InfoOf, TopEntries;
    DecodeEncode(Dict(TopEntries(m)));
    TopFields(m);
    InfoRoundTrip(m.info);
    if m.announceList.Some? { TiersRoundTrip(m.announceList.value); }
  }

  function Field(d: Entries, key: Bytes): Option<Value> { if key in d then Some(d[key]) else None }

  /** The optional fields do not disturb one another. */
  lemma TopFields(m: TorrentMeta)
    ensures var d := TopEntries(m);
            && Field(d, K_INFO) == Some(Dict(InfoEntries(m.info)))
            && Field(d, K_ANNOUNCE) == OptStr(m.announce)
            && Field(d, K_ANNOUNCE_LIST)
                 == (if m.announceList.Some? then Some(List(TierValues(m.announceList.value))) else None)
            && Field(d, K_CREATION_DATE) == OptInt(m.creationDate)
            && Field(d, K_COMMENT) == OptStr(m.comment)
            && Field(d, K_CREATED_BY) == OptStr(m.createdBy)
  {
    hide TierValues, InfoEntries;
    assert K_INFO[0] == 105 && K_CREATION_DATE[2] == 101 && K_COMMENT[1] == 111 && K_CREATED_BY[5] == 101;
    assert K_CREATION_DATE[1] == 114 && K_CREATED_BY[1] == 114 && K_CREATION_DATE[5] == 105;
  }

  // ----- the hash names the bytes of the file ---------------------------------------------------------------

  /** Where the value of `key` stands among the entries that start at `pos`. */
  function ValueSpan(buf: Bytes, pos: nat, prev: Option<Bytes>, key: Bytes): Option<(nat, nat)>
    requires ParseEntries(buf, pos, prev).Ok?
    decreases |buf| - pos
  {
    if buf[pos] == CHR_E then None
    else
      var k := ParseStr(buf, pos);
      var v := ParseAny(buf, k.next);
      if k.value == key then Some((k.next, v.next)) else ValueSpan(buf, v.next, Some(k.value), key)
  }

  lemma {:induction false} SpanOfKey(buf: Bytes, pos: nat, prev: Option<Bytes>, key: Bytes)
    requires ParseEntries(buf, pos, prev).Ok? && key in ToMap(ParseEntries(buf, pos, prev).value)
    ensures var span := ValueSpan(buf, pos, prev, key);
            && span.Some?
            && ParseAny(buf, span.value.0) == Ok(ToMap(ParseEntries(buf, pos, prev).value)[key], span.value.1)
            && (PlainEntries(buf, pos, prev) ==> PlainAny(buf, span.value.0))
    decreases |buf| - pos
  {
    if buf[pos] != CHR_E {
      var k := ParseStr(buf, pos);
      var v := ParseAny(buf, k.next);
      var tail := ParseEntries(buf, v.next, Some(k.value));
      var entry := (k.value, v.value);
      hide ParseAny, ParseStr, Lt, ToMap;
      HeadOfMap(entry, tail.value);
      if k.value == key {
        EntriesAscend(buf, pos, prev);
        KeysOfCons(entry, tail.value);
        HeadIsNew(k.value, KeysOf(tail.value));
        AscendingMap(tail.value);
      } else {
        SpanOfKey(buf, v.next, Some(k.value), key);
      }
    }
  }

  lemma HeadOfMap(e: Entry, tail: seq<Entry>)
    ensures ToMap([e] + tail) == map[e.0 := e.1] + ToMap(tail)
  {
    assert ([e] + tail)[1..] == tail;
  }

  lemma KeysOfCons(e: Entry, tail: seq<Entry>)
    ensures KeysOf([e] + tail) == [e.0] + KeysOf(tail)
  {
    assert ([e] + tail)[1..] == tail;
  }

  lemma AscendingMap(entries: seq<Entry>)
    requires Ascending(KeysOf(entries))
    ensures forall k :: k in ToMap(entries) <==> k in KeysOf(entries)
  {
    ToMapEntries(entries);
  }

  /**
   * The info hash is taken of a re-encoding.  That re-encoding is the very byte span the info value
   * occupies in the file if and only if the numerals in that span are plain decimal.
   */
  lemma InfoHashIsOfTheFile(data: Bytes, sha1: Bytes -> Bytes)
    requires ParseTorrent(data, sha1).Got?
    ensures data[0] == CHR_D && ParseEntries(data, 1, None).Ok?
    ensures var span := ValueSpan(data, 1, None, K_INFO);
            && span.Some? && span.value.0 < span.value.1 <= |data| && ParseAny(data, span.value.0).Ok?
            && var info := ParseAny(data, span.value.0).value;
            && ParseTorrent(data, sha1).value.infoHash == sha1(Encode(info))
            && (Encode(info) == data[span.value.0..span.value.1] <==> PlainAny(data, span.value.0))
            && (PlainAny(data, 0) ==> ParseTorrent(data, sha1).value.infoHash == sha1(data[span.value.0..span.value.1]))
  {
    TorrentIsDict(data, sha1);
    hide ParseTorrent, Encode, ParseAny, ParseEntries, PlainAny, PlainEntries, ToMap, ValueSpan;
    SpanOfKey(data, 1, None, K_INFO);
    ReprintAny(data, ValueSpan(data, 1, None, K_INFO).value.0);
  }

  lemma TorrentIsDict(data: Bytes, sha1: Bytes -> Bytes)
    requires ParseTorrent(data, sha1).Got?
    ensures data != [] && data[0] == CHR_D && ParseEntries(data, 1, None).Ok?
    ensures var d := ToMap(ParseEntries(data, 1, None).value);
            K_INFO in d && ParseTorrent(data, sha1).value.infoHash == sha1(Encode(d[K_INFO]))
    ensures ParseAny(data, 0).Ok? && (PlainAny(data, 0) <==> PlainEntries(data, 1, None))
  {
    hide Encode, InfoOf, TiersOf, ParseEntries, ParseItems, ParseStr, ParseInt;
  }

  // ----- a file whose hash is not that of its own bytes --------------------------------------------------

  /** The entries behind the length: a name, a piece length of 1 and no pieces. */
  const SMALL_REST: Value := Dict(map[K_NAME := Str([97]), K_PIECE_LENGTH := Int(1), K_PIECES := Str([])])

  const SMALL_KEYS: seq<Bytes> := [K_NAME, K_PIECE_LENGTH, K_PIECES]

  /** The info dictionary of a small single-file torrent, its length written as `raw`. */
  ghost function SmallInfo(raw: Bytes): Bytes {
    [CHR_D] + EncodeStr(K_LENGTH) + ([CHR_I] + raw + [CHR_E]) + (EncodeEntries(SMALL_REST, SMALL_KEYS) + [CHR_E])
  }

  ghost function SmallFile(raw: Bytes): Bytes {
    [CHR_D] + EncodeStr(K_INFO) + SmallInfo(raw) + [CHR_E]
  }

  lemma SmallKeysListed()
    ensures Listed(SMALL_REST.entries, SMALL_KEYS, Some(K_LENGTH))
  {
    assert Lt(K_LENGTH, K_NAME) && Lt(K_NAME, K_PIECE_LENGTH);
    PieceKeys();
    hide Lt;
    var entries, last, two := SMALL_REST.entries, [K_PIECES], [K_PIECE_LENGTH, K_PIECES];
    assert last[1..] == [] && two[1..] == last && SMALL_KEYS[1..] == two;
    assert Listed(entries, [], Some(K_PIECES));
    assert Listed(entries, last, Some(K_PIECE_LENGTH));
    assert Listed(entries, two, Some(K_NAME));
  }

  /** "piece length" comes before "pieces". */
  lemma PieceKeys()
    ensures Lt(K_PIECE_LENGTH, K_PIECES)
  {
    var a, b := K_PIECE_LENGTH, K_PIECES;
    assert Lt(a[5..], b[5..]);
    assert Lt(a[4..], b[4..]) by { assert a[4..][1..] == a[5..] && b[4..][1..] == b[5..]; }
    assert Lt(a[3..], b[3..]) by { assert a[3..][1..] == a[4..] && b[3..][1..] == b[4..]; }
    assert Lt(a[2..], b[2..]) by { assert a[2..][1..] == a[3..] && b[2..][1..] == b[3..]; }
    assert Lt(a[1..], b[1..]) by { assert a[1..][1..] == a[2..] && b[1..][1..] == b[2..]; }
  }

  lemma SmallPairs()
    ensures Pairs(SMALL_REST.entries, SMALL_KEYS)
         == [(K_NAME, Str([97])), (K_PIECE_LENGTH, Int(1)), (K_PIECES, Str([]))]
  {
    var entries, last, two := SMALL_REST.entries, [K_PIECES], [K_PIECE_LENGTH, K_PIECES];
    assert last[1..] == [] && two[1..] == last && SMALL_KEYS[1..] == two;
    assert |K_NAME| == 4 && |K_PIECE_LENGTH| == 12 && |K_PIECES| == 6;
    assert Pairs(entries, []) == [];
    assert Pairs(entries, last) == [(K_PIECES, Str([]))];
    assert Pairs(entries, two) == [(K_PIECE_LENGTH, Int(1)), (K_PIECES, Str([]))];
  }

  lemma LeadAt(buf: Bytes, pos: nat, lead: byte, rest: Bytes)
    requires At(buf, pos, [lead] + rest)
    ensures pos < |buf| && buf[pos] == lead && At(buf, pos + 1, rest)
  {
    AtSplit(buf, pos, [lead], rest);
  }

  lemma OneEntry(e: Entry, tail: seq<Entry>)
    ensures ToMap([e] + tail) == map[e.0 := e.1] + ToMap(tail) && ToMap([]) == map[]
  {
    HeadOfMap(e, tail);
  }

  /** The entries of the info dictionary are read, wherever they stand. */
  lemma SmallEntriesAt(buf: Bytes, pos: nat, raw: Bytes)
    requires Accepted(raw) && At(buf, pos, SmallInfo(raw))
    ensures pos < |buf| && buf[pos] == CHR_D
    ensures ParseEntries(buf, pos + 1, None)
         == Ok([(K_LENGTH, Int(PyInt(raw).value))]
                 + [(K_NAME, Str([97])), (K_PIECE_LENGTH, Int(1)), (K_PIECES, Str([]))], pos + |SmallInfo(raw)|)
    ensures PlainEntries(buf, pos + 1, None) ==> IsPlain(raw)
  {
    hide At, EncodeStr, EncodeEntries, PyInt, IsPlain, HasLeadingZero, Lt, ParseAny, PlainAny;
    var key, numeral, rest := EncodeStr(K_LENGTH), [CHR_I] + raw + [CHR_E], EncodeEntries(SMALL_REST, SMALL_KEYS);
    assert SmallInfo(raw) == [CHR_D] + (key + numeral + (rest + [CHR_E]));
    LeadAt(buf, pos, CHR_D, key + numeral + (rest + [CHR_E]));
    AtSplit3(buf, pos + 1, key, numeral, rest + [CHR_E]);
    AtSplit(buf, pos + 1 + |key|, numeral, rest + [CHR_E]);
    var p := pos + 1 + |key|;
    var q := p + |numeral|;
    ParseNumeralAt(buf, p, raw);
    SmallKeysListed();
    ParseEntriesAt(buf, q, SMALL_REST, SMALL_KEYS, Some(K_LENGTH));
    SmallPairs();
    PrependEntry(buf, pos + 1, None, K_LENGTH, Int(PyInt(raw).value), q);
    ParseStrAt(buf, pos + 1, K_LENGTH);
    PlainNeedsValue(buf, pos + 1, K_LENGTH, p);
  }

  lemma PlainNeedsValue(buf: Bytes, pos: nat, key: Bytes, p: nat)
    requires ParseEntries(buf, pos, None).Ok? && IsDigit(buf[pos]) && ParseStr(buf, pos) == Ok(key, p)
    ensures ParseAny(buf, p).Ok? && (PlainEntries(buf, pos, None) ==> PlainAny(buf, p))
  {
    hide ParseAny, PlainAny, ParseStr, PlainStr, Lt;
  }

  /** The info dictionary is read, wherever it stands, and is plain only if its length is. */
  lemma SmallInfoAt(buf: Bytes, pos: nat, raw: Bytes) returns (info: Entries)
    requires Accepted(raw) && At(buf, pos, SmallInfo(raw))
    ensures ParseAny(buf, pos) == Ok(Dict(info), pos + |SmallInfo(raw)|)
    ensures PlainAny(buf, pos) ==> IsPlain(raw)
    ensures InfoOf(info) == Got(TorrentInfo([97], 1, [], Some(PyInt(raw).value), None, false))
  {
    hide At, PyInt, IsPlain, Lt, InfoOf, SmallInfo, ParseEntries, PlainEntries, ToMap;
    SmallEntriesAt(buf, pos, raw);
    info := ToMap(ParseEntries(buf, pos + 1, None).value);
    FourEntries(PyInt(raw).value);
  }

  lemma FourEntries(n: int)
    ensures var entries: seq<Entry> :=
              [(K_LENGTH, Int(n))] + [(K_NAME, Str([97])), (K_PIECE_LENGTH, Int(1)), (K_PIECES, Str([]))];
            InfoOf(ToMap(entries)) == Got(TorrentInfo([97], 1, [], Some(n), None, false))
  {
    hide InfoOf, ToMap;
    var name: Entry, size: Entry, pieces: Entry := (K_NAME, Str([97])), (K_PIECE_LENGTH, Int(1)), (K_PIECES, Str([]));
    var length: Entry := (K_LENGTH, Int(n));
    OneEntry(pieces, []);
    OneEntry(size, [pieces]);
    OneEntry(name, [size, pieces]);
    OneEntry(length, [name, size, pieces]);
    assert [pieces] + [] == [pieces] && [size] + [pieces] == [size, pieces];
    assert [name] + [size, pieces] == [name, size, pieces];
    var m, info := ToMap([length] + [name, size, pieces]), TorrentInfo([97], 1, [], Some(n), None, false);
    assert |K_NAME| == 4 && |K_PIECE_LENGTH| == 12 && |K_PIECES| == 6 && |K_LENGTH| == 6 && K_LENGTH[0] != K_PIECES[0];
    assert m == InfoEntries(info);
    InfoRoundTrip(info);
  }

  /**
   * A file the parser accepts although its length is no plain numeral: the hash is taken of other bytes
   * than those of the file's own info dictionary.
   */
  lemma SmallFileAccepted(raw: Bytes, sha1: Bytes -> Bytes)
    requires Accepted(raw) && !IsPlain(raw)
    ensures var data := SmallFile(raw);
            && ParseTorrent(data, sha1).Got? && ParseTorrent(data, sha1).value.info.length == PyInt(raw)
            && ParseEntries(data, 1, None).Ok?
            && var span := ValueSpan(data, 1, None, K_INFO);
               span.Some? && span.value.0 <= span.value.1 <= |data| && ParseAny(data, span.value.0).Ok?
               && !PlainAny(data, span.value.0)
               && Encode(ParseAny(data, span.value.0).value) != data[span.value.0..span.value.1]
  {
    hide At, EncodeStr, PyInt, IsPlain, HasLeadingZero, Lt, SmallInfo, InfoOf, Encode, ParseTorrent, ParseAny,
         ParseEntries, PlainAny, ValueSpan;
    var data, key := SmallFile(raw), EncodeStr(K_INFO);
    AtSlice(data, 0, data);
    assert data[0..0 + |data|] == data;
    assert data == [CHR_D] + (key + SmallInfo(raw) + [CHR_E]);
    LeadAt(data, 0, CHR_D, key + SmallInfo(raw) + [CHR_E]);
    AtSplit3(data, 1, key, SmallInfo(raw), [CHR_E]);
    AtSplit(data, 1 + |key|, SmallInfo(raw), [CHR_E]);
    var info := SmallInfoAt(data, 1 + |key|, raw);
    ParseStrAt(data, 1, K_INFO);
    EndAt(data, 1 + |key| + |SmallInfo(raw)|, Some(K_INFO));
    OnlyInfo(data, sha1, info, 1 + |key| + |SmallInfo(raw)|);
    InfoHashIsOfTheFile(data, sha1);
  }

  /** A dictionary with the one key `info`. */
  lemma OnlyInfo(data: Bytes, sha1: Bytes -> Bytes, info: Entries, q: nat)
    requires data != [] && data[0] == CHR_D && At(data, 1, EncodeStr(K_INFO)) && InfoOf(info).Got?
    requires 1 < |data| && IsDigit(data[1]) && ParseStr(data, 1) == Ok(K_INFO, 1 + |EncodeStr(K_INFO)|)
    requires ParseAny(data, 1 + |EncodeStr(K_INFO)|) == Ok(Dict(info), q)
    requires q < |data| && data[q] == CHR_E && q + 1 == |data| && ParseEntries(data, q, Some(K_INFO)) == Ok([], q + 1)
    ensures ParseTorrent(data, sha1).Got? && ParseTorrent(data, sha1).value.info == InfoOf(info).value
    ensures ParseEntries(data, 1, None).Ok? && ValueSpan(data, 1, None, K_INFO) == Some((1 + |EncodeStr(K_INFO)|, q))
  {
    hide At, EncodeStr, ParseStr, InfoOf, Encode, Lt;
    PrependEntry(data, 1, None, K_INFO, Dict(info), q);
    OneEntry((K_INFO, Dict(info)), []);
    assert [(K_INFO, Dict(info))] + [] == [(K_INFO, Dict(info))];
    TopIsInfo(info);
  }

  lemma EndAt(buf: Bytes, pos: nat, prev: Option<Bytes>)
    requires At(buf, pos, [CHR_E])
    ensures pos < |buf| && buf[pos] == CHR_E && ParseEntries(buf, pos, prev) == Ok([], pos + 1)
  {}

  lemma TopIsInfo(info: Entries)
    ensures var d: Entries := map[K_INFO := Dict(info)];
            K_ANNOUNCE !in d && K_ANNOUNCE_LIST !in d && K_CREATION_DATE !in d && K_COMMENT !in d && K_CREATED_BY !in d
  {
    assert |K_INFO| == 4 && |K_ANNOUNCE| == 8 && |K_ANNOUNCE_LIST| == 13 && |K_CREATION_DATE| == 13;
    assert |K_COMMENT| == 7 && |K_CREATED_BY| == 10;
  }

  // ----- the loops ------------------------------------------------------------------------------------------

  method DecodePath(raw: seq<Value>) returns (r: Result<seq<Bytes>>)
    ensures r == StrsOf(raw)
  {
    var parts: seq<Bytes> := [];
    for i := 0 to |raw|
      invariant StrsOf(raw[..i]) == Got(parts)
    {
      assert raw[..i + 1][..i] == raw[..i];
      if !raw[i].Str? {
        BadStr(raw, i + 1);
        return Bad;
      }
      parts := parts + [raw[i].s];
    }
    assert raw[..|raw|] == raw;
    return Got(parts);
  }

  lemma {:induction false} BadStr(raw: seq<Value>, n: nat)
    requires n <= |raw| && StrsOf(raw[..n]).Bad?
    ensures StrsOf(raw).Bad?
    decreases |raw| - n
  {
    if n < |raw| {
      assert raw[..n + 1][..n] == raw[..n];
      BadStr(raw, n + 1);
    } else {
      assert raw[..n] == raw;
    }
  }

  method ParseFiles(raw: seq<Value>) returns (r: Result<seq<FileEntry>>)
    ensures r == FilesOf(raw)
  {
    var entries: seq<FileEntry> := [];
    for i := 0 to |raw|
      invariant FilesOf(raw[..i]) == Got(entries)
    {
      assert raw[..i + 1][..i] == raw[..i];
      var entry := ParseFile(raw[i]);
      if entry.Bad? {
        BadFile(raw, i + 1);
        return Bad;
      }
      entries := entries + [entry.value];
    }
    assert raw[..|raw|] == raw;
    return Got(entries);
  }

  lemma {:induction false} BadFile(raw: seq<Value>, n: nat)
    requires n <= |raw| && FilesOf(raw[..n]).Bad?
    ensures FilesOf(raw).Bad?
    decreases |raw| - n
  {
    if n < |raw| {
      assert raw[..n + 1][..n] == raw[..n];
      BadFile(raw, n + 1);
    } else {
      assert raw[..n] == raw;
    }
  }

  method ParseFile(item: Value) returns (r: Result<FileEntry>)
    ensures r == FileOf(item)
  {
    if !item.Dict? { return Bad; }
    var length := RequireInt(item.entries, K_LENGTH);
    if length.Bad? || K_PATH !in item.entries || !item.entries[K_PATH].List? { return Bad; }
    var path := DecodePath(item.entries[K_PATH].items);
    return if path.Bad? then Bad else Got(FileEntry(path.value, length.value));
  }

  method ParseAnnounceList(raw: seq<Value>) returns (r: Result<seq<seq<Bytes>>>)
    ensures r == TiersOf(raw)
  {
    var tiers: seq<seq<Bytes>> := [];
    for i := 0 to |raw|
      invariant TiersOf(raw[..i]) == Got(tiers)
    {
      assert raw[..i + 1][..i] == raw[..i];
      var urls: Result<seq<Bytes>> := Bad;
      if raw[i].List? { urls := DecodePath(raw[i].items); }
      if urls.Bad? {
        BadTier(raw, i + 1);
        return Bad;
      }
      tiers := tiers + [urls.value];
    }
    assert raw[..|raw|] == raw;
    return Got(tiers);
  }

  lemma {:induction false} BadTier(raw: seq<Value>, n: nat)
    requires n <= |raw| && TiersOf(raw[..n]).Bad?
    ensures TiersOf(raw).Bad?
    decreases |raw| - n
  {
    if n < |raw| {
      assert raw[..n + 1][..n] == raw[..n];
      BadTier(raw, n + 1);
    } else {
      assert raw[..n] == raw;
    }
  }

  method ParseInfo(d: Entries) returns (r: Result<TorrentInfo>)
    ensures r == InfoOf(d)
  {
    hide FilesOf;
    var name := RequireBytes(d, K_NAME);
    var pieceLength := RequireInt(d, K_PIECE_LENGTH);
    var piecesRaw := RequireBytes(d, K_PIECES);
    var length := IntOrNone(d, K_LENGTH);
    if name.Bad? || pieceLength.Bad? || piecesRaw.Bad? || length.Bad? { return Bad; }
    var files: Option<seq<FileEntry>> := None;
    if K_FILES in d {
      if !d[K_FILES].List? { return Bad; }
      var parsed := ParseFiles(d[K_FILES].items);
      if parsed.Bad? { return Bad; }
      files := Some(parsed.value);
    }
    if length.value.None? && files.None? { return Bad; }
    var flag := IntOrNone(d, K_PRIVATE);
    if flag.Bad? { return Bad; }
    return Got(TorrentInfo(name.value, pieceLength.value, piecesRaw.value, length.value, files, flag.value == Some(1)));
  }

  method ParseTorrentBytes(data: Bytes, sha1: Bytes -> Bytes) returns (r: Result<TorrentMeta>)
    ensures r == ParseTorrent(data, sha1)
  {
    hide Decode, Encode, InfoOf, TiersOf;
    var top := BencodeCodec.DecodeOne(data);
    if top.None? || !top.value.Dict? { return Bad; }
    var d := top.value.entries;
    if K_INFO !in d || !d[K_INFO].Dict? { return Bad; }
    var encoded := BencodeCodec.EncodeValue(d[K_INFO]);
    var infoHash := sha1(encoded);
    var info := ParseInfo(d[K_INFO].entries);
    var announce := BytesOrNone(d, K_ANNOUNCE);
    if info.Bad? || announce.Bad? { return Bad; }
    var tiers: Option<seq<seq<Bytes>>> := None;
    if K_ANNOUNCE_LIST in d && d[K_ANNOUNCE_LIST].List? {
      var parsed := ParseAnnounceList(d[K_ANNOUNCE_LIST].items);
      if parsed.Bad? { return Bad; }
      tiers := Some(parsed.value);
    }
    var creationDate := IntOrNone(d, K_CREATION_DATE);
    var comment, createdBy := BytesOrNone(d, K_COMMENT), BytesOrNone(d, K_CREATED_BY);
    if creationDate.Bad? || comment.Bad? || createdBy.Bad? { return Bad; }
    return Got(TorrentMeta(info.value, infoHash, announce.value, tiers, creationDate.value, comment.value,
                           createdBy.value));
  }
}
