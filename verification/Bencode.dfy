/**
 * Bencoding (BEP 3): what the encoder prints and what the decoder reads, as functions, with the
 * codec's laws.  BencodeCodec holds the loops and proves that they compute these functions.
 */
module Bencode {
  import opened Bytes
  import opened Numerals

  datatype Value =
    | Int(n: int)
    | Str(s: Bytes)
    | List(items: seq<Value>)
    | Dict(entries: map<Bytes, Value>)

  const CHR_I: byte := 105
  const CHR_L: byte := 108
  const CHR_D: byte := 100
  const CHR_E: byte := 101
  const CHR_COLON: byte := 58

  // ----- sorted keys ------------------------------------------------------------------------

  ghost predicate IsLeast(k: Bytes, keys: set<Bytes>) {
    k in keys && forall x :: x in keys && x != k ==> Lt(k, x)
  }

  lemma LeastExists(keys: set<Bytes>)
    requires keys != {}
    ensures exists k :: IsLeast(k, keys)
  {
    var k :| k in keys;
    var rest := keys - {k};
    if rest == {} {
      assert keys == {k};
      assert IsLeast(k, keys);
    } else {
      LeastExists(rest);
      var k' :| IsLeast(k', rest);
      LtTrichotomy(k, k');
      if Lt(k, k') {
        forall x | x in keys && x != k ensures Lt(k, x) {
          if x != k' { LtTransitive(k, k', x); }
        }
        assert IsLeast(k, keys);
      } else {
        assert IsLeast(k', keys);
      }
    }
  }

  ghost predicate Ascending(keys: seq<Bytes>) {
    forall i, j :: 0 <= i < j < |keys| ==> Lt(keys[i], keys[j])
  }

  /** `sorted(keys)`. */
  ghost function SortedKeys(keys: set<Bytes>): seq<Bytes> {
    if keys == {} then []
    else
      LeastExists(keys);
      var k :| IsLeast(k, keys);
      [k] + SortedKeys(keys - {k})
  }

  lemma {:induction false} SortedKeysAscend(keys: set<Bytes>)
    ensures Ascending(SortedKeys(keys))
    ensures forall k :: k in SortedKeys(keys) <==> k in keys
  {
    if keys != {} {
      LeastExists(keys);
      var k :| IsLeast(k, keys) && SortedKeys(keys) == [k] + SortedKeys(keys - {k});
      SortedKeysAscend(keys - {k});
    }
  }

  /** An ascending list of keys is the sorted form of its own set of keys. */
  lemma {:induction false} AscendingIsSorted(ks: seq<Bytes>, keys: set<Bytes>)
    requires Ascending(ks) && forall k :: k in ks <==> k in keys
    ensures ks == SortedKeys(keys)
  {
    var sorted := SortedKeys(keys);
    SortedKeysAscend(keys);
    if ks == [] {
      assert keys == {};
    } else {
      assert ks[0] in sorted && sorted[0] in ks;
      LtTrichotomy(ks[0], sorted[0]);
      var rest := keys - {ks[0]};
      forall k ensures k in ks[1..] <==> k in rest {
        if k in ks[1..] { LtTrichotomy(ks[0], k); }
        assert k in ks <==> k == ks[0] || k in ks[1..];
      }
      AscendingIsSorted(ks[1..], rest);
      assert sorted[1..] == SortedKeys(rest);
    }
  }

  // ----- encoding ---------------------------------------------------------------------------

  ghost function Encode(v: Value): Bytes
    decreases v, 1, 0
  {
    match v
    case Int(n) => [CHR_I] + Decimal(n) + [CHR_E]
    case Str(s) => EncodeStr(s)
    case List(items) => [CHR_L] + EncodeItems(items) + [CHR_E]
    case Dict(entries) => [CHR_D] + EncodeEntries(v, SortedKeys(entries.Keys)) + [CHR_E]
  }

  function EncodeStr(s: Bytes): Bytes {
    Decimal(|s|) + [CHR_COLON] + s
  }

  ghost function EncodeItems(items: seq<Value>): Bytes
    decreases items, 0, 0
  {
    if items == [] then [] else Encode(items[0]) + EncodeItems(items[1..])
  }

  ghost function EncodeEntries(v: Value, keys: seq<Bytes>): Bytes
    requires v.Dict?
    decreases v, 0, |keys|
  {
    if keys == [] || keys[0] !in v.entries then []
    else EncodeStr(keys[0]) + Encode(v.entries[keys[0]]) + EncodeEntries(v, keys[1..])
  }

  // ----- decoding ---------------------------------------------------------------------------

  /** The value read at a position and the position after it, or a DecodeError. */
  datatype Parsed<+T> = Ok(value: T, next: nat) | Fail

  /** The first index of `b` in `buf` at or after `start`. */
  function FindByte(buf: Bytes, b: byte, start: nat): (r: Option<nat>)
    ensures r.Some? ==> start <= r.value < |buf| && buf[r.value] == b && b !in buf[start..r.value]
    ensures r.None? ==> forall i :: start <= i < |buf| ==> buf[i] != b
    decreases |buf| - start
  {
    if start >= |buf| then None
    else if buf[start] == b then Some(start)
    else
      var r := FindByte(buf, b, start + 1);
      assert r.Some? ==> buf[start..r.value] == [buf[start]] + buf[start + 1..r.value];
      r
  }

  function ParseInt(buf: Bytes, pos: nat): (r: Parsed<int>)
    requires pos < |buf|
    ensures r.Ok? ==> pos + 2 < r.next <= |buf|
  {
    var end := FindByte(buf, CHR_E, pos + 1);
    if end.None? then Fail
    else
      var raw := buf[pos + 1..end.value];
      var n := PyInt(raw);
      if raw == [] || HasLeadingZero(raw) || n.None? then Fail else Ok(n.value, end.value + 1)
  }

  /** The numeral between `pos` and the colon, provided the decoder accepts it as a length. */
  function ParseLength(buf: Bytes, pos: nat): (r: Parsed<nat>)
    requires pos < |buf| && IsDigit(buf[pos])
    ensures r.Ok? ==> pos + 1 < r.next <= |buf|
  {
    var colon := FindByte(buf, CHR_COLON, pos);
    if colon.None? then Fail
    else
      var raw := buf[pos..colon.value];
      var n := PyInt(raw);
      if (|raw| > 1 && raw[0] == 48) || n.None? then Fail
      else
        LeadingDigitIsUnsigned(raw);
        Ok(n.value, colon.value + 1)
  }

  lemma LeadingDigitIsUnsigned(raw: Bytes)
    requires raw != [] && IsDigit(raw[0]) && PyInt(raw).Some?
    ensures PyInt(raw).value >= 0
  {
    StripRightHead(raw);
  }

  lemma {:induction false} StripRightHead(s: Bytes)
    requires s != [] && !IsBlank(s[0])
    ensures StripRight(s) != [] && StripRight(s)[0] == s[0]
  {
    if IsBlank(s[|s| - 1]) { StripRightHead(s[..|s| - 1]); }
  }

  function ParseStr(buf: Bytes, pos: nat): (r: Parsed<Bytes>)
    requires pos < |buf| && IsDigit(buf[pos])
    ensures r.Ok? ==> pos < r.next <= |buf|
  {
    var length := ParseLength(buf, pos);
    if length.Fail? || length.next + length.value > |buf| then Fail
    else Ok(buf[length.next..length.next + length.value], length.next + length.value)
  }

  function ParseAny(buf: Bytes, pos: nat): (r: Parsed<Value>)
    ensures r.Ok? ==> pos < r.next <= |buf|
    decreases |buf| - pos, 0
  {
    if pos >= |buf| then Fail
    else if buf[pos] == CHR_I then
      var r := ParseInt(buf, pos);
      if r.Fail? then Fail else Ok(Int(r.value), r.next)
    else if buf[pos] == CHR_L then
      var r := ParseItems(buf, pos + 1);
      if r.Fail? then Fail else Ok(List(r.value), r.next)
    else if buf[pos] == CHR_D then
      var r := ParseEntries(buf, pos + 1, None);
      if r.Fail? then Fail else Ok(Dict(ToMap(r.value)), r.next)
    else if IsDigit(buf[pos]) then
      var r := ParseStr(buf, pos);
      if r.Fail? then Fail else Ok(Str(r.value), r.next)
    else Fail
  }

  function ParseItems(buf: Bytes, pos: nat): (r: Parsed<seq<Value>>)
    ensures r.Ok? ==> pos < r.next <= |buf|
    decreases |buf| - pos, 1
  {
    if pos >= |buf| then Fail
    else if buf[pos] == CHR_E then Ok([], pos + 1)
    else
      var head := ParseAny(buf, pos);
      if head.Fail? then Fail
      else
        var tail := ParseItems(buf, head.next);
        if tail.Fail? then Fail else Ok([head.value] + tail.value, tail.next)
  }

  type Entry = (Bytes, Value)

  /** The rest of a dictionary whose last key so far is `prev`: its entries in file order. */
  function ParseEntries(buf: Bytes, pos: nat, prev: Option<Bytes>): (r: Parsed<seq<Entry>>)
    ensures r.Ok? ==> pos < r.next <= |buf|
    decreases |buf| - pos, 1
  {
    if pos >= |buf| then Fail
    else if buf[pos] == CHR_E then Ok([], pos + 1)
    else if !IsDigit(buf[pos]) then Fail
    else
      var key := ParseStr(buf, pos);
      if key.Fail? || (prev.Some? && !Lt(prev.value, key.value)) then Fail
      else
        var value := ParseAny(buf, key.next);
        if value.Fail? then Fail
        else
          var tail := ParseEntries(buf, value.next, Some(key.value));
          if tail.Fail? then Fail else Ok([(key.value, value.value)] + tail.value, tail.next)
  }

  /** The dictionary that assigning these entries one after the other builds. */
  function ToMap(entries: seq<Entry>): map<Bytes, Value> {
    if entries == [] then map[] else map[entries[0].0 := entries[0].1] + ToMap(entries[1..])
  }

  /** `decode`: one value and nothing after it. */
  function Decode(data: Bytes): Option<Value> {
    var r := ParseAny(data, 0);
    if r.Ok? && r.next == |data| then Some(r.value) else None
  }

  /** `decode_all`. */
  function DecodeAll(data: Bytes, pos: nat): Option<seq<Value>>
    decreases |data| - pos
  {
    if pos >= |data| then Some([])
    else
      var head := ParseAny(data, pos);
      if head.Fail? then None
      else
        var tail := DecodeAll(data, head.next);
        if tail.None? then None else Some([head.value] + tail.value)
  }

  // ----- round trip -------------------------------------------------------------------------

  /** `part` stands in `buf` at `pos`. */
  predicate At(buf: Bytes, pos: nat, part: Bytes)
    decreases |part|
  {
    part == [] || (pos < |buf| && buf[pos] == part[0] && At(buf, pos + 1, part[1..]))
  }

  lemma {:induction false} AtSplit(buf: Bytes, pos: nat, a: Bytes, b: Bytes)
    requires At(buf, pos, a + b)
    ensures At(buf, pos, a) && At(buf, pos + |a|, b)
    decreases |a|
  {
    if a == [] {
      assert a + b == b;
    } else {
      assert (a + b)[1..] == a[1..] + b;
      AtSplit(buf, pos + 1, a[1..], b);
    }
  }

  lemma {:induction false} AtSlice(buf: Bytes, pos: nat, part: Bytes)
    requires pos <= |buf|
    ensures At(buf, pos, part) <==> pos + |part| <= |buf| && buf[pos..pos + |part|] == part
    decreases |part|
  {
    if part != [] && pos < |buf| {
      AtSlice(buf, pos + 1, part[1..]);
      if pos + |part| <= |buf| {
        assert buf[pos..pos + |part|] == [buf[pos]] + buf[pos + 1..pos + |part|];
      }
    }
  }

  lemma FindByteAt(buf: Bytes, pos: nat, raw: Bytes, b: byte)
    requires At(buf, pos, raw + [b]) && b !in raw
    ensures FindByte(buf, b, pos) == Some(pos + |raw|)
  {
    AtSplit(buf, pos, raw, [b]);
    AtSlice(buf, pos, raw);
    assert buf[pos + |raw|] == b;
    forall i | pos <= i < pos + |raw| ensures buf[i] != b {
      assert buf[i] == raw[i - pos];
    }
  }

  lemma ParseLengthAt(buf: Bytes, pos: nat, n: nat)
    requires At(buf, pos, Decimal(n) + [CHR_COLON])
    ensures pos < |buf| && IsDigit(buf[pos])
    ensures ParseLength(buf, pos) == Ok(n, pos + |Decimal(n)| + 1)
  {
    var raw := Decimal(n);
    PyIntOfDecimal(n);
    FindByteAt(buf, pos, raw, CHR_COLON);
    AtSplit(buf, pos, raw, [CHR_COLON]);
    AtSlice(buf, pos, raw);
    hide *;
    ParseLengthOf(buf, pos, raw, n);
  }

  lemma ParseLengthOf(buf: Bytes, pos: nat, raw: Bytes, n: nat)
    requires raw != [] && IsDigit(raw[0]) && PyInt(raw) == Some(n) && !HasLeadingZero(raw)
    requires pos + |raw| < |buf| && buf[pos..pos + |raw|] == raw
    requires FindByte(buf, CHR_COLON, pos) == Some(pos + |raw|)
    ensures buf[pos] == raw[0] && ParseLength(buf, pos) == Ok(n, pos + |raw| + 1)
  {
    assert buf[pos] == buf[pos..pos + |raw|][0];
  }

  lemma ParseStrAt(buf: Bytes, pos: nat, s: Bytes)
    requires At(buf, pos, EncodeStr(s))
    ensures pos < |buf| && IsDigit(buf[pos])
    ensures ParseStr(buf, pos) == Ok(s, pos + |EncodeStr(s)|)
  {
    hide Decimal, ParseLength, At;
    AtSplit(buf, pos, Decimal(|s|) + [CHR_COLON], s);
    ParseLengthAt(buf, pos, |s|);
    AtSlice(buf, pos + |Decimal(|s|)| + 1, s);
  }

  lemma ParseIntAt(buf: Bytes, pos: nat, n: int)
    requires At(buf, pos, [CHR_I] + Decimal(n) + [CHR_E])
    ensures pos < |buf| && buf[pos] == CHR_I && ParseInt(buf, pos) == Ok(n, pos + |Decimal(n)| + 2)
  {
    hide At, Decimal, PyInt, FindByte;
    var raw := Decimal(n);
    AtBracketed(buf, pos, CHR_I, raw);
    PyIntOfDecimal(n);
    FindByteAt(buf, pos + 1, raw, CHR_E);
    AtSplit(buf, pos + 1, raw, [CHR_E]);
    AtSlice(buf, pos + 1, raw);
  }

  lemma AtBracketed(buf: Bytes, pos: nat, lead: byte, body: Bytes)
    requires At(buf, pos, [lead] + body + [CHR_E])
    ensures pos < |buf| && buf[pos] == lead && At(buf, pos + 1, body + [CHR_E])
  {
    assert [lead] + body + [CHR_E] == [lead] + (body + [CHR_E]);
    AtSplit(buf, pos, [lead], body + [CHR_E]);
  }

  /** Wherever an encoding stands, the decoder reads its value and stops right after it. */
  lemma {:induction false} ParseAnyAt(buf: Bytes, pos: nat, v: Value)
    requires At(buf, pos, Encode(v))
    ensures ParseAny(buf, pos) == Ok(v, pos + |Encode(v)|)
    decreases v, 1, 0
  {
    hide At, EncodeStr, EncodeItems, EncodeEntries, ParseInt, ParseStr, ParseItems, ParseEntries, Decimal, ToMap,
         Listed;
    match v
    case Int(n) =>
      ParseIntAt(buf, pos, n);
    case Str(s) =>
      ParseStrAt(buf, pos, s);
    case List(items) =>
      AtBracketed(buf, pos, CHR_L, EncodeItems(items));
      ParseItemsAt(buf, pos + 1, items);
    case Dict(entries) =>
      var keys := SortedKeys(entries.Keys);
      AtBracketed(buf, pos, CHR_D, EncodeEntries(v, keys));
      SortedKeysAscend(entries.Keys);
      AscendingIsListed(entries, keys, None);
      ParseEntriesAt(buf, pos + 1, v, keys, None);
      SortedPairsToMap(entries);
  }

  lemma {:induction false} ParseItemsAt(buf: Bytes, pos: nat, items: seq<Value>)
    requires At(buf, pos, EncodeItems(items) + [CHR_E])
    ensures ParseItems(buf, pos) == Ok(items, pos + |EncodeItems(items)| + 1)
    decreases items, 0, 0
  {
    hide At, Encode, EncodeItems, ParseAny, ParseItems;
    if items == [] {
      NoMoreItems(buf, pos);
    } else {
      ItemAt(buf, pos, items);
      ParseAnyAt(buf, pos, items[0]);
      ParseItemsAt(buf, pos + |Encode(items[0])|, items[1..]);
      PrependItem(buf, pos, items[0]);
      HeadAndTail(items);
    }
  }

  lemma NoMoreItems(buf: Bytes, pos: nat)
    requires At(buf, pos, EncodeItems([]) + [CHR_E])
    ensures ParseItems(buf, pos) == Ok([], pos + 1) && EncodeItems([]) == []
  {}

  lemma ItemAt(buf: Bytes, pos: nat, items: seq<Value>)
    requires items != [] && At(buf, pos, EncodeItems(items) + [CHR_E])
    ensures At(buf, pos, Encode(items[0]))
    ensures At(buf, pos + |Encode(items[0])|, EncodeItems(items[1..]) + [CHR_E])
    ensures |EncodeItems(items)| == |Encode(items[0])| + |EncodeItems(items[1..])|
  {
    var head, tail := Encode(items[0]), EncodeItems(items[1..]);
    assert EncodeItems(items) == head + tail;
    hide *;
    AtSplit3(buf, pos, head, tail, [CHR_E]);
  }

  lemma AtSplit3(buf: Bytes, pos: nat, a: Bytes, b: Bytes, c: Bytes)
    requires At(buf, pos, a + b + c)
    ensures At(buf, pos, a) && At(buf, pos + |a|, b + c)
  {
    hide At;
    assert a + b + c == a + (b + c);
    AtSplit(buf, pos, a, b + c);
  }

  lemma AtSplit4(buf: Bytes, pos: nat, a: Bytes, b: Bytes, c: Bytes, d: Bytes)
    requires At(buf, pos, a + b + c + d)
    ensures At(buf, pos, a) && At(buf, pos + |a|, b) && At(buf, pos + |a| + |b|, c + d)
  {
    hide At;
    assert a + b + c + d == a + b + (c + d);
    AtSplit3(buf, pos, a, b, c + d);
    AtSplit(buf, pos + |a|, b, c + d);
  }

  lemma PrependItem(buf: Bytes, pos: nat, v: Value)
    requires At(buf, pos, Encode(v)) && ParseAny(buf, pos) == Ok(v, pos + |Encode(v)|)
    requires ParseItems(buf, pos + |Encode(v)|).Ok?
    ensures var tail := ParseItems(buf, pos + |Encode(v)|); ParseItems(buf, pos) == Ok([v] + tail.value, tail.next)
  {
    NeverStartsWithE(v);
    hide Encode, ParseAny;
  }

  lemma NeverStartsWithE(v: Value)
    ensures Encode(v) != [] && Encode(v)[0] != CHR_E
  {
    if v.Str? { PyIntOfDecimal(|v.s|); assert Encode(v)[0] == Decimal(|v.s|)[0]; }
  }

  /** The entries listed in the order of `keys`. */
  ghost function Pairs(entries: map<Bytes, Value>, keys: seq<Bytes>): seq<Entry>
  {
    if keys == [] || keys[0] !in entries then [] else [(keys[0], entries[keys[0]])] + Pairs(entries, keys[1..])
  }

  lemma EntryAt(buf: Bytes, pos: nat, v: Value, keys: seq<Bytes>)
    requires v.Dict? && keys != [] && keys[0] in v.entries && At(buf, pos, EncodeEntries(v, keys) + [CHR_E])
    ensures var key, value, tail := EncodeStr(keys[0]), Encode(v.entries[keys[0]]), EncodeEntries(v, keys[1..]);
            && At(buf, pos, key) && At(buf, pos + |key|, value)
            && At(buf, pos + |key| + |value|, tail + [CHR_E])
            && |EncodeEntries(v, keys)| == |key| + |value| + |tail|
  {
    assert EncodeEntries(v, keys) == EncodeStr(keys[0]) + Encode(v.entries[keys[0]]) + EncodeEntries(v, keys[1..]);
    hide *;
    AtSplit4(buf, pos, EncodeStr(keys[0]), Encode(v.entries[keys[0]]), EncodeEntries(v, keys[1..]), [CHR_E]);
  }

  lemma PrependEntry(buf: Bytes, pos: nat, prev: Option<Bytes>, key: Bytes, value: Value, q: nat)
    requires At(buf, pos, EncodeStr(key)) && (prev.Some? ==> Lt(prev.value, key))
    requires ParseAny(buf, pos + |EncodeStr(key)|) == Ok(value, q) && ParseEntries(buf, q, Some(key)).Ok?
    ensures var tail := ParseEntries(buf, q, Some(key));
            ParseEntries(buf, pos, prev) == Ok([(key, value)] + tail.value, tail.next)
  {
    ParseStrAt(buf, pos, key);
    hide At, EncodeStr, ParseStr, ParseAny, Lt;
  }

  /** `keys` ascends from after `prev` and names entries. */
  ghost predicate Listed(entries: map<Bytes, Value>, keys: seq<Bytes>, prev: Option<Bytes>) {
    keys == [] ||
    (keys[0] in entries && (prev.Some? ==> Lt(prev.value, keys[0])) && Listed(entries, keys[1..], Some(keys[0])))
  }

  lemma {:induction false} AscendingIsListed(entries: map<Bytes, Value>, keys: seq<Bytes>, prev: Option<Bytes>)
    requires Ascending(keys) && (forall k :: k in keys ==> k in entries)
    requires prev.Some? && keys != [] ==> Lt(prev.value, keys[0])
    ensures Listed(entries, keys, prev)
  {
    if keys != [] { AscendingIsListed(entries, keys[1..], Some(keys[0])); }
  }

  lemma {:induction false} ParseEntriesAt(buf: Bytes, pos: nat, v: Value, keys: seq<Bytes>, prev: Option<Bytes>)
    requires v.Dict? && Listed(v.entries, keys, prev) && At(buf, pos, EncodeEntries(v, keys) + [CHR_E])
    ensures ParseEntries(buf, pos, prev) == Ok(Pairs(v.entries, keys), pos + |EncodeEntries(v, keys)| + 1)
    decreases v, 0, |keys|
  {
    hide At, Encode, EncodeStr, EncodeEntries, ParseAny, ParseEntries;
    if keys == [] {
      NoMoreEntries(buf, pos, prev, v);
    } else {
      EntryAt(buf, pos, v, keys);
      var k := keys[0];
      var p := pos + |EncodeStr(k)|;
      var q := p + |Encode(v.entries[k])|;
      ParseAnyAt(buf, p, v.entries[k]);
      ParseEntriesAt(buf, q, v, keys[1..], Some(k));
      PrependEntry(buf, pos, prev, k, v.entries[k], q);
    }
  }

  lemma NoMoreEntries(buf: Bytes, pos: nat, prev: Option<Bytes>, v: Value)
    requires v.Dict? && At(buf, pos, EncodeEntries(v, []) + [CHR_E])
    ensures ParseEntries(buf, pos, prev) == Ok([], pos + 1) && EncodeEntries(v, []) == []
  {}

  lemma {:induction false} PairsToMap(entries: map<Bytes, Value>, keys: seq<Bytes>)
    requires forall k :: k in keys ==> k in entries
    ensures forall k :: k in ToMap(Pairs(entries, keys)) <==> k in keys
    ensures forall k :: k in keys ==> ToMap(Pairs(entries, keys))[k] == entries[k]
  {
    if keys != [] {
      var tail := keys[1..];
      PairsToMap(entries, tail);
      assert Pairs(entries, keys)[1..] == Pairs(entries, tail);
      assert forall k :: k in keys <==> k == keys[0] || k in tail;
    }
  }

  lemma SortedPairsToMap(entries: map<Bytes, Value>)
    ensures ToMap(Pairs(entries, SortedKeys(entries.Keys))) == entries
  {
    SortedKeysAscend(entries.Keys);
    hide ToMap, Pairs, SortedKeys;
    PairsToMap(entries, SortedKeys(entries.Keys));
  }

  /** decode(encode(v)) == v. */
  lemma DecodeEncode(v: Value)
    ensures Decode(Encode(v)) == Some(v)
  {
    AtSlice(Encode(v), 0, Encode(v));
    ParseAnyAt(Encode(v), 0, v);
  }

  lemma HeadAndTail<T>(s: seq<T>)
    requires s != []
    ensures [s[0]] + s[1..] == s
  {}

  /** decode_all of concatenated encodings gives back exactly the values. */
  lemma {:induction false} DecodeAllAt(buf: Bytes, pos: nat, vs: seq<Value>)
    requires At(buf, pos, EncodeItems(vs)) && pos + |EncodeItems(vs)| == |buf|
    ensures DecodeAll(buf, pos) == Some(vs)
    decreases |vs|
  {
    hide At, Encode, ParseAny;
    if vs != [] {
      AtSplit(buf, pos, Encode(vs[0]), EncodeItems(vs[1..]));
      ParseAnyAt(buf, pos, vs[0]);
      DecodeAllAt(buf, pos + |Encode(vs[0])|, vs[1..]);
      HeadAndTail(vs);
    }
  }

  lemma DecodeAllOfConcatenation(vs: seq<Value>)
    ensures DecodeAll(EncodeItems(vs), 0) == Some(vs)
  {
    AtSlice(EncodeItems(vs), 0, EncodeItems(vs));
    DecodeAllAt(EncodeItems(vs), 0, vs);
  }

  /** No encoding is a proper prefix of another. */
  lemma PrefixFree(v: Value, w: Value)
    requires Encode(v) <= Encode(w)
    ensures v == w
  {
    AtSlice(Encode(w), 0, Encode(v));
    AtSlice(Encode(w), 0, Encode(w));
    ParseAnyAt(Encode(w), 0, v);
    ParseAnyAt(Encode(w), 0, w);
  }

  // ----- canonicity -------------------------------------------------------------------------

  /** Every numeral in the value that starts at `pos` is plain decimal. */
  predicate PlainAny(buf: Bytes, pos: nat)
    requires ParseAny(buf, pos).Ok?
    decreases |buf| - pos, 0
  {
    if buf[pos] == CHR_I then IsPlain(buf[pos + 1..ParseInt(buf, pos).next - 1])
    else if buf[pos] == CHR_L then PlainItems(buf, pos + 1)
    else if buf[pos] == CHR_D then PlainEntries(buf, pos + 1, None)
    else PlainStr(buf, pos)
  }

  predicate PlainStr(buf: Bytes, pos: nat)
    requires pos < |buf| && IsDigit(buf[pos]) && ParseStr(buf, pos).Ok?
  {
    IsPlain(buf[pos..ParseLength(buf, pos).next - 1])
  }

  predicate PlainItems(buf: Bytes, pos: nat)
    requires ParseItems(buf, pos).Ok?
    decreases |buf| - pos, 1
  {
    buf[pos] == CHR_E || (PlainAny(buf, pos) && PlainItems(buf, ParseAny(buf, pos).next))
  }

  predicate PlainEntries(buf: Bytes, pos: nat, prev: Option<Bytes>)
    requires ParseEntries(buf, pos, prev).Ok?
    decreases |buf| - pos, 1
  {
    buf[pos] == CHR_E ||
    var key := ParseStr(buf, pos);
    && PlainStr(buf, pos)
    && PlainAny(buf, key.next)
    && PlainEntries(buf, ParseAny(buf, key.next).next, Some(key.value))
  }

  /** `printed` re-prints buf[pos..next]: identically if `plain`, strictly shorter if not. */
  predicate Reprints(printed: Bytes, buf: Bytes, pos: nat, next: nat, plain: bool)
    requires pos <= next <= |buf|
  {
    if plain then printed == buf[pos..next] else |printed| < next - pos
  }

  lemma ReprintsConcat(a: Bytes, b: Bytes, buf: Bytes, pos: nat, mid: nat, next: nat, pa: bool, pb: bool)
    requires pos <= mid <= next <= |buf|
    requires Reprints(a, buf, pos, mid, pa) && Reprints(b, buf, mid, next, pb)
    ensures Reprints(a + b, buf, pos, next, pa && pb)
  {
    assert buf[pos..next] == buf[pos..mid] + buf[mid..next];
  }

  lemma ReprintStr(buf: Bytes, pos: nat)
    requires pos < |buf| && IsDigit(buf[pos]) && ParseStr(buf, pos).Ok?
    ensures var r := ParseStr(buf, pos); Reprints(EncodeStr(r.value), buf, pos, r.next, PlainStr(buf, pos))
  {
    var r, length := ParseStr(buf, pos), ParseLength(buf, pos);
    var colon := length.next - 1;
    var raw := buf[pos..colon];
    assert raw[0] == buf[pos];
    ReprintedNumeral(raw);
    ReprintsConcat(Decimal(|r.value|), [CHR_COLON], buf, pos, colon, length.next, IsPlain(raw), true);
    ReprintsConcat(Decimal(|r.value|) + [CHR_COLON], r.value, buf, pos, length.next, r.next, IsPlain(raw), true);
  }

  lemma ReprintInt(buf: Bytes, pos: nat)
    requires pos < |buf| && buf[pos] == CHR_I && ParseInt(buf, pos).Ok?
    ensures var r := ParseInt(buf, pos);
            Reprints(Encode(Int(r.value)), buf, pos, r.next, IsPlain(buf[pos + 1..r.next - 1]))
  {
    var r := ParseInt(buf, pos);
    var end := r.next - 1;
    var raw := buf[pos + 1..end];
    ReprintedNumeral(raw);
    ReprintsConcat([CHR_I], Decimal(r.value), buf, pos, pos + 1, end, true, IsPlain(raw));
    assert [CHR_E] == buf[end..r.next];
    ReprintsConcat([CHR_I] + Decimal(r.value), [CHR_E], buf, pos, end, r.next, IsPlain(raw), true);
  }

  /**
   * A value the decoder accepts re-prints to the very bytes it was read from when its numerals are
   * plain, and to strictly fewer bytes when one is not.
   */
  lemma {:induction false} ReprintAny(buf: Bytes, pos: nat)
    requires ParseAny(buf, pos).Ok?
    ensures var r := ParseAny(buf, pos); Reprints(Encode(r.value), buf, pos, r.next, PlainAny(buf, pos))
    decreases |buf| - pos, 0
  {
    if buf[pos] == CHR_I {
      ReprintInt(buf, pos);
    } else if buf[pos] == CHR_L {
      ReprintItems(buf, pos + 1);
      ReprintsBracketed(buf, pos, CHR_L, EncodeItems(ParseItems(buf, pos + 1).value), ParseAny(buf, pos).next,
                        PlainItems(buf, pos + 1));
    } else if buf[pos] == CHR_D {
      ReprintDict(buf, pos);
    } else {
      ReprintStr(buf, pos);
    }
  }

  lemma ReprintsBracketed(buf: Bytes, pos: nat, lead: byte, body: Bytes, next: nat, plain: bool)
    requires pos < next <= |buf| && buf[pos] == lead && Reprints(body + [CHR_E], buf, pos + 1, next, plain)
    ensures Reprints([lead] + body + [CHR_E], buf, pos, next, plain)
  {
    ReprintsConcat([lead], body + [CHR_E], buf, pos, pos + 1, next, true, plain);
    assert [lead] + body + [CHR_E] == [lead] + (body + [CHR_E]);
  }

  lemma {:induction false} ReprintDict(buf: Bytes, pos: nat)
    requires ParseAny(buf, pos).Ok? && buf[pos] == CHR_D
    ensures var r := ParseAny(buf, pos); Reprints(Encode(r.value), buf, pos, r.next, PlainAny(buf, pos))
    decreases |buf| - pos - 1, 2
  {
    var r := ParseEntries(buf, pos + 1, None);
    var keys, v := KeysOf(r.value), Dict(ToMap(r.value));
    EntriesAscend(buf, pos + 1, None);
    ToMapEntries(r.value);
    AscendingIsSorted(keys, v.entries.Keys);
    ReprintEntries(buf, pos + 1, None, v);
    ReprintsBracketed(buf, pos, CHR_D, EncodeEntries(v, keys), r.next, PlainEntries(buf, pos + 1, None));
  }

  lemma {:induction false} ReprintItems(buf: Bytes, pos: nat)
    requires ParseItems(buf, pos).Ok?
    ensures var r := ParseItems(buf, pos);
            Reprints(EncodeItems(r.value) + [CHR_E], buf, pos, r.next, PlainItems(buf, pos))
    decreases |buf| - pos, 1
  {
    if buf[pos] != CHR_E {
      var head := ParseAny(buf, pos);
      var tail := ParseItems(buf, head.next);
      ReprintAny(buf, pos);
      ReprintItems(buf, head.next);
      var items := [head.value] + tail.value;
      assert EncodeItems(items) + [CHR_E] == Encode(head.value) + (EncodeItems(tail.value) + [CHR_E]) by {
        assert items[1..] == tail.value;
      }
      ReprintsConcat(Encode(head.value), EncodeItems(tail.value) + [CHR_E], buf, pos, head.next, tail.next,
                     PlainAny(buf, pos), PlainItems(buf, head.next));
    }
  }

  function KeysOf(entries: seq<Entry>): (r: seq<Bytes>)
    ensures |r| == |entries| && forall i :: 0 <= i < |entries| ==> r[i] == entries[i].0
  {
    if entries == [] then [] else [entries[0].0] + KeysOf(entries[1..])
  }

  /** The decoder's order check makes the keys of a dictionary strictly ascending. */
  lemma {:induction false} EntriesAscend(buf: Bytes, pos: nat, prev: Option<Bytes>)
    requires ParseEntries(buf, pos, prev).Ok?
    ensures var keys := KeysOf(ParseEntries(buf, pos, prev).value);
            Ascending(keys) && (prev.Some? ==> forall k :: k in keys ==> Lt(prev.value, k))
    decreases |buf| - pos
  {
    if buf[pos] != CHR_E {
      var key := ParseStr(buf, pos);
      var value := ParseAny(buf, key.next);
      EntriesAscend(buf, value.next, Some(key.value));
      var tail := ParseEntries(buf, value.next, Some(key.value)).value;
      assert ([(key.value, value.value)] + tail)[1..] == tail;
      PrependAscending(key.value, KeysOf(tail), prev);
    }
  }

  lemma PrependAscending(key: Bytes, tail: seq<Bytes>, prev: Option<Bytes>)
    requires Ascending(tail) && (forall k :: k in tail ==> Lt(key, k)) && (prev.Some? ==> Lt(prev.value, key))
    ensures Ascending([key] + tail) && (prev.Some? ==> forall k :: k in [key] + tail ==> Lt(prev.value, k))
  {
    forall k | prev.Some? && k in [key] + tail ensures Lt(prev.value, k) {
      if k != key { LtTransitive(prev.value, key, k); }
    }
  }

  /** With ascending keys nothing in the list is overwritten by a later entry. */
  lemma {:induction false} ToMapEntries(entries: seq<Entry>)
    requires Ascending(KeysOf(entries))
    ensures forall k :: k in ToMap(entries) <==> k in KeysOf(entries)
    ensures forall i :: 0 <= i < |entries| ==>
              entries[i].0 in ToMap(entries) && ToMap(entries)[entries[i].0] == entries[i].1
  {
    hide Ascending;
    if entries != [] {
      var head, tail := entries[0], entries[1..];
      HeadIsNew(head.0, KeysOf(tail));
      ToMapEntries(tail);
      forall i | 0 <= i < |entries|
        ensures entries[i].0 in ToMap(entries) && ToMap(entries)[entries[i].0] == entries[i].1
      {
        if i > 0 {
          assert entries[i] == tail[i - 1];
          assert tail[i - 1].0 == KeysOf(tail)[i - 1];
        }
      }
    }
  }

  lemma HeadIsNew(key: Bytes, tail: seq<Bytes>)
    requires Ascending([key] + tail)
    ensures key !in tail && Ascending(tail)
  {
    var keys := [key] + tail;
    forall i, j | 0 <= i < j < |tail| ensures Lt(tail[i], tail[j]) {
      assert Lt(keys[i + 1], keys[j + 1]);
    }
    forall i | 0 <= i < |tail| ensures tail[i] != key {
      assert Lt(keys[0], keys[i + 1]);
      LtTrichotomy(key, tail[i]);
    }
  }

  lemma {:induction false} ReprintEntries(buf: Bytes, pos: nat, prev: Option<Bytes>, v: Value)
    requires ParseEntries(buf, pos, prev).Ok? && v.Dict?
    requires forall e :: e in ParseEntries(buf, pos, prev).value ==> e.0 in v.entries && v.entries[e.0] == e.1
    ensures var r := ParseEntries(buf, pos, prev);
            && (forall k :: k in KeysOf(r.value) ==> k in v.entries)
            && Reprints(EncodeEntries(v, KeysOf(r.value)) + [CHR_E], buf, pos, r.next, PlainEntries(buf, pos, prev))
    decreases |buf| - pos, 1
  {
    KeysInside(ParseEntries(buf, pos, prev).value, v);
    if buf[pos] != CHR_E {
      var key := ParseStr(buf, pos);
      var value := ParseAny(buf, key.next);
      var tail := ParseEntries(buf, value.next, Some(key.value));
      ReprintStr(buf, pos);
      ReprintAny(buf, key.next);
      var entry := (key.value, value.value);
      assert forall e :: e in [entry] + tail.value <==> e == entry || e in tail.value;
      ReprintEntries(buf, value.next, Some(key.value), v);
      assert ([entry] + tail.value)[1..] == tail.value;
      ReprintsEntry(buf, pos, key.next, value.next, tail.next, EncodeStr(key.value), Encode(value.value),
                    EncodeEntries(v, KeysOf(tail.value)), PlainStr(buf, pos), PlainAny(buf, key.next),
                    PlainEntries(buf, value.next, Some(key.value)));
    }
  }

  lemma KeysInside(entries: seq<Entry>, v: Value)
    requires v.Dict? && forall e :: e in entries ==> e.0 in v.entries
    ensures forall k :: k in KeysOf(entries) ==> k in v.entries
  {
    forall k | k in KeysOf(entries) ensures k in v.entries {
      var i :| 0 <= i < |entries| && KeysOf(entries)[i] == k;
      assert entries[i] in entries;
    }
  }

  lemma ReprintsEntry(buf: Bytes, pos: nat, p: nat, q: nat, next: nat, key: Bytes, value: Bytes, tail: Bytes,
                      plainKey: bool, plainValue: bool, plainTail: bool)
    requires pos <= p <= q <= next <= |buf|
    requires Reprints(key, buf, pos, p, plainKey) && Reprints(value, buf, p, q, plainValue)
    requires Reprints(tail + [CHR_E], buf, q, next, plainTail)
    ensures Reprints(key + value + tail + [CHR_E], buf, pos, next, plainKey && plainValue && plainTail)
  {
    ReprintsConcat(key, value, buf, pos, p, q, plainKey, plainValue);
    ReprintsConcat(key + value, tail + [CHR_E], buf, pos, q, next, plainKey && plainValue, plainTail);
    assert key + value + tail + [CHR_E] == key + value + (tail + [CHR_E]);
  }

  /** encode(decode(b)) == b for exactly those accepted inputs whose numerals are all plain. */
  lemma Canonical(data: Bytes)
    requires Decode(data).Some?
    ensures Encode(Decode(data).value) == data <==> PlainAny(data, 0)
  {
    ReprintAny(data, 0);
    assert data[0..|data|] == data;
  }

  // ----- numerals the encoder never writes --------------------------------------------------------------

  /** A numeral the decoder accepts between `i` and `e`. */
  predicate Accepted(raw: Bytes) {
    PyInt(raw).Some? && !HasLeadingZero(raw) && CHR_E !in raw
  }

  /** An accepted numeral, wherever it stands. */
  lemma ParseNumeralAt(buf: Bytes, pos: nat, raw: Bytes)
    requires Accepted(raw) && At(buf, pos, [CHR_I] + raw + [CHR_E])
    ensures ParseAny(buf, pos) == Ok(Int(PyInt(raw).value), pos + |raw| + 2)
    ensures PlainAny(buf, pos) <==> IsPlain(raw)
  {
    hide PyInt, IsPlain, HasLeadingZero, At, FindByte;
    AtBracketed(buf, pos, CHR_I, raw);
    FindByteAt(buf, pos + 1, raw, CHR_E);
    AtSplit(buf, pos + 1, raw, [CHR_E]);
    NumeralNotEmpty(raw);
    AtSlice(buf, pos + 1, raw);
    assert buf[pos + 1..pos + 1 + |raw|] == raw;
  }

  lemma NumeralNotEmpty(raw: Bytes)
    requires PyInt(raw).Some?
    ensures raw != []
  {}

  /** Any accepted numeral that is not plain is a whole input that decodes and re-encodes differently. */
  lemma NonPlainDecodes(raw: Bytes)
    requires Accepted(raw) && !IsPlain(raw)
    ensures var data := [CHR_I] + raw + [CHR_E];
            && Decode(data) == Some(Int(PyInt(raw).value)) && !PlainAny(data, 0)
            && Encode(Decode(data).value) != data
  {
    hide PyInt, IsPlain, HasLeadingZero;
    var data := [CHR_I] + raw + [CHR_E];
    AtSlice(data, 0, data);
    ParseNumeralAt(data, 0, raw);
    Canonical(data);
  }

  /** There are such numerals: `+5` and `1_0`. */
  lemma NonPlainNumerals()
    ensures Accepted([43, 53]) && PyInt([43, 53]) == Some(5) && !IsPlain([43, 53])
    ensures Accepted([49, 95, 48]) && PyInt([49, 95, 48]) == Some(10) && !IsPlain([49, 95, 48])
  {
    assert StripLeft([43, 53]) == [43, 53] && StripRight([43, 53]) == [43, 53];
    assert [43, 53][1..] == [53] && IsRun([53]) && [53][..0] == [];
    assert RunValue([53]) == 5;
    var raw: Bytes := [49, 95, 48];
    assert StripLeft(raw) == raw && StripRight(raw) == raw;
    assert raw[..2] == [49, 95] && raw[..1] == [49] && raw[..2][..1] == [49] && [49][..0] == [];
    assert IsRun([49]) && IsRun(raw);
    assert RunValue([49]) == 1 && RunValue([49, 95]) == 1;
    assert RunValue(raw) == 10;
  }
}
