/** The decoder's and encoder's loops, proved to compute the functions of module Bencode. */
module BencodeCodec {
  import opened Bytes
  import opened Numerals
  import opened Bencode

  // ----- decoding ---------------------------------------------------------------------------

  method FindByteFrom(buf: Bytes, b: byte, start: nat) returns (r: Option<nat>)
    ensures r == FindByte(buf, b, start)
  {
    var i := start;
    while i < |buf|
      invariant start <= i && (start <= |buf| ==> i <= |buf|)
      invariant FindByte(buf, b, start) == FindByte(buf, b, i)
    {
      if buf[i] == b { return Some(i); }
      i := i + 1;
    }
    return None;
  }

  method DecodeInt(buf: Bytes, pos: nat) returns (r: Parsed<int>)
    requires pos < |buf|
    ensures r == ParseInt(buf, pos)
  {
    var end := FindByteFrom(buf, CHR_E, pos + 1);
    if end.None? { return Fail; }
    var raw := buf[pos + 1..end.value];
    if raw == [] || (|raw| > 1 && raw[0] == 48) || (|raw| > 1 && raw[0] == MINUS && raw[1] == 48) { return Fail; }
    var value := PyInt(raw);
    if value.None? { return Fail; }
    return Ok(value.value, end.value + 1);
  }

  method DecodeBytes(buf: Bytes, pos: nat) returns (r: Parsed<Bytes>)
    requires pos < |buf| && IsDigit(buf[pos])
    ensures r == ParseStr(buf, pos)
  {
    var colon := FindByteFrom(buf, CHR_COLON, pos);
    if colon.None? { return Fail; }
    var raw := buf[pos..colon.value];
    if |raw| > 1 && raw[0] == 48 { return Fail; }
    var length := PyInt(raw);
    if length.None? { return Fail; }
    LeadingDigitIsUnsigned(raw);
    var start := colon.value + 1;
    var end := start + length.value;
    if end > |buf| { return Fail; }
    return Ok(buf[start..end], end);
  }

  method DecodeAny(buf: Bytes, pos: nat) returns (r: Parsed<Value>)
    ensures r == ParseAny(buf, pos)
    decreases |buf| - pos, 0
  {
    hide ParseInt, ParseStr, ParseItems, ParseEntries;
    if pos >= |buf| { return Fail; }
    var lead := buf[pos];
    if lead == CHR_I {
      var n := DecodeInt(buf, pos);
      return if n.Ok? then Ok(Int(n.value), n.next) else Fail;
    } else if lead == CHR_L {
      var items := DecodeList(buf, pos);
      return if items.Ok? then Ok(List(items.value), items.next) else Fail;
    } else if lead == CHR_D {
      var entries := DecodeDict(buf, pos);
      return if entries.Ok? then Ok(Dict(entries.value), entries.next) else Fail;
    } else if IsDigit(lead) {
      var s := DecodeBytes(buf, pos);
      return if s.Ok? then Ok(Str(s.value), s.next) else Fail;
    }
    return Fail;
  }

  function Prepend<T>(front: seq<T>, rest: Parsed<seq<T>>): Parsed<seq<T>> {
    if rest.Ok? then Ok(front + rest.value, rest.next) else Fail
  }

  lemma PrependOne<T>(front: seq<T>, x: T, rest: Parsed<seq<T>>)
    ensures Prepend(front, Prepend([x], rest)) == Prepend(front + [x], rest)
  {
    if rest.Ok? { assert front + ([x] + rest.value) == front + [x] + rest.value; }
  }

  lemma PrependNothing<T>(rest: Parsed<seq<T>>)
    ensures Prepend([], rest) == rest
  {
    if rest.Ok? { assert [] + rest.value == rest.value; }
  }

  lemma NextItem(buf: Bytes, pos: nat)
    requires pos < |buf| && buf[pos] != CHR_E && ParseAny(buf, pos).Ok?
    ensures var head := ParseAny(buf, pos); ParseItems(buf, pos) == Prepend([head.value], ParseItems(buf, head.next))
  {
    hide ParseAny;
  }

  method DecodeList(buf: Bytes, pos: nat) returns (r: Parsed<seq<Value>>)
    requires pos < |buf|
    ensures r == ParseItems(buf, pos + 1)
    decreases |buf| - pos - 1, 2
  {
    hide ParseAny;
    var p: nat, items := pos + 1, [];
    PrependNothing(ParseItems(buf, p));
    while true
      invariant pos < p <= |buf|
      invariant ParseItems(buf, pos + 1) == Prepend(items, ParseItems(buf, p))
      decreases |buf| - p
    {
      if p >= |buf| { return Fail; }
      assert items + [] == items;
      if buf[p] == CHR_E { return Ok(items, p + 1); }
      var value := DecodeAny(buf, p);
      if value.Fail? { return Fail; }
      NextItem(buf, p);
      PrependOne(items, value.value, ParseItems(buf, value.next));
      items, p := items + [value.value], value.next;
    }
  }

  lemma NextEntry(buf: Bytes, pos: nat, prev: Option<Bytes>)
    requires pos < |buf| && IsDigit(buf[pos]) && ParseStr(buf, pos).Ok?
    requires prev.Some? ==> Lt(prev.value, ParseStr(buf, pos).value)
    requires ParseAny(buf, ParseStr(buf, pos).next).Ok?
    ensures var key := ParseStr(buf, pos);
            var value := ParseAny(buf, key.next);
            ParseEntries(buf, pos, prev)
              == Prepend([(key.value, value.value)], ParseEntries(buf, value.next, Some(key.value)))
  {
    hide ParseAny, ParseStr, Lt;
  }

  lemma {:induction false} ToMapAppend(entries: seq<Entry>, e: Entry)
    ensures ToMap(entries + [e]) == ToMap(entries)[e.0 := e.1]
  {
    if entries == [] {
      assert entries + [e] == [e];
    } else {
      assert (entries + [e])[1..] == entries[1..] + [e];
      ToMapAppend(entries[1..], e);
    }
  }

  method DecodeDict(buf: Bytes, pos: nat) returns (r: Parsed<map<Bytes, Value>>)
    requires pos < |buf|
    ensures var entries := ParseEntries(buf, pos + 1, None);
            r == if entries.Ok? then Ok(ToMap(entries.value), entries.next) else Fail
    decreases |buf| - pos - 1, 2
  {
    hide ParseAny, ParseStr, Lt;
    var p: nat, result: map<Bytes, Value> := pos + 1, map[];
    var prevKey: Option<Bytes> := None;
    ghost var entries: seq<Entry> := [];
    PrependNothing(ParseEntries(buf, p, None));
    while true
      invariant pos < p <= |buf|
      invariant ParseEntries(buf, pos + 1, None) == Prepend(entries, ParseEntries(buf, p, prevKey))
      invariant result == ToMap(entries)
      decreases |buf| - p
    {
      if p >= |buf| { return Fail; }
      assert entries + [] == entries;
      if buf[p] == CHR_E { return Ok(result, p + 1); }
      if !IsDigit(buf[p]) { return Fail; }
      var key := DecodeBytes(buf, p);
      if key.Fail? { return Fail; }
      if prevKey.Some? && !Lt(prevKey.value, key.value) { return Fail; }
      var value := DecodeAny(buf, key.next);
      if value.Fail? { return Fail; }
      NextEntry(buf, p, prevKey);
      ghost var entry := (key.value, value.value);
      PrependOne(entries, entry, ParseEntries(buf, value.next, Some(key.value)));
      ToMapAppend(entries, entry);
      entries := entries + [entry];
      result, prevKey, p := result[key.value := value.value], Some(key.value), value.next;
    }
  }

  /** `decode`; None is its DecodeError. */
  method DecodeOne(data: Bytes) returns (r: Option<Value>)
    ensures r == Decode(data)
  {
    if data == [] { return None; }
    var v := DecodeAny(data, 0);
    return if v.Ok? && v.next == |data| then Some(v.value) else None;
  }

  method DecodeEvery(data: Bytes) returns (r: Option<seq<Value>>)
    ensures r == DecodeAll(data, 0)
  {
    hide ParseAny;
    var values, pos: nat := [], 0;
    assert DecodeAll(data, 0).Some? ==> [] + DecodeAll(data, 0).value == DecodeAll(data, 0).value;
    while pos < |data|
      invariant pos <= |data|
      invariant DecodeAll(data, 0)
             == (if DecodeAll(data, pos).Some? then Some(values + DecodeAll(data, pos).value) else None)
      decreases |data| - pos
    {
      var v := DecodeAny(data, pos);
      if v.Fail? { return None; }
      ghost var rest := DecodeAll(data, v.next);
      assert rest.Some? ==> values + ([v.value] + rest.value) == values + [v.value] + rest.value;
      values, pos := values + [v.value], v.next;
    }
    assert values + [] == values;
    return Some(values);
  }

  // ----- encoding ---------------------------------------------------------------------------

  ghost function Join(parts: seq<Bytes>): Bytes {
    if parts == [] then [] else Join(parts[..|parts| - 1]) + parts[|parts| - 1]
  }

  /** The list of fragments that the encoders share and append to. */
  class Parts {
    var items: seq<Bytes>

    ghost function Printed(): Bytes
      reads this
    {
      Join(items)
    }

    constructor ()
      ensures Printed() == []
    {
      items := [];
    }

    method Append(part: Bytes)
      modifies this
      ensures Printed() == old(Printed()) + part
    {
      items := items + [part];
      assert items[..|items| - 1] == old(items);
    }
  }

  method EncodeAny(v: Value, parts: Parts)
    modifies parts
    ensures parts.Printed() == old(parts.Printed()) + Encode(v)
    decreases v, 2, 0
  {
    match v
    case Int(n) => AppendInt(n, parts);
    case Str(s) => AppendBytes(s, parts);
    case List(items) => AppendList(items, parts);
    case Dict(_) => AppendDict(v, parts);
  }

  method AppendInt(n: int, parts: Parts)
    modifies parts
    ensures parts.Printed() == old(parts.Printed()) + Encode(Int(n))
  {
    hide Decimal;
    ghost var before := parts.Printed();
    parts.Append([CHR_I]);
    parts.Append(Decimal(n));
    parts.Append([CHR_E]);
    Assoc(before, [CHR_I], Decimal(n));
    Assoc(before, [CHR_I] + Decimal(n), [CHR_E]);
  }

  method AppendBytes(s: Bytes, parts: Parts)
    modifies parts
    ensures parts.Printed() == old(parts.Printed()) + EncodeStr(s)
  {
    hide Decimal;
    ghost var before := parts.Printed();
    parts.Append(Decimal(|s|));
    parts.Append([CHR_COLON]);
    parts.Append(s);
    Assoc(before, Decimal(|s|), [CHR_COLON]);
    Assoc(before, Decimal(|s|) + [CHR_COLON], s);
  }

  lemma {:induction false} EncodeItemsAppend(items: seq<Value>, v: Value)
    ensures EncodeItems(items + [v]) == EncodeItems(items) + Encode(v)
    decreases |items|
  {
    hide Encode;
    if items == [] {
      assert items + [v] == [v] && [v][1..] == [];
      assert Encode(v) + [] == [] + Encode(v);
    } else {
      assert (items + [v])[1..] == items[1..] + [v];
      EncodeItemsAppend(items[1..], v);
      Assoc(Encode(items[0]), EncodeItems(items[1..]), Encode(v));
    }
  }

  method AppendList(items: seq<Value>, parts: Parts)
    modifies parts
    ensures parts.Printed() == old(parts.Printed()) + Encode(List(items))
    decreases items, 1, 0
  {
    hide EncodeItems, Join;
    ghost var before := parts.Printed();
    parts.Append([CHR_L]);
    assert items[..0] == [] && EncodeItems([]) == [] by { EncodeNothing(); }
    assert before + ([CHR_L] + []) == before + [CHR_L];
    for i := 0 to |items|
      invariant parts.Printed() == before + ([CHR_L] + EncodeItems(items[..i]))
    {
      EncodeAny(items[i], parts);
      EncodeItemsAppend(items[..i], items[i]);
      assert items[..i] + [items[i]] == items[..i + 1];
      Assoc(before, [CHR_L] + EncodeItems(items[..i]), Encode(items[i]));
      Assoc([CHR_L], EncodeItems(items[..i]), Encode(items[i]));
    }
    assert items[..|items|] == items;
    parts.Append([CHR_E]);
    Assoc(before, [CHR_L] + EncodeItems(items), [CHR_E]);
  }

  lemma EncodeNothing()
    ensures EncodeItems([]) == []
    ensures forall v: Value :: v.Dict? ==> EncodeEntries(v, []) == []
  {}

  /** `sorted(keys)`: insertion into an ascending list, one key at a time. */
  method Sort(keys: set<Bytes>) returns (ks: seq<Bytes>)
    ensures ks == SortedKeys(keys)
  {
    hide Lt;
    ks := [];
    var rest := keys;
    while rest != {}
      invariant rest <= keys && Ascending(ks) && forall k :: k in ks <==> k in keys - rest
      decreases rest
    {
      var key :| key in rest;
      var i := 0;
      while i < |ks| && Lt(ks[i], key)
        invariant 0 <= i <= |ks| && forall j :: 0 <= j < i ==> Lt(ks[j], key)
      {
        i := i + 1;
      }
      InsertAscends(ks, i, key);
      ks, rest := ks[..i] + [key] + ks[i..], rest - {key};
    }
    AscendingIsSorted(ks, keys);
  }

  lemma InsertAscends(ks: seq<Bytes>, i: nat, key: Bytes)
    requires Ascending(ks) && key !in ks && i <= |ks| && (forall j :: 0 <= j < i ==> Lt(ks[j], key))
    requires i < |ks| ==> !Lt(ks[i], key)
    ensures Ascending(ks[..i] + [key] + ks[i..])
    ensures forall k :: k in ks[..i] + [key] + ks[i..] <==> k == key || k in ks
  {
    hide Lt;
    forall j | i <= j < |ks| ensures Lt(key, ks[j]) {
      LtTrichotomy(key, ks[i]);
      if j > i { LtTransitive(key, ks[i], ks[j]); }
    }
    assert ks == ks[..i] + ks[i..];
  }

  lemma {:induction false} EncodeEntriesAppend(v: Value, keys: seq<Bytes>, k: Bytes)
    requires v.Dict? && k in v.entries && forall x :: x in keys ==> x in v.entries
    ensures EncodeEntries(v, keys + [k]) == EncodeEntries(v, keys) + EncodeStr(k) + Encode(v.entries[k])
    decreases |keys|
  {
    hide Encode, EncodeStr;
    var last := EncodeStr(k) + Encode(v.entries[k]);
    Assoc(EncodeEntries(v, keys), EncodeStr(k), Encode(v.entries[k]));
    if keys == [] {
      assert keys + [k] == [k] && [k][1..] == [];
      assert last + [] == [] + last;
    } else {
      assert (keys + [k])[1..] == keys[1..] + [k];
      EncodeEntriesAppend(v, keys[1..], k);
      Assoc(EncodeEntries(v, keys[1..]), EncodeStr(k), Encode(v.entries[k]));
      Assoc(EncodeStr(keys[0]) + Encode(v.entries[keys[0]]), EncodeEntries(v, keys[1..]), last);
    }
  }

  method AppendDict(v: Value, parts: Parts)
    requires v.Dict?
    modifies parts
    ensures parts.Printed() == old(parts.Printed()) + Encode(v)
    decreases v, 1, 0
  {
    hide EncodeEntries, EncodeStr, SortedKeys, Join;
    ghost var before := parts.Printed();
    parts.Append([CHR_D]);
    var keys := Sort(v.entries.Keys);
    SortedKeysAscend(v.entries.Keys);
    assert keys[..0] == [] && EncodeEntries(v, []) == [] by { EncodeNothing(); }
    assert before + ([CHR_D] + []) == before + [CHR_D];
    for i := 0 to |keys|
      invariant parts.Printed() == before + ([CHR_D] + EncodeEntries(v, keys[..i]))
    {
      assert keys[i] in keys;
      AppendBytes(keys[i], parts);
      EncodeAny(v.entries[keys[i]], parts);
      AppendedEntry(v, keys, i, before);
    }
    assert keys[..|keys|] == keys;
    parts.Append([CHR_E]);
    Assoc(before, [CHR_D] + EncodeEntries(v, keys), [CHR_E]);
  }

  lemma AppendedEntry(v: Value, keys: seq<Bytes>, i: nat, before: Bytes)
    requires v.Dict? && i < |keys| && forall k :: k in keys ==> k in v.entries
    ensures before + ([CHR_D] + EncodeEntries(v, keys[..i])) + EncodeStr(keys[i]) + Encode(v.entries[keys[i]])
         == before + ([CHR_D] + EncodeEntries(v, keys[..i + 1]))
  {
    hide EncodeEntries, EncodeStr, Encode;
    assert keys[..i] + [keys[i]] == keys[..i + 1];
    EncodeEntriesAppend(v, keys[..i], keys[i]);
    var so, key, value := EncodeEntries(v, keys[..i]), EncodeStr(keys[i]), Encode(v.entries[keys[i]]);
    assert before + ([CHR_D] + so) + key + value == before + ([CHR_D] + (so + key + value));
  }

  /** `encode`. */
  method EncodeValue(v: Value) returns (data: Bytes)
    ensures data == Encode(v)
  {
    var parts := new Parts();
    EncodeAny(v, parts);
    data := [];
    for i := 0 to |parts.items|
      invariant data == Join(parts.items[..i])
    {
      assert parts.items[..i + 1][..i] == parts.items[..i];
      data := data + parts.items[i];
    }
    assert parts.items[..|parts.items|] == parts.items;
    assert [] + Encode(v) == Encode(v);
  }
}
