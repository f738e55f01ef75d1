/**
 * The storage backends over a file system that maps paths to byte strings: DiskStorage spreads the
 * torrent's linear address space over its files, CompactStorage keeps it in one blob.
 */
module Storage {
  import opened Bytes

  type Path = Bytes
  type Files = map<Path, Bytes>

  // ----- the file operations both backends sit on ---------------------------------------------------

  /** `_sync_read`; None is its OSError for a missing file or a short read. */
  function ReadFile(files: Files, path: Path, offset: nat, length: nat): Option<Bytes> {
    if path !in files || |Slice(files[path], offset, offset + length)| != length then None
    else Some(Slice(files[path], offset, offset + length))
  }

  /** `_sync_write`: a missing file is created, a gap is filled with zeros. */
  function WriteFile(files: Files, path: Path, offset: nat, data: Bytes): Files {
    files[path := Overwrite(if path in files then files[path] else [], offset, data)]
  }

  /** `_sync_ensure`: an existing file is left as it is, whatever its size. */
  function EnsureFile(files: Files, path: Path, length: nat): Files {
    if path in files then files else files[path := Zeros(length)]
  }

  class FileQueue {
    var files: Files

    constructor (files: Files)
      ensures this.files == files
    {
      this.files := files;
    }

    method Read(path: Path, offset: nat, length: nat) returns (r: Option<Bytes>)
      ensures r == ReadFile(files, path, offset, length)
    {
      if path !in files { return None; }
      var data := Slice(files[path], offset, offset + length);
      return if |data| != length then None else Some(data);
    }

    method Write(path: Path, offset: nat, data: Bytes)
      modifies this
      ensures files == WriteFile(old(files), path, offset, data)
    {
      var content := if path in files then files[path] else [];
      files := files[path := Overwrite(content, offset, data)];
    }

    method Ensure(path: Path, length: nat)
      modifies this
      ensures files == EnsureFile(old(files), path, length)
    {
      if path !in files { files := files[path := Zeros(length)]; }
    }
  }

  // ----- the address space ------------------------------------------------------------------------

  datatype FileSlice = FileSlice(path: Path, torrentOffset: nat, length: nat)

  /** The start of a file, as much of it as the slice covers. */
  function Part(s: FileSlice, files: Files): Bytes {
    if s.path in files then Slice(files[s.path], 0, s.length) else []
  }

  /** The paths of the slices that hold any bytes. */
  function Solid(slices: seq<FileSlice>): set<Path> {
    set s | s in slices && s.length > 0 :: s.path
  }

  /** Consecutive slices from `base` on, each covered by its file, no two non-empty ones by the same. */
  predicate LaidOut(slices: seq<FileSlice>, files: Files, base: nat) {
    slices == [] ||
    var s := slices[0];
    && s.torrentOffset == base
    && s.path in files && |files[s.path]| >= s.length
    && (s.length > 0 ==> s.path !in Solid(slices[1..]))
    && LaidOut(slices[1..], files, base + s.length)
  }

  /** The bytes the slices present, one file after the other. */
  function Flat(slices: seq<FileSlice>, files: Files): Bytes {
    if slices == [] then [] else Part(slices[0], files) + Flat(slices[1..], files)
  }

  /** Slices one behind the other. */
  predicate Placed(slices: seq<FileSlice>, base: nat) {
    slices == [] || (slices[0].torrentOffset == base && Placed(slices[1..], base + slices[0].length))
  }

  /** Every file is at least as long as its slice, and no two non-empty slices share one. */
  ghost predicate Fits(slices: seq<FileSlice>, files: Files) {
    && (forall i :: 0 <= i < |slices| ==> slices[i].path in files && |files[slices[i].path]| >= slices[i].length)
    && forall i, j :: 0 <= i < j < |slices| && slices[i].length > 0 && slices[j].length > 0 ==>
         slices[i].path != slices[j].path
  }

  lemma FitsCons(slices: seq<FileSlice>, files: Files)
    requires slices != []
    ensures var s := slices[0];
            Fits(slices, files) <==>
              && s.path in files && |files[s.path]| >= s.length
              && (s.length > 0 ==> s.path !in Solid(slices[1..])) && Fits(slices[1..], files)
  {
    var s, rest := slices[0], slices[1..];
    if Fits(slices, files) {
      forall i | 0 <= i < |rest| ensures rest[i] == slices[i + 1] {}
    } else if Fits(rest, files) && s.path in files && |files[s.path]| >= s.length {
      assert forall i :: 0 < i < |slices| ==> slices[i] == rest[i - 1];
      if s.length > 0 {
        var j :| 0 < j < |slices| && slices[j].length > 0 && slices[j].path == s.path;
        assert rest[j - 1] in rest;
      }
    }
  }

  /** The layout is sound exactly when the slices follow one another and fit their files. */
  lemma {:induction false} LaidOutIff(slices: seq<FileSlice>, files: Files, base: nat)
    ensures LaidOut(slices, files, base) <==> Placed(slices, base) && Fits(slices, files)
    decreases |slices|
  {
    if slices != [] {
      FitsCons(slices, files);
      LaidOutIff(slices[1..], files, base + slices[0].length);
    }
  }

  /** `_slices_for`. */
  function SlicesFor(slices: seq<FileSlice>, offset: nat, end: nat): seq<FileSlice> {
    if slices == [] then []
    else
      var rest := SlicesFor(slices[1..], offset, end);
      if slices[0].torrentOffset < end && slices[0].torrentOffset + slices[0].length > offset then [slices[0]] + rest
      else rest
  }

  function Into(s: FileSlice, offset: nat): nat {
    if s.torrentOffset <= offset then offset - s.torrentOffset else 0
  }

  function Available(s: FileSlice, offset: nat): nat {
    if Into(s, offset) <= s.length then s.length - Into(s, offset) else 0
  }

  /** The loop of `DiskStorage.read` over the overlapping slices. */
  function ReadSlices(slices: seq<FileSlice>, files: Files, offset: nat, remaining: nat): Option<Bytes> {
    if slices == [] then Some([])
    else
      var s := slices[0];
      var n := Min(remaining, Available(s, offset));
      var data := ReadFile(files, s.path, Into(s, offset), n);
      if data.None? then None
      else if n == remaining then data
      else
        var rest := ReadSlices(slices[1..], files, offset + n, remaining - n);
        if rest.None? then None else Some(data.value + rest.value)
  }

  /** The loop of `DiskStorage.write`. */
  function WriteSlices(slices: seq<FileSlice>, files: Files, offset: nat, data: Bytes): Files
    decreases |slices|
  {
    if slices == [] then files
    else
      var s := slices[0];
      var n := Min(|data|, Available(s, offset));
      var files' := WriteFile(files, s.path, Into(s, offset), data[..n]);
      if n == |data| then files' else WriteSlices(slices[1..], files', offset + n, data[n..])
  }

  // ----- reading --------------------------------------------------------------------------------------

  lemma {:induction false} LaterSlices(slices: seq<FileSlice>, base: nat)
    requires Placed(slices, base)
    ensures forall s :: s in slices ==> base <= s.torrentOffset
    decreases |slices|
  {
    if slices != [] {
      LaterSlices(slices[1..], base + slices[0].length);
      assert slices == [slices[0]] + slices[1..];
    }
  }

  lemma {:induction false} NoneBeyond(slices: seq<FileSlice>, offset: nat, end: nat)
    requires forall s :: s in slices ==> end <= s.torrentOffset
    ensures SlicesFor(slices, offset, end) == []
    decreases |slices|
  {
    if slices != [] { NoneBeyond(slices[1..], offset, end); }
  }

  lemma SliceOfConcat(a: Bytes, b: Bytes, from: nat, to: nat)
    requires from <= to
    ensures from >= |a| ==> Slice(a + b, from, to) == Slice(b, from - |a|, to - |a|)
    ensures to <= |a| ==> Slice(a + b, from, to) == a[from..to]
    ensures from <= |a| <= to ==> Slice(a + b, from, to) == a[from..] + Slice(b, 0, to - |a|)
  {}

  function Join(a: Bytes, b: Option<Bytes>): Option<Bytes> {
    if b.None? then None else Some(a + b.value)
  }

  lemma PartSlice(s: FileSlice, files: Files, into: nat, n: nat)
    requires s.path in files && |files[s.path]| >= s.length && into + n <= s.length
    ensures |Part(s, files)| == s.length
    ensures ReadFile(files, s.path, into, n) == Some(Part(s, files)[into..into + n])
  {
    assert Slice(files[s.path], into, into + n) == Part(s, files)[into..into + n];
  }

  lemma ReadStep(s: FileSlice, chosen: seq<FileSlice>, files: Files, offset: nat, remaining: nat)
    requires s.path in files && |files[s.path]| >= s.length && s.torrentOffset <= offset <= s.torrentOffset + s.length
    ensures |Part(s, files)| == s.length
    ensures var file, into := Part(s, files), offset - s.torrentOffset;
            ReadSlices([s] + chosen, files, offset, remaining)
              == if into + remaining <= s.length then Some(file[into..into + remaining])
                 else
                   Join(file[into..],
                        ReadSlices(chosen, files, s.torrentOffset + s.length, into + remaining - s.length))
  {
    hide Part, ReadFile;
    var into := offset - s.torrentOffset;
    var n := Min(remaining, s.length - into);
    assert ([s] + chosen)[1..] == chosen;
    PartSlice(s, files, into, n);
    if into + remaining > s.length { assert Part(s, files)[into..into + n] == Part(s, files)[into..]; }
  }

  lemma LaidOutHead(slices: seq<FileSlice>, files: Files, base: nat)
    requires LaidOut(slices, files, base) && slices != []
    ensures var s := slices[0];
            && s.torrentOffset == base && s.path in files && |files[s.path]| >= s.length == |Part(s, files)|
            && LaidOut(slices[1..], files, base + s.length)
            && Flat(slices, files) == Part(s, files) + Flat(slices[1..], files)
  {}

  lemma NoSlices(files: Files, offset: nat, length: nat, from: nat, to: nat)
    ensures ReadSlices([], files, offset, length) == Some([])
    ensures Flat([], files) == [] && Slice([], from, to) == []
  {}

  /** Reading on from the start of a slice; the list was selected for an earlier offset. */
  lemma {:induction false} ReadFromStart(slices: seq<FileSlice>, files: Files, base: nat, first: nat, length: nat)
    requires LaidOut(slices, files, base) && first <= base && length > 0
    ensures ReadSlices(SlicesFor(slices, first, base + length), files, base, length)
         == Some(Slice(Flat(slices, files), 0, length))
    decreases |slices|
  {
    hide Slice, ReadSlices, LaidOut, Flat, Part;
    if slices == [] {
      NoSlices(files, base, length, 0, length);
    } else {
      LaidOutHead(slices, files, base);
      var s, rest := slices[0], slices[1..];
      var file, flat := Part(s, files), Flat(rest, files);
      SliceOfConcat(file, flat, 0, length);
      ReadStep(s, SlicesFor(rest, first, base + length), files, base, length);
      if s.length < length { ReadFromStart(rest, files, base + s.length, first, length - s.length); }
      WholeFile(file, flat, s.length, length);
    }
  }

  lemma WholeFile(file: Bytes, flat: Bytes, n: nat, length: nat)
    requires |file| == n
    ensures file[0..] == file && (n < length && n == 0 ==> file + Slice(flat, 0, length) == Slice(flat, 0, length))
  {}

  lemma SelectHead(slices: seq<FileSlice>, offset: nat, end: nat)
    requires slices != []
    ensures var s, chosen := slices[0], SlicesFor(slices[1..], offset, end);
            SlicesFor(slices, offset, end)
              == if s.torrentOffset < end && s.torrentOffset + s.length > offset then [s] + chosen else chosen
  {}

  lemma SelectNone(offset: nat, end: nat)
    ensures SlicesFor([], offset, end) == []
  {}

  lemma JoinSome(a: Bytes, b: Bytes)
    ensures Join(a, Some(b)) == Some(a + b)
  {}

  lemma ReadNothing(slices: seq<FileSlice>, files: Files, base: nat)
    requires LaidOut(slices, files, base)
    ensures ReadSlices(SlicesFor(slices, base, base), files, base, 0) == Some(Slice(Flat(slices, files), 0, 0))
  {
    LaidOutIff(slices, files, base);
    LaterSlices(slices, base);
    NoneBeyond(slices, base, base);
  }

  /** `read` returns exactly the requested part of the linear space, as far as it exists. */
  lemma {:induction false} ReadIsFlat(slices: seq<FileSlice>, files: Files, base: nat, offset: nat, length: nat)
    requires LaidOut(slices, files, base) && base <= offset
    ensures ReadSlices(SlicesFor(slices, offset, offset + length), files, offset, length)
         == Some(Slice(Flat(slices, files), offset - base, offset - base + length))
    decreases |slices|
  {
    hide Slice, ReadSlices, LaidOut, Flat, SlicesFor, Join, Part;
    if slices == [] {
      SelectNone(offset, offset + length);
      NoSlices(files, offset, length, offset - base, offset - base + length);
    } else if base >= offset + length {
      ReadNothing(slices, files, base);
    } else {
      LaidOutHead(slices, files, base);
      SelectHead(slices, offset, offset + length);
      var s, rest := slices[0], slices[1..];
      var file, into := Part(s, files), offset - base;
      SliceOfConcat(file, Flat(rest, files), into, into + length);
      if base + s.length <= offset {
        ReadIsFlat(rest, files, base + s.length, offset, length);
      } else {
        ReadStep(s, SlicesFor(rest, offset, offset + length), files, offset, length);
        if into + length > s.length {
          ReadFromStart(rest, files, base + s.length, offset, into + length - s.length);
          JoinSome(file[into..], Slice(Flat(rest, files), 0, into + length - s.length));
        }
      }
    }
  }

  // ----- writing --------------------------------------------------------------------------------------

  /** The linear space after a write: bytes past its end are dropped. */
  function Patch(flat: Bytes, at: nat, data: Bytes): Bytes {
    if at >= |flat| then flat
    else
      var n := Min(|data|, |flat| - at);
      flat[..at] + data[..n] + flat[at + n..]
  }

  /** No file comes, goes or changes its size, and only the named ones may change their contents. */
  ghost predicate Untouched(files: Files, files': Files, except: set<Path>) {
    forall p :: && (p in files <==> p in files')
                && (p in files ==> |files[p]| == |files'[p]| && (p !in except ==> files[p] == files'[p]))
  }

  /** `files'` is `files` with `data` written at `at` in the space the slices present, and nothing else. */
  ghost predicate Written(slices: seq<FileSlice>, files: Files, files': Files, base: nat, at: nat, data: Bytes) {
    && LaidOut(slices, files', base)
    && Flat(slices, files') == Patch(Flat(slices, files), at, data)
    && Untouched(files, files', Solid(slices))
  }

  lemma {:induction false} FlatSame(slices: seq<FileSlice>, files: Files, files': Files, base: nat, changed: set<Path>)
    requires LaidOut(slices, files, base) && Untouched(files, files', changed) && changed !! Solid(slices)
    ensures LaidOut(slices, files', base) && Flat(slices, files') == Flat(slices, files)
    decreases |slices|
  {
    if slices != [] {
      SolidCons(slices);
      assert Part(slices[0], files') == Part(slices[0], files);
      FlatSame(slices[1..], files, files', base + slices[0].length, changed);
    }
  }

  /** The file a slice may change: none, if the slice is empty. */
  function Own(s: FileSlice): set<Path> {
    if s.length > 0 then {s.path} else {}
  }

  lemma SolidCons(slices: seq<FileSlice>)
    requires slices != []
    ensures Solid(slices) == Own(slices[0]) + Solid(slices[1..])
  {
    assert slices == [slices[0]] + slices[1..];
  }

  lemma SolidApart(slices: seq<FileSlice>, files: Files, base: nat)
    requires slices != [] && LaidOut(slices, files, base)
    ensures Solid(slices) == Own(slices[0]) + Solid(slices[1..]) && Own(slices[0]) !! Solid(slices[1..])
  {
    SolidCons(slices);
  }

  lemma LaidOutCons(slices: seq<FileSlice>, files: Files, files': Files, base: nat)
    requires slices != [] && LaidOut(slices, files, base)
    requires var s := slices[0];
             s.path in files' && |files'[s.path]| >= s.length && LaidOut(slices[1..], files', base + s.length)
    ensures LaidOut(slices, files', base)
    ensures Flat(slices, files') == Part(slices[0], files') + Flat(slices[1..], files')
  {}

  lemma OverwriteInside(file: Bytes, into: nat, data: Bytes)
    requires into + |data| <= |file|
    ensures Overwrite(file, into, data) == file[..into] + data + file[into + |data|..]
  {}

  /** A write inside a slice changes what the slice presents, and at most its own file. */
  lemma PartWritten(s: FileSlice, files: Files, into: nat, data: Bytes)
    requires s.path in files && |files[s.path]| >= s.length && into + |data| <= s.length
    ensures var files' := WriteFile(files, s.path, into, data);
            && Untouched(files, files', Own(s))
            && Part(s, files') == Overwrite(Part(s, files), into, data)
            && (data == [] ==> files' == files)
  {
    var file := files[s.path];
    OverwriteInside(file, into, data);
    OverwriteInside(Part(s, files), into, data);
    var files' := WriteFile(files, s.path, into, data);
    assert Part(s, files') == Overwrite(Part(s, files), into, data);
    if data == [] { assert files' == files; }
  }

  lemma WriteStep(s: FileSlice, chosen: seq<FileSlice>, files: Files, offset: nat, data: Bytes)
    requires s.path in files && |files[s.path]| >= s.length && s.torrentOffset <= offset <= s.torrentOffset + s.length
    ensures var into := offset - s.torrentOffset;
            WriteSlices([s] + chosen, files, offset, data)
              == if into + |data| <= s.length then WriteFile(files, s.path, into, data)
                 else WriteSlices(chosen, WriteFile(files, s.path, into, data[..s.length - into]),
                                  s.torrentOffset + s.length, data[s.length - into..])
  {
    assert ([s] + chosen)[1..] == chosen;
    assert data[..|data|] == data;
  }

  lemma PatchHead(file: Bytes, flat: Bytes, into: nat, data: Bytes)
    requires into + |data| <= |file|
    ensures Overwrite(file, into, data) + flat == Patch(file + flat, into, data)
  {
    hide Overwrite, Patch;
    OverwriteInside(file, into, data);
    PatchInside(file + flat, into, data);
    GlueHead(file, flat, into, data);
  }

  lemma PatchInside(flat: Bytes, at: nat, data: Bytes)
    requires at + |data| <= |flat|
    ensures Patch(flat, at, data) == flat[..at] + data + flat[at + |data|..]
  {
    assert data[..|data|] == data;
    if at == |flat| { assert flat == flat[..at] + [] + flat[at..]; }
  }

  lemma GlueHead(file: Bytes, flat: Bytes, into: nat, data: Bytes)
    requires into + |data| <= |file|
    ensures file[..into] + data + file[into + |data|..] + flat
         == (file + flat)[..into] + data + (file + flat)[into + |data|..]
  {
    assert (file + flat)[into + |data|..] == file[into + |data|..] + flat;
    assert (file + flat)[..into] == file[..into];
  }

  lemma PatchBoth(file: Bytes, flat: Bytes, into: nat, data: Bytes)
    requires into <= |file| < into + |data|
    ensures var n := |file| - into;
            Overwrite(file, into, data[..n]) + Patch(flat, 0, data[n..]) == Patch(file + flat, into, data)
  {
    hide Overwrite, Patch;
    var n := |file| - into;
    OverwriteInside(file, into, data[..n]);
    if flat == [] {
      PatchToEnd(file, into, data, n);
      PatchEmpty(data[n..]);
      GlueEnd(file, into, data, n);
    } else {
      var m := Min(|data| - n, |flat|);
      PatchParts(flat, 0, data[n..], m);
      PatchParts(file + flat, into, data, n + m);
      GlueBoth(file, flat, into, data, n, m);
    }
  }

  lemma PatchParts(flat: Bytes, at: nat, data: Bytes, n: nat)
    requires at < |flat| && n == Min(|data|, |flat| - at)
    ensures Patch(flat, at, data) == flat[..at] + data[..n] + flat[at + n..]
  {}

  lemma PatchToEnd(flat: Bytes, at: nat, data: Bytes, n: nat)
    requires at <= |flat| && n == |flat| - at < |data|
    ensures Patch(flat, at, data) == flat[..at] + data[..n]
  {}

  lemma PatchEmpty(data: Bytes)
    ensures Patch([], 0, data) == []
  {}

  lemma GlueEnd(file: Bytes, into: nat, data: Bytes, n: nat)
    requires into + n == |file| && n <= |data|
    ensures file[..into] + data[..n] + file[into + n..] + [] == file[..into] + data[..n] && file + [] == file
  {}

  lemma GlueBoth(file: Bytes, flat: Bytes, into: nat, data: Bytes, n: nat, m: nat)
    requires into + n == |file| && n + m <= |data| && m <= |flat|
    ensures (file[..into] + data[..n] + file[into + n..]) + (flat[..0] + data[n..][..m] + flat[0 + m..])
         == (file + flat)[..into] + data[..n + m] + (file + flat)[into + (n + m)..]
  {
    assert (file + flat)[into + (n + m)..] == flat[m..];
    assert data[..n + m] == data[..n] + data[n..][..m];
    assert (file + flat)[..into] == file[..into];
  }

  lemma PatchTail(file: Bytes, flat: Bytes, at: nat, data: Bytes)
    requires at >= |file|
    ensures file + Patch(flat, at - |file|, data) == Patch(file + flat, at, data)
  {
    var all, k := file + flat, at - |file|;
    if k < |flat| {
      var n := Min(|data|, |flat| - k);
      assert all[..at] == file + flat[..k];
      assert all[at + n..] == flat[k + n..];
    }
  }

  /** The whole write falls into the first file. */
  lemma WrittenInHead(slices: seq<FileSlice>, files: Files, base: nat, into: nat, data: Bytes)
    requires slices != [] && LaidOut(slices, files, base) && into + |data| <= slices[0].length
    ensures Written(slices, files, WriteFile(files, slices[0].path, into, data), base, into, data)
  {
    hide LaidOut, Flat, Patch, Overwrite, Part, WriteFile, Solid;
    var s, rest := slices[0], slices[1..];
    var files' := WriteFile(files, s.path, into, data);
    LaidOutHead(slices, files, base);
    SolidApart(slices, files, base);
    PartWritten(s, files, into, data);
    PatchHead(Part(s, files), Flat(rest, files), into, data);
    FlatSame(rest, files, files', base + s.length, Own(s));
    LaidOutCons(slices, files, files', base);
  }

  lemma UntouchedJoin(a: Files, b: Files, c: Files, x: set<Path>, y: set<Path>)
    requires Untouched(a, b, x) && Untouched(b, c, y)
    ensures Untouched(a, c, x + y)
  {}

  lemma PartSame(s: FileSlice, files: Files, files': Files, changed: set<Path>)
    requires s.path in files && Untouched(files, files', changed) && Own(s) !! changed
    ensures s.path in files' && Part(s, files') == Part(s, files)
  {}

  /** The write fills the first file to its end and goes on in the next ones. */
  lemma WrittenAcross(slices: seq<FileSlice>, files: Files, files': Files, base: nat, into: nat, data: Bytes)
    requires slices != [] && LaidOut(slices, files, base) && into <= slices[0].length < into + |data|
    requires var s, n := slices[0], slices[0].length - into;
             Written(slices[1..], WriteFile(files, s.path, into, data[..n]), files', base + s.length, 0, data[n..])
    ensures Written(slices, files, files', base, into, data)
  {
    hide LaidOut, Flat, Patch, Overwrite, Part, WriteFile, Solid;
    var s, rest, n := slices[0], slices[1..], slices[0].length - into;
    var files1 := WriteFile(files, s.path, into, data[..n]);
    LaidOutHead(slices, files, base);
    SolidApart(slices, files, base);
    PartWritten(s, files, into, data[..n]);
    FlatSame(rest, files, files1, base + s.length, Own(s));
    PatchBoth(Part(s, files), Flat(rest, files), into, data);
    PartSame(s, files1, files', Solid(rest));
    UntouchedJoin(files, files1, files', Own(s), Solid(rest));
    LaidOutCons(slices, files, files', base);
  }

  /** The write starts after the first file. */
  lemma WrittenAfter(slices: seq<FileSlice>, files: Files, files': Files, base: nat, at: nat, data: Bytes)
    requires slices != [] && LaidOut(slices, files, base) && at >= slices[0].length
    requires Written(slices[1..], files, files', base + slices[0].length, at - slices[0].length, data)
    ensures Written(slices, files, files', base, at, data)
  {
    hide LaidOut, Flat, Patch, Part, Solid;
    var s, rest := slices[0], slices[1..];
    LaidOutHead(slices, files, base);
    SolidApart(slices, files, base);
    PatchTail(Part(s, files), Flat(rest, files), at, data);
    PartSame(s, files, files', Solid(rest));
    LaidOutCons(slices, files, files', base);
  }

  lemma NothingWritten(slices: seq<FileSlice>, files: Files, base: nat, at: nat, data: Bytes)
    requires LaidOut(slices, files, base) && (data == [] || slices == [])
    ensures Written(slices, files, files, base, at, data)
  {
    var flat := Flat(slices, files);
    if at < |flat| { assert flat[..at] + flat[at..] == flat; }
  }

  lemma {:induction false} WriteFromStart(slices: seq<FileSlice>, files: Files, base: nat, first: nat, data: Bytes)
    requires LaidOut(slices, files, base) && first <= base && data != []
    ensures Written(slices, files, WriteSlices(SlicesFor(slices, first, base + |data|), files, base, data), base, 0,
                    data)
    decreases |slices|
  {
    hide WriteSlices, WriteFile, LaidOut, Flat, Written;
    if slices == [] {
      NothingWritten(slices, files, base, 0, data);
      NoSlicesToWrite(files, base, data);
    } else {
      LaidOutHead(slices, files, base);
      var s, rest := slices[0], slices[1..];
      var chosen := SlicesFor(rest, first, base + |data|);
      WriteStep(s, chosen, files, base, data);
      if |data| <= s.length {
        WrittenInHead(slices, files, base, 0, data);
      } else {
        var files1 := WriteFile(files, s.path, 0, data[..s.length]);
        StillLaidOut(slices, files, base, 0, data[..s.length]);
        WriteFromStart(rest, files1, base + s.length, first, data[s.length..]);
        WrittenAcross(slices, files, WriteSlices(chosen, files1, base + s.length, data[s.length..]), base, 0, data);
        if s.length == 0 { EmptySlice(s, files, data); }
      }
    }
  }

  lemma NoSlicesToWrite(files: Files, offset: nat, data: Bytes)
    ensures WriteSlices([], files, offset, data) == files
  {}

  lemma EmptySlice(s: FileSlice, files: Files, data: Bytes)
    requires s.path in files && s.length == 0
    ensures WriteFile(files, s.path, 0, data[..0]) == files && data[0..] == data
  {
    PartWritten(s, files, 0, data[..0]);
  }

  lemma StillLaidOut(slices: seq<FileSlice>, files: Files, base: nat, into: nat, data: Bytes)
    requires slices != [] && LaidOut(slices, files, base) && into + |data| <= slices[0].length
    ensures LaidOut(slices[1..], WriteFile(files, slices[0].path, into, data), base + slices[0].length)
  {
    hide LaidOut, WriteFile, Solid, Flat;
    var s := slices[0];
    LaidOutHead(slices, files, base);
    SolidApart(slices, files, base);
    PartWritten(s, files, into, data);
    FlatSame(slices[1..], files, WriteFile(files, s.path, into, data), base + s.length, Own(s));
  }

  /** `write` replaces exactly the addressed part of the linear space, and keeps every file's size. */
  lemma {:induction false} WriteIsFlat(slices: seq<FileSlice>, files: Files, base: nat, offset: nat, data: Bytes)
    requires LaidOut(slices, files, base) && base <= offset
    ensures Written(slices, files, WriteSlices(SlicesFor(slices, offset, offset + |data|), files, offset, data),
                    base, offset - base, data)
    decreases |slices|
  {
    hide WriteSlices, WriteFile, LaidOut, Flat, Written;
    if slices == [] {
      NothingWritten(slices, files, base, offset - base, data);
      NoSlicesToWrite(files, offset, data);
    } else {
      LaidOutHead(slices, files, base);
      var s, rest, into := slices[0], slices[1..], offset - base;
      var chosen := SlicesFor(rest, offset, offset + |data|);
      if s.length <= into {
        WriteIsFlat(rest, files, base + s.length, offset, data);
        WrittenAfter(slices, files, WriteSlices(chosen, files, offset, data), base, into, data);
      } else if base >= offset + |data| {
        LaidOutIff(slices, files, base);
        LaterSlices(slices, base);
        NoneBeyond(slices, offset, offset + |data|);
        NothingWritten(slices, files, base, into, data);
        NoSlicesToWrite(files, offset, data);
      } else {
        WriteStep(s, chosen, files, offset, data);
        if into + |data| <= s.length {
          WrittenInHead(slices, files, base, into, data);
        } else {
          var n := s.length - into;
          StillLaidOut(slices, files, base, into, data[..n]);
          WriteFromStart(rest, WriteFile(files, s.path, into, data[..n]), base + s.length, offset, data[n..]);
          WrittenAcross(slices, files, WriteSlices([s] + chosen, files, offset, data), base, into, data);
        }
      }
    }
  }

  // ----- the backends -----------------------------------------------------------------------------------

  class DiskStorage {
    const queue: FileQueue
    var slices: seq<FileSlice>

    /** The slices follow one another, each covered by its file, no two non-empty ones by the same. */
    ghost predicate Valid()
      reads this, queue
    {
      LaidOut(slices, queue.files, 0)
    }

    ghost function Space(): Bytes
      reads this, queue
    {
      Flat(slices, queue.files)
    }

    constructor (queue: FileQueue)
      ensures this.queue == queue && slices == []
    {
      this.queue, slices := queue, [];
    }

    /** `prepare_files`: every file exists afterwards, and the layout is sound exactly for fitting entries. */
    method PrepareFiles(entries: seq<(Path, nat)>)
      modifies this, queue
      ensures |slices| == |entries|
      ensures forall i :: 0 <= i < |entries| ==> slices[i].path == entries[i].0 && slices[i].length == entries[i].1
      ensures forall p :: p in old(queue.files) ==> p in queue.files && queue.files[p] == old(queue.files)[p]
      ensures forall i :: 0 <= i < |entries| ==> entries[i].0 in queue.files
      ensures Placed(slices, 0)
      ensures Valid() <==> Prepared(entries, old(queue.files))
      ensures Valid() ==> |Space()| == TotalLength(entries)
    {
      hide TotalLength, LaidOut, Flat, Placed, EnsureFile, Prepared;
      slices := [];
      var offset := 0;
      ghost var before := queue.files;
      assert TotalLength(entries[..0]) == 0 by { NoEntries(entries); }
      for i := 0 to |entries|
        invariant |slices| == i && offset == TotalLength(entries[..i])
        invariant forall j :: 0 <= j < i ==>
                    slices[j] == FileSlice(entries[j].0, TotalLength(entries[..j]), entries[j].1)
        invariant queue.files == EnsureAll(before, entries, i)
      {
        slices := slices + [FileSlice(entries[i].0, offset, entries[i].1)];
        queue.Ensure(entries[i].0, entries[i].1);
        TotalLengthNext(entries, i);
        offset := offset + entries[i].1;
      }
      PreparedLayout(entries, before, slices);
    }

    method Read(offset: nat, length: nat) returns (r: Option<Bytes>)
      requires Valid()
      ensures r == Some(Slice(Space(), offset, offset + length))
    {
      hide Slice, Flat, LaidOut, ReadFile;
      ReadIsFlat(slices, queue.files, 0, offset, length);
      var chosen := SlicesFor(slices, offset, offset + length);
      var chunks: Bytes, remaining, pos := [], length, offset;
      JoinNothing(ReadSlices(chosen, queue.files, offset, length));
      for i := 0 to |chosen|
        invariant ReadSlices(chosen, queue.files, offset, length)
               == Join(chunks, ReadSlices(chosen[i..], queue.files, pos, remaining))
      {
        var s := chosen[i];
        var n := Min(remaining, Available(s, pos));
        var data := queue.Read(s.path, Into(s, pos), n);
        assert chosen[i..][1..] == chosen[i + 1..];
        if data.None? { return None; }
        if n == remaining { return Some(chunks + data.value); }
        JoinAssoc(chunks, data.value, ReadSlices(chosen[i + 1..], queue.files, pos + n, remaining - n));
        chunks, remaining, pos := chunks + data.value, remaining - n, pos + n;
      }
      assert chunks + [] == chunks;
      return Some(chunks);
    }

    method Write(offset: nat, data: Bytes)
      requires Valid()
      modifies queue
      ensures Valid() && Space() == Patch(old(Space()), offset, data)
      ensures Untouched(old(queue.files), queue.files, Solid(slices))
    {
      hide Slice, Flat, LaidOut, WriteFile, Patch, Untouched;
      WriteIsFlat(slices, queue.files, 0, offset, data);
      var chosen := SlicesFor(slices, offset, offset + |data|);
      var rest, pos := data, offset;
      for i := 0 to |chosen|
        invariant WriteSlices(chosen, old(queue.files), offset, data)
               == WriteSlices(chosen[i..], queue.files, pos, rest)
      {
        var s := chosen[i];
        var n := Min(|rest|, Available(s, pos));
        queue.Write(s.path, Into(s, pos), rest[..n]);
        assert chosen[i..][1..] == chosen[i + 1..];
        if n == |rest| { return; }
        rest, pos := rest[n..], pos + n;
      }
    }
  }

  lemma JoinNothing(r: Option<Bytes>)
    ensures Join([], r) == r
  {
    if r.Some? { assert [] + r.value == r.value; }
  }

  lemma JoinAssoc(a: Bytes, b: Bytes, r: Option<Bytes>)
    ensures Join(a, Join(b, r)) == Join(a + b, r)
  {
    if r.Some? { assert a + (b + r.value) == a + b + r.value; }
  }

  lemma NoEntries(entries: seq<(Path, nat)>)
    ensures TotalLength(entries[..0]) == 0
  {}

  function TotalLength(entries: seq<(Path, nat)>): nat {
    if entries == [] then 0 else TotalLength(entries[..|entries| - 1]) + entries[|entries| - 1].1
  }

  lemma TotalLengthNext(entries: seq<(Path, nat)>, i: nat)
    requires i < |entries|
    ensures TotalLength(entries[..i + 1]) == TotalLength(entries[..i]) + entries[i].1
  {
    assert entries[..i + 1][..i] == entries[..i];
  }

  /** The length of the first entry for a path. */
  function FirstLength(entries: seq<(Path, nat)>, path: Path): nat {
    if entries == [] then 0
    else if entries[0].0 == path then entries[0].1
    else FirstLength(entries[1..], path)
  }

  lemma {:induction false} FirstLengthAt(entries: seq<(Path, nat)>, i: nat)
    requires i < |entries| && forall j :: 0 <= j < i ==> entries[j].0 != entries[i].0
    ensures FirstLength(entries, entries[i].0) == entries[i].1
    decreases i
  {
    if i > 0 {
      assert entries[1..][i - 1] == entries[i];
      FirstLengthAt(entries[1..], i - 1);
    }
  }

  /** How long a file is once every entry was ensured: existing files keep their size. */
  function EnsuredLength(entries: seq<(Path, nat)>, files: Files, path: Path): nat {
    if path in files then |files[path]| else FirstLength(entries, path)
  }

  /** The files after the first i entries were ensured. */
  function EnsureAll(files: Files, entries: seq<(Path, nat)>, i: nat): Files
    requires i <= |entries|
  {
    if i == 0 then files else EnsureFile(EnsureAll(files, entries, i - 1), entries[i - 1].0, entries[i - 1].1)
  }

  lemma {:induction false} EnsureAllEffect(files: Files, entries: seq<(Path, nat)>, i: nat)
    requires i <= |entries|
    ensures forall p :: p in files ==> p in EnsureAll(files, entries, i) && EnsureAll(files, entries, i)[p] == files[p]
    ensures forall p :: p in EnsureAll(files, entries, i) <==> p in files || exists j :: 0 <= j < i && entries[j].0 == p
    ensures forall p :: p in EnsureAll(files, entries, i) ==>
              |EnsureAll(files, entries, i)[p]| == EnsuredLength(entries, files, p)
  {
    hide FirstLength;
    if i > 0 {
      EnsureAllEffect(files, entries, i - 1);
      if entries[i - 1].0 !in EnsureAll(files, entries, i - 1) { FirstLengthAt(entries, i - 1); }
    }
  }

  /**
   * What DiskStorage relies on: a file that exists, or that an earlier entry creates, is at least as
   * long as the entry says, and no two non-empty entries name the same file.
   */
  predicate Prepared(entries: seq<(Path, nat)>, files: Files) {
    && (forall i :: 0 <= i < |entries| ==> EnsuredLength(entries, files, entries[i].0) >= entries[i].1)
    && forall i, j :: 0 <= i < j < |entries| && entries[i].1 > 0 && entries[j].1 > 0 ==> entries[i].0 != entries[j].0
  }

  lemma {:induction false} PlacedFrom(entries: seq<(Path, nat)>, slices: seq<FileSlice>, i: nat)
    requires |slices| == |entries| && i <= |entries|
    requires forall j :: 0 <= j < |entries| ==>
               slices[j] == FileSlice(entries[j].0, TotalLength(entries[..j]), entries[j].1)
    ensures Placed(slices[i..], TotalLength(entries[..i]))
    ensures TotalLength(entries[..i]) + Total(slices[i..]) == TotalLength(entries)
    decreases |entries| - i
  {
    hide TotalLength;
    if i == |entries| {
      assert entries[..i] == entries;
    } else {
      PlacedFrom(entries, slices, i + 1);
      TotalLengthNext(entries, i);
      assert slices[i..][0] == slices[i] && slices[i..][1..] == slices[i + 1..];
    }
  }

  /** The size of the space the slices declare. */
  function Total(slices: seq<FileSlice>): nat {
    if slices == [] then 0 else slices[0].length + Total(slices[1..])
  }

  lemma {:induction false} FlatLength(slices: seq<FileSlice>, files: Files, base: nat)
    requires LaidOut(slices, files, base)
    ensures |Flat(slices, files)| == Total(slices)
    decreases |slices|
  {
    if slices != [] { FlatLength(slices[1..], files, base + slices[0].length); }
  }

  /** The slices made for the entries, over the files as ensured for them. */
  lemma PreparedLayout(entries: seq<(Path, nat)>, files: Files, slices: seq<FileSlice>)
    requires |slices| == |entries|
    requires forall j :: 0 <= j < |entries| ==>
               slices[j] == FileSlice(entries[j].0, TotalLength(entries[..j]), entries[j].1)
    ensures var ensured := EnsureAll(files, entries, |entries|);
            && (forall p :: p in files ==> p in ensured && ensured[p] == files[p])
            && (forall i :: 0 <= i < |entries| ==> entries[i].0 in ensured)
            && Placed(slices, 0)
            && (LaidOut(slices, ensured, 0) <==> Prepared(entries, files))
            && (LaidOut(slices, ensured, 0) ==> |Flat(slices, ensured)| == TotalLength(entries))
  {
    hide TotalLength, LaidOut, Flat, FirstLength, Placed, EnsureFile, EnsureAll;
    var ensured := EnsureAll(files, entries, |entries|);
    assert entries[..|entries|] == entries && slices[0..] == slices;
    assert TotalLength(entries[..0]) == 0 by { NoEntries(entries); }
    PlacedFrom(entries, slices, 0);
    EnsureAllEffect(files, entries, |entries|);
    LaidOutIff(slices, ensured, 0);
    if LaidOut(slices, ensured, 0) { FlatLength(slices, ensured, 0); }
  }

  class CompactStorage {
    const queue: FileQueue
    var blobPath: Option<Path>

    constructor (queue: FileQueue)
      ensures this.queue == queue && blobPath == None
    {
      this.queue, blobPath := queue, None;
    }

    method Prepare(path: Path, total: nat)
      modifies this, queue
      ensures blobPath == Some(path) && queue.files == EnsureFile(old(queue.files), path, total)
    {
      blobPath := Some(path);
      queue.Ensure(path, total);
    }

    /** None is the RuntimeError of an unprepared storage or the OSError of a short read. */
    method Read(offset: nat, length: nat) returns (r: Option<Bytes>)
      ensures r == if blobPath.None? then None else ReadFile(queue.files, blobPath.value, offset, length)
    {
      if blobPath.None? { return None; }
      r := queue.Read(blobPath.value, offset, length);
    }

    method Write(offset: nat, data: Bytes) returns (ok: bool)
      modifies queue
      ensures ok <==> blobPath.Some?
      ensures queue.files == if ok then WriteFile(old(queue.files), blobPath.value, offset, data) else old(queue.files)
    {
      if blobPath.None? { return false; }
      queue.Write(blobPath.value, offset, data);
      return true;
    }

    method Close()
      modifies this
      ensures blobPath == None
    {
      blobPath := None;
    }
  }

  // ----- both backends are one flat byte array ------------------------------------------------------------

  datatype Op = ReadOp(offset: nat, length: nat) | WriteOp(offset: nat, data: Bytes) {
    predicate InRange(total: nat) {
      match this
      case ReadOp(offset, length) => offset + length <= total
      case WriteOp(offset, data) => offset + |data| <= total
    }
  }

  /** The simplest storage there is: a byte array, and the answers to the reads. */
  datatype Flatland = Flatland(space: Bytes, answers: seq<Option<Bytes>>)

  function FlatOp(f: Flatland, op: Op): Flatland {
    match op
    case ReadOp(offset, length) => f.(answers := f.answers + [Some(Slice(f.space, offset, offset + length))])
    case WriteOp(offset, data) => f.(space := Overwrite(f.space, offset, data))
  }

  function FlatRun(f: Flatland, ops: seq<Op>): Flatland
    decreases |ops|
  {
    if ops == [] then f else FlatRun(FlatOp(f, ops[0]), ops[1..])
  }

  datatype Run = Run(files: Files, answers: seq<Option<Bytes>>)

  function DiskOp(slices: seq<FileSlice>, r: Run, op: Op): Run {
    match op
    case ReadOp(offset, length) =>
      r.(answers := r.answers + [ReadSlices(SlicesFor(slices, offset, offset + length), r.files, offset, length)])
    case WriteOp(offset, data) =>
      r.(files := WriteSlices(SlicesFor(slices, offset, offset + |data|), r.files, offset, data))
  }

  function DiskRun(slices: seq<FileSlice>, r: Run, ops: seq<Op>): Run
    decreases |ops|
  {
    if ops == [] then r else DiskRun(slices, DiskOp(slices, r, ops[0]), ops[1..])
  }

  function CompactRun(blob: Path, r: Run, ops: seq<Op>): Run
    decreases |ops|
  {
    if ops == [] then r
    else
      var r' := match ops[0]
        case ReadOp(offset, length) => r.(answers := r.answers + [ReadFile(r.files, blob, offset, length)])
        case WriteOp(offset, data) => r.(files := WriteFile(r.files, blob, offset, data));
      CompactRun(blob, r', ops[1..])
  }

  lemma PatchInRange(flat: Bytes, at: nat, data: Bytes)
    requires at + |data| <= |flat|
    ensures Patch(flat, at, data) == Overwrite(flat, at, data) && |Overwrite(flat, at, data)| == |flat|
  {
    if data == [] {
      if at < |flat| { assert flat[..at] + flat[at..] == flat; }
    } else {
      assert data[..|data|] == data;
    }
  }

  /** Any in-range operations on DiskStorage behave as on one flat byte array, and keep the layout. */
  lemma {:induction false} DiskRefinesFlat(slices: seq<FileSlice>, r: Run, ops: seq<Op>)
    requires LaidOut(slices, r.files, 0) && forall op :: op in ops ==> op.InRange(|Flat(slices, r.files)|)
    ensures var end := DiskRun(slices, r, ops);
            && LaidOut(slices, end.files, 0) && Untouched(r.files, end.files, Solid(slices))
            && FlatRun(Flatland(Flat(slices, r.files), r.answers), ops)
                 == Flatland(Flat(slices, end.files), end.answers)
    decreases |ops|
  {
    hide LaidOut, Flat, ReadSlices, WriteSlices, SlicesFor, Slice, Overwrite, Patch;
    if ops != [] {
      assert ops[0] in ops && forall op :: op in ops[1..] ==> op in ops;
      var flat := Flat(slices, r.files);
      match ops[0]
      case ReadOp(offset, length) =>
        ReadIsFlat(slices, r.files, 0, offset, length);
        var r' := r.(answers := r.answers + [Some(Slice(flat, offset, offset + length))]);
        DiskRefinesFlat(slices, r', ops[1..]);
      case WriteOp(offset, data) =>
        WriteIsFlat(slices, r.files, 0, offset, data);
        PatchInRange(flat, offset, data);
        var files' := WriteSlices(SlicesFor(slices, offset, offset + |data|), r.files, offset, data);
        DiskRefinesFlat(slices, r.(files := files'), ops[1..]);
    }
  }

  lemma {:induction false} CompactRefinesFlat(blob: Path, r: Run, ops: seq<Op>)
    requires blob in r.files && forall op :: op in ops ==> op.InRange(|r.files[blob]|)
    ensures var end := CompactRun(blob, r, ops);
            && blob in end.files && Untouched(r.files, end.files, {blob})
            && FlatRun(Flatland(r.files[blob], r.answers), ops) == Flatland(end.files[blob], end.answers)
    decreases |ops|
  {
    hide Overwrite, Patch;
    if ops != [] {
      assert ops[0] in ops && forall op :: op in ops[1..] ==> op in ops;
      match ops[0]
      case ReadOp(offset, length) =>
        var r' := r.(answers := r.answers + [Some(Slice(r.files[blob], offset, offset + length))]);
        assert ReadFile(r.files, blob, offset, length) == Some(Slice(r.files[blob], offset, offset + length));
        CompactRefinesFlat(blob, r', ops[1..]);
      case WriteOp(offset, data) =>
        PatchInRange(r.files[blob], offset, data);
        CompactRefinesFlat(blob, r.(files := WriteFile(r.files, blob, offset, data)), ops[1..]);
    }
  }

  // ----- exactly when DiskStorage is one flat byte array ------------------------------------------------------

  /** Every sequence of in-range operations is answered as by the array `space`. */
  ghost predicate ActsFlat(slices: seq<FileSlice>, files: Files, space: Bytes) {
    forall ops: seq<Op> :: (forall op :: op in ops ==> op.InRange(|space|)) ==>
      DiskRun(slices, Run(files, []), ops).answers == FlatRun(Flatland(space, []), ops).answers
  }

  /** Byte k of slice i is addressed through that slice only. */
  lemma {:induction false} OneSlice(slices: seq<FileSlice>, base: nat, i: nat, k: nat)
    requires Placed(slices, base) && i < |slices| && k < slices[i].length
    ensures base <= slices[i].torrentOffset && slices[i].torrentOffset + slices[i].length <= base + Total(slices)
    ensures SlicesFor(slices, slices[i].torrentOffset + k, slices[i].torrentOffset + k + 1) == [slices[i]]
    decreases i
  {
    var s, at := slices[0], slices[i].torrentOffset + k;
    if i == 0 {
      LaterSlices(slices[1..], base + s.length);
      NoneBeyond(slices[1..], at, at + 1);
    } else {
      assert slices[1..][i - 1] == slices[i];
      OneSlice(slices[1..], base + s.length, i - 1, k);
    }
  }

  lemma SlicesInOrder(slices: seq<FileSlice>, base: nat, i: nat, j: nat)
    requires Placed(slices, base) && i < j < |slices|
    ensures slices[i].torrentOffset + slices[i].length <= slices[j].torrentOffset
    decreases i
  {
    var rest := slices[1..];
    if i == 0 {
      LaterSlices(rest, base + slices[0].length);
      assert rest[j - 1] == slices[j] && rest[j - 1] in rest;
    } else {
      assert rest[i - 1] == slices[i] && rest[j - 1] == slices[j];
      SlicesInOrder(rest, base + slices[0].length, i - 1, j - 1);
    }
  }

  /** One byte, read through slice i. */
  lemma ReadByte(slices: seq<FileSlice>, r: Run, i: nat, k: nat)
    requires Placed(slices, 0) && i < |slices| && k < slices[i].length && slices[i].path in r.files
    ensures var file := r.files[slices[i].path];
            DiskOp(slices, r, ReadOp(slices[i].torrentOffset + k, 1))
              == r.(answers := r.answers + [if k < |file| then Some([file[k]]) else None])
  {
    OneSlice(slices, 0, i, k);
    var s, at := slices[i], slices[i].torrentOffset + k;
    var file := r.files[s.path];
    assert Available(s, at) >= 1 && Into(s, at) == k;
    assert ReadSlices([s], r.files, at, 1) == ReadFile(r.files, s.path, k, 1);
    if k < |file| { assert Slice(file, k, k + 1) == [file[k]]; }
  }

  /** One byte, written through slice i. */
  lemma WriteByte(slices: seq<FileSlice>, r: Run, i: nat, b: byte)
    requires Placed(slices, 0) && i < |slices| && 0 < slices[i].length && slices[i].path in r.files
    ensures DiskOp(slices, r, WriteOp(slices[i].torrentOffset, [b]))
         == r.(files := WriteFile(r.files, slices[i].path, 0, [b]))
  {
    hide WriteSlices, WriteFile, SlicesFor, Placed;
    OneSlice(slices, 0, i, 0);
    WriteOne(slices[i], r.files, b);
  }

  lemma WriteOne(s: FileSlice, files: Files, b: byte)
    requires s.length > 0
    ensures WriteSlices([s], files, s.torrentOffset, [b]) == WriteFile(files, s.path, 0, [b])
  {
    hide WriteFile;
    assert Available(s, s.torrentOffset) >= 1 && Into(s, s.torrentOffset) == 0;
    assert [b][..1] == [b];
  }

  /** A file shorter than its slice: reading the slice's last byte fails, where an array answers. */
  lemma ShortFileShows(slices: seq<FileSlice>, files: Files, space: Bytes, i: nat)
    requires Placed(slices, 0) && |space| == Total(slices) && i < |slices| && slices[i].path in files
    requires |files[slices[i].path]| < slices[i].length
    ensures !ActsFlat(slices, files, space)
  {
    var k := slices[i].length - 1;
    var ops := [ReadOp(slices[i].torrentOffset + k, 1)];
    OneSlice(slices, 0, i, k);
    ReadByte(slices, Run(files, []), i, k);
    FirstOp(slices, Run(files, []), Flatland(space, []), ops[0], []);
    assert ops == [ops[0]] + [];
    assert DiskRun(slices, Run(files, []), ops).answers == [None];
    assert FlatRun(Flatland(space, []), ops).answers[0].Some?;
  }

  /** Two non-empty slices over one file: a byte written through the one is read through the other. */
  lemma SharedFileShows(slices: seq<FileSlice>, files: Files, space: Bytes, i: nat, j: nat)
    requires Placed(slices, 0) && |space| == Total(slices) && i < j < |slices|
    requires slices[i].length > 0 && slices[j].length > 0 && slices[i].path == slices[j].path
    requires slices[i].path in files && |files[slices[i].path]| > 0
    ensures !ActsFlat(slices, files, space)
  {
    hide Placed, SlicesFor, DiskOp, DiskRun, FlatRun, Total, Slice, Overwrite;
    var file, path := files[slices[i].path], slices[i].path;
    var b: byte := if file[0] == 0 then 1 else 0;
    var look, change := ReadOp(slices[j].torrentOffset, 1), WriteOp(slices[i].torrentOffset, [b]);
    var ops := [look, change, look];
    OneSlice(slices, 0, i, 0);
    OneSlice(slices, 0, j, 0);
    SlicesInOrder(slices, 0, i, j);
    var r0 := Run(files, []);
    ReadByte(slices, r0, j, 0);
    var r1 := DiskOp(slices, r0, look);
    WriteByte(slices, r1, i, b);
    var r2 := DiskOp(slices, r1, change);
    FirstByte(file, b);
    assert r2.files[path] == Overwrite(file, 0, [b]);
    ReadByte(slices, r2, j, 0);
    ThreeOps(slices, r0, Flatland(space, []), look, change, look);
    assert DiskRun(slices, r0, ops).answers == [Some([file[0]]), Some([b])];
    OverwriteElsewhere(space, slices[i].torrentOffset, b, slices[j].torrentOffset);
    assert FlatRun(Flatland(space, []), ops).answers == [Some([space[slices[j].torrentOffset]]),
                                                         Some([space[slices[j].torrentOffset]])];
  }

  lemma FirstOp(slices: seq<FileSlice>, r: Run, f: Flatland, op: Op, rest: seq<Op>)
    ensures DiskRun(slices, r, [op] + rest) == DiskRun(slices, DiskOp(slices, r, op), rest)
    ensures FlatRun(f, [op] + rest) == FlatRun(FlatOp(f, op), rest)
    ensures DiskRun(slices, r, []) == r && FlatRun(f, []) == f
  {
    hide DiskOp, FlatOp;
    assert ([op] + rest)[1..] == rest;
  }

  lemma ThreeOps(slices: seq<FileSlice>, r: Run, f: Flatland, a: Op, b: Op, c: Op)
    ensures DiskRun(slices, r, [a, b, c]) == DiskOp(slices, DiskOp(slices, DiskOp(slices, r, a), b), c)
    ensures FlatRun(f, [a, b, c]) == FlatOp(FlatOp(FlatOp(f, a), b), c)
  {
    hide DiskOp, FlatOp, DiskRun, FlatRun;
    var r1, f1 := DiskOp(slices, r, a), FlatOp(f, a);
    var r2, f2 := DiskOp(slices, r1, b), FlatOp(f1, b);
    FirstOp(slices, r, f, a, [b, c]);
    FirstOp(slices, r1, f1, b, [c]);
    FirstOp(slices, r2, f2, c, []);
    FirstOp(slices, DiskOp(slices, r2, c), FlatOp(f2, c), c, []);
    assert [a, b, c] == [a] + [b, c] && [b, c] == [b] + [c] && [c] == [c] + [];
  }

  lemma FirstByte(file: Bytes, b: byte)
    requires file != []
    ensures |Overwrite(file, 0, [b])| > 0 && Overwrite(file, 0, [b])[0] == b
  {
    OverwriteInside(file, 0, [b]);
  }

  lemma OverwriteElsewhere(space: Bytes, at: nat, b: byte, k: nat)
    requires at < k < |space|
    ensures Slice(Overwrite(space, at, [b]), k, k + 1) == Slice(space, k, k + 1) == [space[k]]
  {
    OverwriteInside(space, at, [b]);
  }

  /**
   * Prepared slices behave as one flat byte array, under every sequence of in-range operations, if and
   * only if every file is at least as long as its slice and no two non-empty slices share a file.
   */
  lemma ActsFlatIffFits(slices: seq<FileSlice>, files: Files)
    requires Placed(slices, 0) && forall s :: s in slices ==> s.path in files
    ensures (exists space :: |space| == Total(slices) && ActsFlat(slices, files, space)) <==> Fits(slices, files)
  {
    if Fits(slices, files) {
      LaidOutIff(slices, files, 0);
      FlatLength(slices, files, 0);
      var space := Flat(slices, files);
      forall ops: seq<Op> | forall op :: op in ops ==> op.InRange(|space|)
        ensures DiskRun(slices, Run(files, []), ops).answers == FlatRun(Flatland(space, []), ops).answers
      {
        DiskRefinesFlat(slices, Run(files, []), ops);
      }
      assert ActsFlat(slices, files, space);
    } else {
      forall space: Bytes | |space| == Total(slices) ensures !ActsFlat(slices, files, space) {
        UnfitShows(slices, files, space);
      }
    }
  }

  lemma UnfitShows(slices: seq<FileSlice>, files: Files, space: Bytes)
    requires Placed(slices, 0) && forall s :: s in slices ==> s.path in files
    requires |space| == Total(slices) && !Fits(slices, files)
    ensures !ActsFlat(slices, files, space)
  {
    hide ActsFlat, Placed, Total;
    if i :| 0 <= i < |slices| && |files[slices[i].path]| < slices[i].length {
      ShortFileShows(slices, files, space, i);
    } else {
      var i, j :| 0 <= i < j < |slices| && slices[i].length > 0 && slices[j].length > 0
                  && slices[i].path == slices[j].path;
      SharedFileShows(slices, files, space, i, j);
    }
  }

  /** The two backends cannot be told apart by in-range operations. */
  lemma DiskAgreesWithCompact(slices: seq<FileSlice>, disk: Files, blob: Path, compact: Files, ops: seq<Op>)
    requires LaidOut(slices, disk, 0) && blob in compact && compact[blob] == Flat(slices, disk)
    requires forall op :: op in ops ==> op.InRange(|compact[blob]|)
    ensures var d, c := DiskRun(slices, Run(disk, []), ops), CompactRun(blob, Run(compact, []), ops);
            d.answers == c.answers && blob in c.files && c.files[blob] == Flat(slices, d.files)
  {
    DiskRefinesFlat(slices, Run(disk, []), ops);
    CompactRefinesFlat(blob, Run(compact, []), ops);
  }

  /** Past the end they differ: a disk read comes back short where the blob's raises. */
  lemma ReadsAgreeIffInRange(slices: seq<FileSlice>, disk: Files, blob: Path, compact: Files, offset: nat, length: nat)
    requires LaidOut(slices, disk, 0) && blob in compact && compact[blob] == Flat(slices, disk)
    ensures ReadSlices(SlicesFor(slices, offset, offset + length), disk, offset, length)
              == ReadFile(compact, blob, offset, length)
       <==> length == 0 || offset + length <= |compact[blob]|
  {
    ReadIsFlat(slices, disk, 0, offset, length);
    hide LaidOut, Flat, ReadSlices, SlicesFor;
  }

  /** ... and a disk write is cut off where the blob grows. */
  lemma WritesAgreeIffInRange(slices: seq<FileSlice>, disk: Files, blob: Path, compact: Files, offset: nat, data: Bytes)
    requires LaidOut(slices, disk, 0) && blob in compact && compact[blob] == Flat(slices, disk)
    ensures Flat(slices, WriteSlices(SlicesFor(slices, offset, offset + |data|), disk, offset, data))
              == WriteFile(compact, blob, offset, data)[blob]
       <==> data == [] || offset + |data| <= |compact[blob]|
  {
    WriteIsFlat(slices, disk, 0, offset, data);
    hide LaidOut, Flat, WriteSlices, SlicesFor;
    var flat := compact[blob];
    if data == [] || offset + |data| <= |flat| {
      PatchOfNothing(flat, offset, data);
    } else {
      assert |Patch(flat, offset, data)| == |flat| < |Overwrite(flat, offset, data)|;
    }
  }

  lemma PatchOfNothing(flat: Bytes, at: nat, data: Bytes)
    requires data == [] || at + |data| <= |flat|
    ensures Patch(flat, at, data) == Overwrite(flat, at, data)
  {
    if at + |data| <= |flat| { PatchInRange(flat, at, data); }
  }
}
