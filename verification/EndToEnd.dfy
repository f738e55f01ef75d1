/** The download and its storage put together: what the files on disk hold during and after a run. */
module EndToEnd {
  import opened Bytes
  import opened Pieces
  import opened Swarm
  import opened Safety
  import Hashing
  import Runs
  import opened Wire
  import opened Assembly
  import Bitfields
  import S = Storage

  /** The storage writes of one event: part of a verified piece, by a session or after its end. */
  ghost function WritesOf(tor: Torrent, w: Swarm, e: Event): seq<S.Op> {
    match e
    case Transfer(sid, k) =>
      if Live(w, sid) && w.sessions[sid].phase.Writing? && w.sessions[sid].current.Some? then
        var s := w.sessions[sid];
        var data, written := s.phase.data, s.phase.written;
        [S.WriteOp(tor.At(s.current.value) + written, Slice(data, written, Min(written + k, |data|)))]
      else []
    case LateWrite(write, k) =>
      if write in w.shared.late then [S.WriteOp(write.offset, Slice(write.data, 0, k))] else []
    case _ => []
  }

  /** The storage writes of a run, in order. */
  ghost function Writes(tor: Torrent, w: Swarm, events: seq<Event>): seq<S.Op>
    requires tor.pieceLength > 0
    decreases |events|
  {
    if events == [] then []
    else
      var init := events[..|events| - 1];
      Writes(tor, w, init) + WritesOf(tor, Run(tor, w, init), events[|events| - 1])
  }

  lemma MessageKeepsStore(tor: Torrent, sh: Shared, s: Session, m: Wire.Message, unchoked: bool, pick: nat)
    requires tor.pieceLength > 0 && s.phase.Receiving?
    ensures OnMessage(tor, sh, s, m, unchoked, pick).shared.store == sh.store
  {
    hide Complete, Assemble, StartPiece, Bitfields.ToSet;
  }

  lemma SentKeepsStore(tor: Torrent, sh: Shared, s: Session, pick: nat)
    requires tor.pieceLength > 0
    ensures OnSent(tor, sh, s, pick).shared.store == sh.store
  {
    hide StartPiece;
  }

  lemma CheckerKeepsStore(tor: Torrent, w: Swarm, e: Event)
    requires tor.pieceLength > 0
    ensures CheckerStep(tor, w, e).shared.store == w.shared.store
  {}

  lemma OneWrite(store: Bytes, offset: nat, data: Bytes, answers: seq<Option<Bytes>>)
    ensures S.FlatRun(S.Flatland(store, answers), [S.WriteOp(offset, data)])
         == S.Flatland(Overwrite(store, offset, data), answers)
    ensures S.FlatRun(S.Flatland(store, answers), []) == S.Flatland(store, answers)
  {
    assert [S.WriteOp(offset, data)][1..] == [];
  }

  /** A session's partial write of a verified piece stays inside the content. */
  lemma TransferWrites(tor: Torrent, w: Swarm, sid: nat, k: nat, answers: seq<Option<Bytes>>)
    requires tor.Valid() && SharedInv(tor, w.shared) && Live(w, sid) && SessionInv(tor, w.shared, w.sessions[sid])
    ensures var e := Transfer(sid, k);
            && (forall op :: op in WritesOf(tor, w, e) ==> op.InRange(|tor.content|))
            && S.FlatRun(S.Flatland(w.shared.store, answers), WritesOf(tor, w, e))
                 == S.Flatland(Step(tor, w, e).shared.store, answers)
  {
    hide S.FlatRun, Overwrite, PieceCount;
    OneWrite(w.shared.store, 0, [], answers);
    var s := w.sessions[sid];
    if s.phase.Writing? {
      WritingFacts(tor, w.shared, s);
      var i, data, written := s.current.value, s.phase.data, s.phase.written;
      InRangeIffOffset(tor.pieceLength, |tor.content|, i);
      PieceIsGenuine(tor, i);
      GenuineSlice(tor, tor.At(i), data, written, Min(written + k, |data|));
      OneWrite(w.shared.store, tor.At(i) + written, Slice(data, written, Min(written + k, |data|)), answers);
    }
  }

  /** So does a write that outlives its session. */
  lemma LateWrites(tor: Torrent, w: Swarm, write: Write, k: nat, answers: seq<Option<Bytes>>)
    requires tor.Valid() && SharedInv(tor, w.shared)
    ensures var e := LateWrite(write, k);
            && (forall op :: op in WritesOf(tor, w, e) ==> op.InRange(|tor.content|))
            && S.FlatRun(S.Flatland(w.shared.store, answers), WritesOf(tor, w, e))
                 == S.Flatland(Step(tor, w, e).shared.store, answers)
  {
    hide S.FlatRun, Overwrite, PieceCount;
    OneWrite(w.shared.store, 0, [], answers);
    if write in w.shared.late {
      GenuineSlice(tor, write.offset, write.data, 0, Min(k, |write.data|));
      assert Slice(write.data, 0, k) == Slice(write.data, 0, Min(k, |write.data|));
      OneWrite(w.shared.store, write.offset, Slice(write.data, 0, k), answers);
    }
  }

  /** An event changes the storage by its writes only, and they stay inside the content. */
  lemma StoreChangesByWrites(tor: Torrent, w: Swarm, e: Event, answers: seq<Option<Bytes>>)
    requires tor.Valid() && Inv(tor, w)
    ensures forall op :: op in WritesOf(tor, w, e) ==> op.InRange(|tor.content|)
    ensures S.FlatRun(S.Flatland(w.shared.store, answers), WritesOf(tor, w, e))
         == S.Flatland(Step(tor, w, e).shared.store, answers)
  {
    hide OnMessage, OnSent, OnTransfer, CheckerStep, S.FlatRun, Overwrite, AvailabilityInv, CheckerInv, PieceCount,
         SharedInv, SessionInv;
    OneWrite(w.shared.store, 0, [], answers);
    match e
    case Message(sid, m, unchoked, pick) =>
      if Live(w, sid) && w.sessions[sid].phase.Receiving? {
        MessageKeepsStore(tor, w.shared, w.sessions[sid], m, unchoked, pick);
      }
    case Sent(sid, pick) => if Live(w, sid) { SentKeepsStore(tor, w.shared, w.sessions[sid], pick); }
    case Transfer(sid, k) => if Live(w, sid) { TransferWrites(tor, w, sid, k, answers); }
    case LateWrite(write, k) => LateWrites(tor, w, write, k, answers);
    case Check(_) => CheckerKeepsStore(tor, w, e);
    case CheckRead(_) => CheckerKeepsStore(tor, w, e);
    case CheckVerify => CheckerKeepsStore(tor, w, e);
    case CheckSkip => CheckerKeepsStore(tor, w, e);
    case _ =>
  }

  lemma {:induction false} DiskRunConcat(slices: seq<S.FileSlice>, r: S.Run, a: seq<S.Op>, b: seq<S.Op>)
    ensures S.DiskRun(slices, r, a + b) == S.DiskRun(slices, S.DiskRun(slices, r, a), b)
    decreases |a|
  {
    hide S.DiskOp;
    if a == [] {
      assert a + b == b;
    } else {
      assert (a + b)[1..] == a[1..] + b && (a + b)[0] == a[0];
      DiskRunConcat(slices, S.DiskOp(slices, r, a[0]), a[1..], b);
    }
  }

  lemma UntouchedTrans(a: S.Files, b: S.Files, c: S.Files, except: set<S.Path>)
    requires S.Untouched(a, b, except) && S.Untouched(b, c, except)
    ensures S.Untouched(a, c, except)
  {}

  /**
   * The swarm's flat storage is what the files present: carrying out a run's writes with DiskStorage
   * keeps the layout valid, presents after every run exactly the storage the run ends with, and
   * touches no file outside the torrent.
   */
  lemma {:induction false} RunOnDisk(tor: Torrent, slices: seq<S.FileSlice>, files: S.Files, events: seq<Event>)
    requires tor.Valid() && S.LaidOut(slices, files, 0) && |S.Flat(slices, files)| == |tor.content|
    ensures var w := Initial(S.Flat(slices, files));
            var disk := S.DiskRun(slices, S.Run(files, []), Writes(tor, w, events)).files;
            && S.LaidOut(slices, disk, 0) && S.Untouched(files, disk, S.Solid(slices))
            && S.Flat(slices, disk) == Run(tor, w, events).shared.store
    decreases |events|
  {
    hide S.LaidOut, S.Flat, S.Untouched, S.FlatRun, WritesOf, Step, Inv, PieceCount;
    var w, start := Initial(S.Flat(slices, files)), S.Run(files, []);
    if events == [] {
      NothingTouched(files, S.Solid(slices));
    } else {
      var init, e := events[..|events| - 1], events[|events| - 1];
      RunOnDisk(tor, slices, files, init);
      Runs.InitialInv(tor, w.shared.store);
      Runs.RunInv(tor, w, init);
      var before, ops := S.DiskRun(slices, start, Writes(tor, w, init)), WritesOf(tor, Run(tor, w, init), e);
      StoreChangesByWrites(tor, Run(tor, w, init), e, before.answers);
      DiskRunConcat(slices, start, Writes(tor, w, init), ops);
      SameSize(tor, Run(tor, w, init));
      S.DiskRefinesFlat(slices, before, ops);
      UntouchedTrans(files, before.files, S.DiskRun(slices, before, ops).files, S.Solid(slices));
    }
  }

  lemma NothingTouched(files: S.Files, except: set<S.Path>)
    ensures S.Untouched(files, files, except)
  {}

  lemma SameSize(tor: Torrent, w: Swarm)
    requires tor.Valid() && Inv(tor, w)
    ensures |w.shared.store| == |tor.content|
  {}

  /** Files whose declared parts concatenate to the originals begin with the originals. */
  lemma {:induction false} FlatDetermines(slices: seq<S.FileSlice>, files: S.Files, base: nat, originals: seq<Bytes>)
    requires S.LaidOut(slices, files, base) && |slices| == |originals|
    requires forall i :: 0 <= i < |slices| ==> slices[i].length == |originals[i]|
    requires S.Flat(slices, files) == Hashing.Concat(originals)
    ensures forall i :: 0 <= i < |slices| ==>
              var path, n := slices[i].path, slices[i].length;
              path in files && |files[path]| >= n && files[path][..n] == originals[i]
    decreases |slices|
  {
    if slices != [] {
      var n, rest := slices[0].length, S.Flat(slices[1..], files);
      assert S.Flat(slices, files)[..n] == S.Part(slices[0], files) && S.Flat(slices, files)[n..] == rest;
      assert Hashing.Concat(originals)[..n] == originals[0];
      assert Hashing.Concat(originals)[n..] == Hashing.Concat(originals[1..]);
      FlatDetermines(slices[1..], files, base + n, originals[1..]);
    }
  }

  /**
   * The whole way: once a run over the files has signalled completion, each file on disk, which has the
   * size it had before, begins with the file the torrent was made from; of the declared size, it is that file.
   */
  lemma DownloadRestoresFiles(tor: Torrent, originals: seq<Bytes>, slices: seq<S.FileSlice>, files: S.Files,
                              events: seq<Event>)
    requires tor.Valid() && tor.content == Hashing.Concat(originals)
    requires S.LaidOut(slices, files, 0) && |S.Flat(slices, files)| == |tor.content|
    requires |slices| == |originals| && forall i :: 0 <= i < |slices| ==> slices[i].length == |originals[i]|
    ensures var w := Initial(S.Flat(slices, files));
            var disk := S.DiskRun(slices, S.Run(files, []), Writes(tor, w, events)).files;
            Run(tor, w, events).shared.done ==>
              forall i :: 0 <= i < |slices| ==>
                var path, n := slices[i].path, slices[i].length;
                && path in files && path in disk && |disk[path]| == |files[path]| >= n
                && disk[path][..n] == originals[i]
  {
    hide S.LaidOut, S.Flat, S.DiskRun, Writes, Run, Slice, PieceCount, Hashing.Concat;
    var w := Initial(S.Flat(slices, files));
    RunOnDisk(tor, slices, files, events);
    Runs.DownloadSafety(tor, S.Flat(slices, files), events);
    if Run(tor, w, events).shared.done {
      FlatDetermines(slices, S.DiskRun(slices, S.Run(files, []), Writes(tor, w, events)).files, 0, originals);
    }
  }
}
