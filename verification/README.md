# A verified model of aiobt

aiobt is a BitTorrent client.  This project models its parts that carry logic, function by function,
and proves properties of the model with Dafny 4.11.  `dafny verify dfyconfig.toml` checks all of it.

## What is modelled

- **Transfer engine** (`Swarm`, `Selection`, `Assembly`, `Safety`, `Runs`, `Accounts`, `Orphans`; in place: `Pieces`,
  `Engine`).
  Any number of peer sessions share one piece tracker, one endgame record and one storage.  A session is
  a state machine whose steps are the stretches of code between two awaits: verifying a piece, writing it
  (in any number of partial writes) and marking it are separate steps.  A run is any list of events, so any
  interleaving, any message contents, any lost connection, and a resume check running beside the sessions.
  A write whose session was cut off may still finish later.  `EndToEnd` carries a run's writes out on disk.
- **Storage** (`Storage`, `Bitfields`, `Resume`, `Hashing`).  Files are byte strings keyed by path; the
  multi-file and the single-blob backend are compared with one flat byte array.  Creating a torrent's
  digests, checking a storage against them, and saving and loading progress sit on top.
- **Bencode and metainfo** (`Numerals`, `Bencode`, `BencodeCodec`, `Metainfo`).  The parser works on
  positions in a buffer as the source does; the methods with loops and growing containers are proved equal
  to recursive functions, and the laws are proved about those.
- **Wire protocol** (`Streams`, `Wire`).  Messages, framing and the handshake of BEP 3.
- **Choking** (`Choking`, `Strays`, `Rechoking`).  Ranked slots and one rotating optimistic slot, first as a
  value with events and runs, then as mutable trackers in an insertion-ordered dict.  A tracker that leaves the
  dict while its connection is up stays part of the state.
- **Message Stream Encryption** (`Rc4`, `Modular`, `EncryptedStreams`, `Mse`, `MseHandshake`).  RC4 in
  place, the key exchange, the two handshakes over a transport that delivers in arbitrary chunks, and the
  encrypted stream that results.

SHA-1 is a parameter of every statement that uses it.  Where safety rests on it the hypothesis is that no
other data has the digest of one of the torrent's own pieces (`Torrent.Valid`), or that no two torrents of
a lookup are confused (`Unconfused`); an injective function into 20 bytes would not exist.  Random values
(pads, exponents, the optimistic choice, the order in which a set is walked) are inputs.  A reader's stream
is everything it will ever deliver, and an arbitrary schedule says how much of it has arrived at each read.
What a side has sent when it waits for more than has arrived is what it sends over a stream that ends there.

Classes follow the source's classes.  Their methods are proved to carry out functions on values
(`State()`), and the theorems are about those functions.

## Where the code and its descriptions part

- A request is not checked against the end of its piece, so bytes behind it are served unverified
  (`Runs.GenuineIffInsidePiece`).
- The two storage backends agree only inside the declared size: past the end one truncates and the other
  fails or grows (`Storage.ReadsAgreeIffInRange`, `Storage.WritesAgreeIffInRange`).
- `DiskStorage` behaves as a flat byte array exactly when every file is at least as long as its slice and no
  two non-empty slices share a file (`Storage.ActsFlatIffFits`).  An existing file is neither truncated nor
  extended: a longer one is served correctly, a shorter one makes reads fail.
- Availability counts drift upwards when a peer sends a Bitfield after another announcement, or a Have for a
  piece it had announced, and the excess stays (`Runs.AvailabilityConservedIffFresh`, `Runs.ExcessStays`,
  `Accounts.CountsDrift`).
- `pending` does not mean that somebody downloads the piece: pieces that a session skips because its peer lacks
  them stay pending with nobody on them (`Orphans.LeftPending`; exactly when: `Orphans.OrphansOverRuns`,
  `Orphans.NoOrphansOverRuns`), and only the list of an active endgame leads a session back to them
  (`Orphans.OrphansAfterStep`).
- `have` and `failed` are not disjoint: whatever makes a session give up its current piece after that piece was
  verified, by itself or by another session, fails it (`Accounts.DisjointUnlessHeldFails`).  One session
  suffices, if its connection is lost while it announces the piece (`Accounts.LostWhileAnnouncing`).
- The decoder accepts numerals such as `+5` or `1_0`, so an accepted file need not be canonical, and the
  info hash is then not the hash of the file's own bytes (`Bencode.NonPlainDecodes`,
  `Metainfo.SmallFileAccepted`; exactly when: `Bencode.Canonical`, `Metainfo.InfoHashIsOfTheFile`).
- The rechoke rule "choke the rest" has two exceptions: nobody is choked while nobody is interested
  (`Choking.RechokeSettles`, `Strays.NobodyContendsExample`), and between rotations the optimistic slot stays
  with a peer that lost interest (`Choking.UnchokedAreInterestedIff`, `Strays.IdleHolderExample`).
- The bound of max_unchoked + 1 unchoked peers holds for the trackers in the dict only.  The client looks an
  address up before it awaits the connection and registers afterwards, so two tasks can register one address
  (src/aiobt/client.py:943-964), and the end of the first session then unregisters the tracker of the second
  (src/aiobt/client.py:1232).  A tracker that leaves the dict connected and unchoked is never choked again, and
  its session goes on answering requests (src/aiobt/engine.py:242-253).  With one slot three connections can be
  unchoked (`Strays.ThreeUnchokedExample`); the bound for all of them, and exactly when it is max_unchoked + 1:
  `Strays.LiveOverRuns`, `Strays.NobodyStrayIff`, `Strays.BoundIff`.
- With plaintext selected, payload that a scan took along with the end of the handshake is dropped.  Under a
  given schedule of arrivals a side keeps the payload exactly if its scan took none of it
  (`Mse.PlainInitiatorKeepsIff`, `Mse.PlainReceiverKeepsIff`).  An initiator is safe under every schedule only if
  the receiver has no payload (`Mse.PlainInitiatorContinuesIff`), as that may follow the reply at once.  A
  receiver is safe with every initiator that waits for the reply (`Mse.WaitingLosesNothing`), this client's
  included; with one that sends payload without waiting it can lose any of it
  (`Mse.PlainReceiverContinuesIff`).

## Model

| member | source | states |
|---|---|---|
| Runs.DownloadSafety | src/aiobt/engine.py:255-339 | for any number of sessions, any messages and any interleaving at awaits, from any initial storage: every piece in `have` is in range, not pending, and stored exactly as in the original; when a session or the start of the torrent signals completion the whole storage is the original |
| Runs.NothingIsLost | src/aiobt/piece.py:86-113 | between any two points of a run `have` only grows, and no storage byte that was right ever becomes wrong |
| Runs.RunInv | src/aiobt/engine.py:129-339 | the joint invariant of tracker, endgame record, storage, every session and the resume check survives every run |
| Runs.StepInv | src/aiobt/engine.py:183-339 | the same for one event, whichever session or background write it belongs to |
| Runs.EndgameOverRuns | src/aiobt/engine.py:280-297 | over every run: while endgame is active every missing piece is on its list, it goes inactive only when nothing is missing, and no address of an ended session is left among the requesters |
| Runs.AvailabilityLaw | src/aiobt/piece.py:115-127 | over every run each availability count equals the number of live sessions whose peer has the piece plus an excess, one for each Have of a piece already announced and each piece that a later Bitfield replaced; zero counts are absent |
| Runs.AvailabilityConservedIffFresh | src/aiobt/engine.py:189-199 | the counts are exact at the end of a run if and only if in it no Bitfield came after an announcement and no Have for a piece already announced |
| Runs.FreshIffNoneStale | src/aiobt/engine.py:189-199 | the excess is zero exactly for those runs |
| Runs.ExcessStays | src/aiobt/engine.py:328-334 | the excess never shrinks in a run, whichever sessions end |
| Accounts.CountsDrift | src/aiobt/engine.py:189-195 | a reachable state after two Bitfields of one peer: a piece nobody is known to have is still counted |
| Accounts.DisjointUnlessHeldFails | src/aiobt/piece.py:100-113 | in any state with `have` and `failed` disjoint, one event keeps them so if and only if it is not a lost connection, a Choke or a last block with a wrong digest for a session whose current piece is already had |
| Accounts.LostWhileAnnouncing | src/aiobt/engine.py:270-333 | a reachable state, one session and no endgame, whose next event (the connection is lost while the verified piece is announced) leaves the piece both had and failed |
| Runs.UploadsAreGenuine | src/aiobt/engine.py:240-253 | in every run every byte sent in answer to a request is original as far as it lies inside the requested piece |
| Runs.GenuineIffInsidePiece | src/aiobt/engine.py:245-250 | a byte of an answer is original in every run if and only if it lies inside the requested piece; past its end a run is constructed that serves unverified storage |
| Runs.CheckedPieceHolds | src/aiobt/client.py:497-506 | a piece the resume check marks is stored exactly as in the original |
| Runs.StepProgress | src/aiobt/engine.py:268-270 | no event takes a piece out of `have` or damages a right byte, including writes that finish after their session ended |
| Safety.MessageSound | src/aiobt/engine.py:184-326 | handling any message in any state keeps the shared and the session invariant |
| Safety.PieceSound | src/aiobt/engine.py:255-322 | a block of arbitrary bytes at an arbitrary offset leads to a write only of the piece itself |
| Safety.WriteSound | src/aiobt/engine.py:268-269 | each partial write of a verified piece leaves every right byte right |
| Safety.StoredSound | src/aiobt/engine.py:269-297 | marking the piece after its write, and the endgame bookkeeping behind it, keep the invariants |
| Safety.SentSound | src/aiobt/engine.py:298-322 | carrying on after a send (next piece, completion, next request) keeps the invariants |
| Safety.DropSound | src/aiobt/engine.py:328-339 | the end of a session in any state keeps the invariants and leaves its address in no set of requesters |
| Safety.MarkHaveSound | src/aiobt/piece.py:100-104 | marking a piece whose region is right keeps `have` in range, disjoint from `pending` and correct |
| Safety.OverwriteGenuine | src/aiobt/storage/queue.py:90-104 | writing original bytes makes their range right and leaves every other right byte right |
| Safety.MessageBalanced | src/aiobt/engine.py:189-199 | a message changes each count by exactly the change in what the session's peer is recorded to have, plus its repetitions |
| Safety.DropBalanced | src/aiobt/engine.py:334-334 | ending a session takes back exactly what it had announced, once |
| EndToEnd.RunOnDisk | src/aiobt/engine.py:255-339 | carrying out a run's storage writes with the multi-file backend keeps the layout valid, presents exactly the storage the run ends with, and touches no other file |
| EndToEnd.DownloadRestoresFiles | src/aiobt/engine.py:301-308 | once a run over any files long enough for their slices has signalled completion, every file on disk keeps its size and begins with the file the torrent was made from |
| EndToEnd.StoreChangesByWrites | src/aiobt/engine.py:268-269 | an event changes the storage by its own writes only, and these stay inside the content |
| Selection.StartPieceComplete | src/aiobt/engine.py:347-391 | a session gets no piece exactly when its peer holds no missing piece; when normal selection can succeed the result is the least by (availability, index) of the candidates that peer has |
| Selection.StartPieceEffect | src/aiobt/engine.py:347-391 | choosing a piece keeps the tracker and endgame invariants, never touches `have` or the counts, never removes a pending mark, and switches endgame on only when needed |
| Selection.SkipStopsAtRarestHeld | src/aiobt/engine.py:358-366 | the skipping loop ends at the rarest candidate the peer holds, or at none if it holds none, and leaves pending exactly the candidates ranking before it |
| Orphans.OrphansAfterStep | src/aiobt/engine.py:347-391 | for every event of every state with the joint invariant and every piece: it is pending with no session on it afterwards if and only if the event makes a session skip it while no other is on it, or it was so before and has been neither taken up nor had since; a session takes such a piece up only from the list of an active endgame |
| Orphans.OrphansOverRuns | src/aiobt/engine.py:358-366 | at any time of any run a piece is pending with no session on it exactly if some event skipped it and from then on nobody took it up or completed it |
| Orphans.NoOrphansIff | src/aiobt/engine.py:358-366 | where a session is on every pending piece, an event keeps it so if and only if it does not run the choice of a piece past a candidate that ranks before the chosen one, that the peer lacks and that no other session is on |
| Orphans.NoOrphansOverRuns | src/aiobt/engine.py:232-322 | over a whole run a session is on every pending piece all the time if and only if no event of it does that |
| Orphans.LeftPending | src/aiobt/engine.py:358-366 | a reachable state, one peer that has the second of two pieces, whose next event (Unchoke) leaves the first piece pending with nobody on it |
| Selection.CompleteIffNoneMissing | src/aiobt/piece.py:86-88 | comparing counts decides completeness: it holds exactly when no piece is missing |
| Pieces.RarestIsLeast | src/aiobt/piece.py:129-144 | selection returns nothing exactly when every piece is had or pending, and else the least candidate by (availability, index) |
| Pieces.PieceTracker.SelectPiece | src/aiobt/piece.py:129-144 | list, stable sort, head: agrees with the one-pass minimum in every tracker state |
| Pieces.PieceTracker.SelectPieceOnePass | src/aiobt/piece.pyx:161-187 | the one-pass form returns the same piece as the sorting form in every tracker state |
| Pieces.StableSortOrders | src/aiobt/piece.py:143-144 | the sort is a permutation in order of availability with ties in index order |
| Pieces.InRangeIffOffset | src/aiobt/piece.py:56-61 | an index counts as a piece exactly when its offset lies inside the content |
| Pieces.PieceOfByte | src/aiobt/piece.py:153-163 | the pieces partition the content: each byte lies in exactly one |
| Pieces.PieceTracker.constructor | src/aiobt/piece.py:46-70 | a new tracker has one spec per piece, at offset index times piece length, with nothing had, pending or available |
| Pieces.PieceTracker.BuildSpecs | src/aiobt/piece.py:153-163 | the running offset reproduces offset, length (the last one short) and digest slice of every piece |
| Pieces.PieceTracker.MarkHave | src/aiobt/piece.py:100-104 | the piece moves to `have` and out of `pending` and `failed`, nothing else changes |
| Pieces.PieceTracker.MarkPending | src/aiobt/piece.py:106-108 | only the pending mark is added |
| Pieces.PieceTracker.MarkFailed | src/aiobt/piece.py:110-113 | pending becomes failed; `have` stays even if it contains the piece |
| Pieces.PieceTracker.UpdateAvailability | src/aiobt/piece.py:115-118 | adds one to each announced piece, in whatever order the set is walked |
| Pieces.PieceTracker.RemoveAvailability | src/aiobt/piece.py:120-127 | subtracts one from each withdrawn piece and drops those that reach zero |
| Engine.PeerSession.Handle | src/aiobt/engine.py:183-326 | the message loop body carries out the specified step on the shared objects, for every kind of message |
| Engine.PeerSession.Take | src/aiobt/engine.py:255-322 | storing a block, testing completeness, assembling and verifying carry out the specified step |
| Engine.PeerSession.ReadMore | src/aiobt/engine.py:245-247 | each part of the storage read for a Request takes the specified bytes |
| Engine.PeerSession.AfterRead | src/aiobt/engine.py:245-253 | a finished storage read carries out the specified step and sends exactly what was read, for the piece and offset asked for |
| Engine.PeerSession.WriteMore | src/aiobt/engine.py:269-269 | each part of the storage write puts the specified bytes of the verified piece in place |
| Engine.PeerSession.AfterWrite | src/aiobt/engine.py:269-278 | what follows a finished write carries out the specified step |
| Engine.PeerSession.AfterSend | src/aiobt/engine.py:278-322 | what follows a finished send carries out the specified step |
| Engine.PeerSession.Finally | src/aiobt/engine.py:331-339 | the clean-up carries out the specified step |
| Engine.PeerSession.Begin | src/aiobt/engine.py:232-238 | starting a piece on unchoke carries out the specified step |
| Engine.PeerSession.MoveOn | src/aiobt/engine.py:301-322 | moving to the next piece or signalling completion carries out the specified step |
| Engine.ChoosePiece | src/aiobt/engine.py:347-391 | in place, the choice and both shared objects end as specified, for some order in which the endgame set is walked |
| Engine.SkipUnheld | src/aiobt/engine.py:358-366 | the loop over select and mark-pending terminates and computes the specified skipping |
| Engine.PickFromEndgame | src/aiobt/engine.py:375-389 | entering endgame and the pick from its set are as specified for some walk of the set |
| Engine.EndgameState.Enter | src/aiobt/engine.py:89-94 | endgame becomes active with the given pieces and keeps the requesters already recorded |
| Engine.EndgameState.RecordRequest | src/aiobt/engine.py:96-98 | one address is added to one piece's requesters |
| Engine.EndgameState.PieceDone | src/aiobt/engine.py:100-106 | the piece and its requesters go, the requesters are returned, and endgame ends exactly with its last piece |
| Engine.EndgameState.Forget | src/aiobt/engine.py:335-338 | one address leaves every set of requesters |
| Engine.RequestPieceBlocks | src/aiobt/engine.py:394-402 | the loop sends exactly the tiling of the piece |
| Engine.RequestRunTiles | src/aiobt/engine.py:394-402 | interleaved with anything other sessions do, the requests a session sends from any block on tile the rest of its piece |
| Engine.StartAsksForAll | src/aiobt/engine.py:232-238 | a session that is given a piece requests all of it |
| Assembly.RequestsTile | src/aiobt/engine.py:394-402 | the requests tile the piece: the j-th starts at j blocks, is at most 16 KiB, and the last ends at the piece's end |
| Assembly.CompleteIffAllTiles | src/aiobt/engine.py:405-408 | with honest blocks, counting bytes reaches the length exactly when every tile is there |
| Assembly.AssembleOfHonest | src/aiobt/engine.py:411-416 | all honest tiles assemble to the piece |
| Assembly.HonestTransfer | src/aiobt/engine.py:256-267 | answers of an honest peer in any order and with duplicates: complete exactly when every tile was answered, and then the assembled bytes are the piece |
| Assembly.AssemblePiece | src/aiobt/engine.py:411-416 | sorting the keys and slice-assigning in that order yields the specified overlay, which may outgrow the piece |
| Assembly.PieceComplete | src/aiobt/engine.py:405-408 | the sum over the dict, in any order, decides completeness |
| Storage.DiskRefinesFlat | src/aiobt/storage/disk.py:100-145 | every sequence of in-range reads and writes over a valid layout answers and ends as one flat byte array, touching no other file |
| Storage.ActsFlatIffFits | src/aiobt/storage/disk.py:63-160 | prepared slices answer every sequence of in-range operations as some flat byte array does if and only if every file is at least as long as its slice and no two non-empty slices share a file |
| Storage.ShortFileShows | src/aiobt/storage/queue.py:78-88 | a file shorter than its slice: reading the last byte of the slice fails |
| Storage.SharedFileShows | src/aiobt/storage/disk.py:100-145 | two non-empty slices over one file: a byte written through one is read through the other |
| Storage.LaidOutIff | src/aiobt/storage/disk.py:26-40 | the invariant behind the results on layouts holds exactly for consecutive slices that fit their files |
| Storage.CompactRefinesFlat | src/aiobt/storage/compact.py:54-64 | the same for the single-blob backend |
| Storage.DiskAgreesWithCompact | src/aiobt/storage/disk.py:43-160 | the two backends answer every in-range sequence of operations alike and end with the same bytes |
| Storage.ReadsAgreeIffInRange | src/aiobt/storage/compact.py:54-58 | a read gives the same bytes on both backends if and only if it is empty or ends inside the space |
| Storage.WritesAgreeIffInRange | src/aiobt/storage/compact.py:60-64 | a write leaves the same bytes on both backends if and only if it is empty or ends inside the space |
| Storage.ReadIsFlat | src/aiobt/storage/disk.py:100-123 | reading slice by slice returns the addressed range of the concatenated files, cut at the end |
| Storage.WriteIsFlat | src/aiobt/storage/disk.py:125-145 | writing slice by slice changes exactly the addressed range, creates no file, keeps every size, and changes no file but those of non-empty slices |
| Storage.DiskStorage.PrepareFiles | src/aiobt/storage/disk.py:63-98 | one consecutive slice per entry, every file exists afterwards, existing files untouched; the layout is sound if and only if no two non-empty entries name one file and each file, existing or created by an earlier entry, is long enough; the space then has the declared total size |
| Storage.DiskStorage.Read | src/aiobt/storage/disk.py:100-123 | returns the addressed range of the flat space |
| Storage.DiskStorage.Write | src/aiobt/storage/disk.py:125-145 | patches the flat space and keeps the layout valid |
| Storage.CompactStorage.Prepare | src/aiobt/storage/compact.py:42-52 | the blob exists with the total size unless it existed already |
| Storage.CompactStorage.Read | src/aiobt/storage/compact.py:54-58 | reads the blob, or fails when not prepared |
| Storage.CompactStorage.Write | src/aiobt/storage/compact.py:60-64 | writes the blob, or fails and changes nothing when not prepared |
| Storage.CompactStorage.Close | src/aiobt/storage/compact.py:66-70 | the blob is released |
| Storage.FileQueue.Read | src/aiobt/storage/queue.py:78-87 | seek and read: a missing file or a short read fails |
| Storage.FileQueue.Write | src/aiobt/storage/queue.py:90-104 | seek and write: creates the file, fills a gap with zeros, grows it if need be |
| Storage.FileQueue.Ensure | src/aiobt/storage/queue.py:106-111 | creates a missing file with its size, leaves an existing one alone |
| Hashing.HashPieces | src/aiobt/create.py:184-215 | chunked reads that cross file borders produce the digests of the consecutive pieces of the concatenated content |
| Hashing.HashFile | src/aiobt/create.py:197-209 | hashing one file moves the boundary between what is digested and what is left without changing the total |
| Hashing.DigestCount | src/aiobt/piece.py:56-61 | there is one 20-byte digest per piece of the tracker |
| Hashing.DigestAt | src/aiobt/piece.py:153-163 | the digest slice a spec carries is the digest of that piece |
| Hashing.TrackerDescribes | src/aiobt/piece.py:46-70 | a tracker built from the created digests expects, at every index, the piece of the original content |
| Hashing.CheckPiece | src/aiobt/client.py:497-508 | the check of one index succeeds exactly when it is in range and its stored bytes have its digest |
| Hashing.CheckResume | src/aiobt/client.py:456-513 | marks exactly the pieces among the resumed ones (or among all, if none) that verify |
| Hashing.FullScanFindsAll | src/aiobt/client.py:480-508 | a full scan over the original files marks every piece, so the tracker is complete |
| Bencode.DecodeEncode | src/aiobt/bencode.py:207-262 | decoding an encoding gives the value back, for every nested value |
| Bencode.DecodeAllOfConcatenation | src/aiobt/bencode.py:67-75 | decoding a concatenation of encodings gives exactly the list of values |
| Bencode.PrefixFree | src/aiobt/bencode.py:207-218 | no encoding is a proper prefix of another |
| Bencode.Canonical | src/aiobt/bencode.py:53-64 | re-encoding an accepted input gives the input back if and only if all its numerals are plain decimal |
| Bencode.NonPlainDecodes | src/aiobt/bencode.py:100-122 | every numeral the decoder accepts that is not plain is by itself an input that decodes and re-encodes differently |
| Bencode.NonPlainNumerals | src/aiobt/bencode.py:100-122 | there are such numerals: `+5` and `1_0` |
| Bencode.ReprintAny | src/aiobt/bencode.py:81-97 | the same for a value inside a larger input; a numeral that is not plain makes the re-encoding shorter |
| Bencode.ReprintEntries | src/aiobt/bencode.py:162-191 | accepted dictionary entries, strictly ascending as required, re-encode in their own order |
| Bencode.ParseAnyAt | src/aiobt/bencode.py:81-97 | an encoding standing anywhere in a buffer is parsed to its value and ends where it ends |
| Bencode.ParseEntriesAt | src/aiobt/bencode.py:162-191 | sorted encoded entries are accepted and parsed back |
| Bencode.ParseAny | src/aiobt/bencode.py:81-97 | the mutually recursive parser terminates on every input and a success consumes at least one byte inside the buffer |
| Bencode.FindByte | src/aiobt/bencode.py:194-199 | the first occurrence at or behind the start, or none if there is none |
| Bencode.SortedKeysAscend | src/aiobt/bencode.py:255-262 | the printed order of keys is strictly ascending and complete |
| Bencode.AscendingIsSorted | src/aiobt/bencode.py:255-262 | there is only one such order |
| Numerals.PyIntOfDecimal | src/aiobt/bencode.py:236-239 | the integer reader takes a printed decimal back to its number |
| Numerals.ReprintedNumeral | src/aiobt/bencode.py:100-122 | a numeral the reader accepts prints back to itself if plain, and strictly shorter otherwise (sign, underscores, blanks) |
| BencodeCodec.DecodeOne | src/aiobt/bencode.py:53-64 | the decoder with a moving position computes the specified value or failure, surplus bytes included |
| BencodeCodec.DecodeEvery | src/aiobt/bencode.py:67-75 | the loop over all values computes the specified list or failure |
| BencodeCodec.DecodeAny | src/aiobt/bencode.py:81-97 | dispatch on the first byte, as specified |
| BencodeCodec.DecodeInt | src/aiobt/bencode.py:100-122 | integers with their checks on emptiness, minus zero and leading zeros |
| BencodeCodec.DecodeBytes | src/aiobt/bencode.py:125-146 | strings with their length checks |
| BencodeCodec.DecodeList | src/aiobt/bencode.py:149-159 | the growing list equals the specified items |
| BencodeCodec.DecodeDict | src/aiobt/bencode.py:162-191 | the growing dict and previous-key check equal the specified entries |
| BencodeCodec.FindByteFrom | src/aiobt/bencode.py:194-199 | the scanning loop equals the specified search |
| BencodeCodec.EncodeValue | src/aiobt/bencode.py:207-218 | joining the appended parts gives the specified encoding |
| BencodeCodec.EncodeAny | src/aiobt/bencode.py:221-233 | appends exactly the encoding of the value to the shared parts |
| BencodeCodec.AppendInt | src/aiobt/bencode.py:236-239 | appends exactly the encoding of the integer |
| BencodeCodec.AppendBytes | src/aiobt/bencode.py:242-245 | appends exactly the encoding of the string |
| BencodeCodec.AppendList | src/aiobt/bencode.py:248-252 | appends exactly the encoding of the list |
| BencodeCodec.AppendDict | src/aiobt/bencode.py:255-262 | appends exactly the encoding of the dict, keys in byte order |
| BencodeCodec.Sort | src/aiobt/bencode.py:258-258 | sorts a set of keys into the one ascending order |
| Metainfo.MetainfoRoundTrip | src/aiobt/create.py:340-392 | parsing a written metainfo gives it back if and only if it has a length or a file list and its hash is that of its info dictionary; optional fields, tiers and the private flag included |
| Metainfo.InfoRoundTrip | src/aiobt/create.py:340-365 | the info dictionary parses back, or is rejected when it has neither length nor files |
| Metainfo.FilesRoundTrip | src/aiobt/torrent.py:221-239 | file lists parse back |
| Metainfo.TiersRoundTrip | src/aiobt/torrent.py:242-256 | tracker tiers parse back |
| Metainfo.InfoHashIsOfTheFile | src/aiobt/torrent.py:264-271 | the hash, taken of a re-encoding, is the hash of the byte span of `info` in the file whenever its numerals are plain; the re-encoding is that span if and only if they are |
| Metainfo.SmallFileAccepted | src/aiobt/torrent.py:264-271 | with any such numeral as its length a whole metainfo file is accepted, and the hash is taken of bytes other than those of its own info dictionary |
| Metainfo.ParseTorrentBytes | src/aiobt/torrent.py:264-319 | the parser computes the specified metainfo or failure |
| Metainfo.ParseInfo | src/aiobt/torrent.py:264-319 | the info dictionary's required and optional fields, as specified |
| Metainfo.ParseFiles | src/aiobt/torrent.py:221-239 | the loop over file entries stops at the first bad one, as specified |
| Metainfo.ParseAnnounceList | src/aiobt/torrent.py:242-256 | the loop over tiers, as specified |
| Metainfo.DecodePath | src/aiobt/torrent.py:228-236 | the loop over path components, as specified |
| Wire.PrefixIsLength | src/aiobt/protocol.py:88-193 | the length each serialiser writes, a literal or a literal plus the size of the data, is the length of what follows it |
| Wire.FramingRoundTrip | src/aiobt/peer.py:162-188 | any list of messages that can be serialised is received unchanged from the concatenated frames, which are consumed exactly |
| Wire.ReceiveAt | src/aiobt/peer.py:170-188 | a frame anywhere in a stream is received as its message and ends at its own end |
| Wire.ParseOfPayload | src/aiobt/protocol.py:213-245 | parsing a payload gives the message back |
| Wire.PayloadOfParse | src/aiobt/protocol.py:213-245 | an accepted payload starts with the payload of the message read from it |
| Wire.ReserialisesIffExact | src/aiobt/protocol.py:213-245 | an accepted payload is reproduced by its message if and only if it has one byte (ids 0 to 3), 5 bytes (id 4), 13 bytes (ids 6 and 8) or any size (ids 5 and 7) |
| Wire.PeerConnection.ReceiveMessage | src/aiobt/peer.py:170-188 | reads exactly one frame from the stream, or reports how it failed; a stream too short for a frame is used up |
| Wire.HandshakeRoundTrip | src/aiobt/protocol.py:57-81 | a handshake is read back from its 68 bytes |
| Wire.HandshakeIsCanonical | src/aiobt/protocol.py:66-81 | an accepted handshake reproduces the 68 bytes it was read from |
| Bitfields.BitfieldIsUnique | src/aiobt/resume.py:55-61 | length, bits and zero spare bits determine the bytes, so both encoders produce the same |
| Bitfields.Encode | src/aiobt/engine.py:47-55 | setting the bits one by one gives ceil(n/8) bytes with exactly those bits and zero spare bits |
| Bitfields.DecodeMessage | src/aiobt/engine.py:58-64 | the decoder of the wire message yields the set of its bits below n |
| Bitfields.DecodeResume | src/aiobt/resume.py:64-71 | the decoder of resume files yields the same set, short data included |
| Bitfields.DecodeOfEncode | src/aiobt/resume.py:55-71 | decoding an encoded set of indices recovers it |
| Resume.LoadAfterSave | src/aiobt/resume.py:86-147 | loading what was saved restores the state exactly for the same torrent with at least one piece, and loads nothing otherwise |
| Resume.Save | src/aiobt/resume.py:86-108 | what is saved is loaded back, by any requested hash, as stated |
| Resume.LoadedIndicesInRange | src/aiobt/resume.py:111-147 | whatever a resume file contains, loaded indices are below its piece count and its hash is the requested one |
| Choking.ChokingOverRuns | src/aiobt/choking.py:164-224 | over every run of registrations, removals, lost connections, interest, traffic, mode changes and rechokes: at most max_unchoked + 1 connected peers of the dict are unchoked, the attempts to each connection alternate from Unchoke on with the flag mirroring the last, whether the dict still has its tracker or not, and the rotation counter is the number of rechokes modulo its period |
| Strays.LiveOverRuns | src/aiobt/choking.py:101-224 | over every run: all live unchoked connections together exceed max_unchoked + 1 by no more than those whose tracker left the dict, and these are exactly as many as the connected, unchoked trackers that a second registration or an unregistration took out of it, less those whose connection was lost since |
| Strays.StrayStep | src/aiobt/choking.py:101-111 | the same for one event; no event chokes a connection whose tracker left the dict, or sends it anything |
| Strays.NobodyStrayIff | src/aiobt/choking.py:101-111 | no unchoked connection is outside the dict at any time of a run if and only if no event of it registers over, or unregisters, a connected and unchoked tracker |
| Strays.BoundIff | src/aiobt/choking.py:101-224 | from any state with the invariant, max_unchoked + 1 bounds all live unchoked connections through every further run without such an event if and only if there is none outside the dict now |
| Strays.Fill | src/aiobt/choking.py:164-224 | the bound is attained: from any state with the invariant a run without such an event unchokes max_unchoked + 1 connections besides those outside the dict |
| Strays.RotationFills | src/aiobt/choking.py:191-216 | a rotating rechoke with more contenders than regular slots unchokes exactly max_unchoked + 1 peers |
| Strays.ThreeUnchokedExample | src/aiobt/client.py:943-964 | a reachable manager with one regular slot and three unchoked connections, after one address was registered twice |
| Choking.TitForTat | src/aiobt/choking.py:181-216 | after a rechoke in any reachable state with somebody contending: the unchoked are the connected slot holders, the regular slots are full or suffice for everybody and go to contenders, and no contender left choked had a higher rate for the current mode than a regular holder |
| Choking.RegularIffRank | src/aiobt/choking.py:180-189 | a contender has a regular slot exactly when fewer than max_unchoked others go before it: by a higher rate, or an equal one and an older registration |
| Choking.RegularAreTop | src/aiobt/choking.py:186-189 | the regular slots number the minimum of max_unchoked and the contenders, and nobody left out outranks a holder |
| Choking.SortRanks | src/aiobt/choking.py:180-184 | the stable descending sort puts each contender behind exactly those ahead of it |
| Choking.RotationPicksTheLeftOut | src/aiobt/choking.py:191-199 | a rotation picks a contender without a regular slot, and nobody exactly when all contenders have one |
| Choking.RechokeSettles | src/aiobt/choking.py:177-224 | a rechoke with nobody contending changes no peer; otherwise it unchokes exactly the connected slot holders and zeroes every counter |
| Choking.UnchokedAreInterestedIff | src/aiobt/choking.py:191-216 | after such a rechoke all unchoked peers are interested if and only if the optimistic slot does not stay, between rotations, with a connected peer that lost interest |
| Strays.IdleHolderExample | src/aiobt/choking.py:201-202 | a reachable manager with a regular slot whose next rechoke leaves an uninterested peer unchoked |
| Strays.NobodyContendsExample | src/aiobt/choking.py:177-178 | a reachable manager that no rechoke changes though its only peer, unchoked, has lost interest: nobody contends |
| Choking.StepKeeps | src/aiobt/choking.py:101-123 | every single event keeps the manager's invariant |
| Rechoking.ChokingManager.Rechoke | src/aiobt/choking.py:164-224 | in place over mutable trackers, one rechoke carries out the specified step |
| Rechoking.ChokingManager.Register | src/aiobt/choking.py:101-105 | a fresh tracker takes the place of an older one of the same address, which leaves the dict as it is, or goes last |
| Rechoking.ChokingManager.Unregister | src/aiobt/choking.py:107-111 | the address goes, its tracker leaves the dict as it is, the others keep their order, and an optimistic slot it held is vacated |
| Rechoking.ChokingManager.constructor | src/aiobt/choking.py:80-97 | starts without peers, with a rotation period of at least one rechoke |
| Rechoking.ChokingManager.ListContenders | src/aiobt/choking.py:171-175 | the interested and connected, in dict order, with the rate of the current mode |
| Rechoking.ChokingManager.LeftOut | src/aiobt/choking.py:192-195 | the ranked peers without a regular slot |
| Rechoking.ChokingManager.Settle | src/aiobt/choking.py:204-224 | the two loops over the dict apply the decisions and reset the counters, each peer once |
| Rechoking.PeerRates.Decide | src/aiobt/choking.py:208-220 | a message is attempted exactly when the flag changes, and never to a lost connection |
| Rechoking.PeerRates.ResetInterval | src/aiobt/choking.py:56-59 | only the two counters go to zero |
| Rechoking.TrackerUpdated | src/aiobt/engine.py:204-260 | a session that updates its own tracker changes the manager's state at that address only |
| Rechoking.StrayUpdated | src/aiobt/engine.py:204-260 | a session whose tracker left the dict changes that tracker only, and no registered peer |
| Rc4.AlwaysPermutation | src/aiobt/mse.py:89-112 | whatever the key and however much was processed, each byte value sits in S at exactly one place |
| Rc4.ProcessConcat | src/aiobt/mse.py:101-114 | processing in parts equals processing at once |
| Rc4.ProcessInvolution | src/aiobt/mse.py:101-114 | a second cipher in the same state undoes the first |
| Rc4.ProcessSlice | src/aiobt/mse.py:101-114 | any part of the output is the output for that part from the state reached there |
| Rc4.AfterSum | src/aiobt/mse.py:101-114 | the state after a and then b bytes is the state after a + b |
| Rc4.RC4.constructor | src/aiobt/mse.py:89-99 | the in-place key schedule and the discarded keystream reach the specified state |
| Rc4.RC4.Update | src/aiobt/mse.py:101-114 | in-place swaps produce the specified output and state |
| Modular.SecretsAgree | src/aiobt/mse.py:122-136 | raising each other's public values to one's own exponent gives both sides the same number |
| Mse.SharedSecret | src/aiobt/mse.py:122-136 | both sides hold the same 96 secret bytes, for all exponents and every modulus that fits 96 bytes |
| Mse.PoliciesMeet | src/aiobt/mse.py:644-660 | a method is selected exactly for compatible policies; it is within both, and RC4 unless one side disables it |
| Mse.SelectWithinOffer | src/aiobt/mse.py:644-660 | for any offer whatever, the selection was offered and is within the receiver's policy |
| Mse.LookupFinds | src/aiobt/mse.py:582-593 | the obfuscated hash identifies the initiator's torrent exactly when it is in the lookup |
| Mse.FindIsFirst | src/aiobt/mse.py:441-441 | the search yields the first occurrence, or none if there is none |
| Mse.FindInPrefix | src/aiobt/mse.py:436-443 | searching a growing buffer finds the marker as soon as it is complete, and at the place it has in the whole stream |
| Mse.MarkerDecryptsToVc | src/aiobt/mse.py:457-462 | the initiator's check of the verification constant behind the located marker cannot fail |
| Mse.ReadReplyOf | src/aiobt/mse.py:450-475 | a reply is read back from where it stands, its pad skipped |
| Mse.ReadHelloOf | src/aiobt/mse.py:600-638 | the initiator's block is read back from where it stands, initial payload length included |
| Mse.ReceiverAgrees | src/aiobt/mse.py:540-660 | an honest receiver fails exactly for an unknown torrent or incompatible policies, and otherwise knows the torrent, the method and the end of the handshake |
| Mse.InitiatorAgrees | src/aiobt/mse.py:376-497 | whenever the receiver has an answer, the initiator reads it and agrees |
| Mse.MarkersInReach | src/aiobt/mse.py:441-443 | each marker is found right behind its pad, so within 512 bytes, short of the lengths at which either side gives up |
| Mse.SameDerivation | src/aiobt/mse.py:144-167 | the two sides derive the same markers and the same pair of ciphers |
| Mse.HonestScene | src/aiobt/mse.py:376-683 | for any hash function, torrent, policies, exponents, pad sizes and payloads there is an exchange that meets the hypotheses of the statements about honest peers |
| Mse.HonestScansFind | src/aiobt/mse.py:434-443 | under every schedule of arrivals both scans find their marker, before either limit and before the end of the stream |
| Mse.PlainInitiatorKeepsIff | src/aiobt/mse.py:436-495 | with plaintext selected, for every schedule of arrivals: the initiator goes on with all of the receiver's payload if and only if its scan takes nothing beyond the reply, that is if it reads as if the payload were not there yet |
| Mse.PlainReceiverKeepsIff | src/aiobt/mse.py:568-683 | the same for the receiver, its scan and what follows the initiator's block |
| Mse.WaitingLosesNothing | src/aiobt/mse.py:570-578 | the receiver loses nothing, whatever the chunks, when its scan runs as over the initiator's handshake alone, as it does with every initiator that sends payload only when it has the reply |
| Mse.PlainInitiatorContinuesIff | src/aiobt/mse.py:436-495 | with plaintext selected the initiator goes on with the receiver's payload under every schedule of arrivals if and only if there is no payload; a receiver is free to send payload right behind its reply |
| Mse.PlainReceiverContinuesIff | src/aiobt/mse.py:568-683 | the same for the receiver, when the initiator's payload may arrive any time behind its block: only an initiator that sends payload without waiting for the reply gives occasion to a loss |
| Mse.ReplyReadAhead | src/aiobt/mse.py:436-443 | for any payload, a schedule of two chunks under which the initiator goes on without the payload's first byte |
| Mse.HelloReadAhead | src/aiobt/mse.py:570-578 | for any payload sent without waiting for the reply, a schedule of two chunks under which the receiver goes on without the payload's first byte |
| Mse.NobodyWaits | src/aiobt/mse.py:383-683 | two honest sides with compatible policies and a listed torrent, for any schedule: each has received all that the other sent and sends nothing more on it if and only if both have sent their whole handshakes, so neither waits for what the other has not sent |
| Mse.SentByA | src/aiobt/mse.py:383-417 | with nothing received the initiator has sent its key and pad, and with anything that begins with the receiver's key its whole handshake |
| Mse.SentByB | src/aiobt/mse.py:552-683 | with anything that begins with the initiator's key the receiver has sent its own and its pad, and with the initiator's handshake its whole reply |
| Mse.InitiatorSendsMore | src/aiobt/mse.py:383-417 | the more has arrived, the more an initiator has sent: what was sent for a prefix is a prefix |
| Mse.ReceiverSendsMore | src/aiobt/mse.py:552-683 | the same for a receiver, for any bytes from any initiator and any schedule |
| MseHandshake.Initiate | src/aiobt/mse.py:376-497 | for any incoming stream and schedule of arrivals: what is sent (the function of the stream that Mse.NobodyWaits is about), which verdict is reached (giving up exactly when the scan passes its limit), how far the stream is consumed, and where both ciphers of the resulting stream stand |
| MseHandshake.Receive | src/aiobt/mse.py:540-683 | the same for the receiver, with the torrent found and the reply sent |
| MseHandshake.AwaitReply | src/aiobt/mse.py:420-497 | finding, reading and judging the reply, with bytes read ahead kept decrypted for the stream |
| MseHandshake.ReadAnnouncement | src/aiobt/mse.py:563-660 | finding the hash, identifying the torrent, reading the block and selecting |
| MseHandshake.ScanFor | src/aiobt/mse.py:434-443 | the scan in chunks ends where the schedule says: with the first occurrence in the whole stream, at the end of the stream, or past its limit without the marker |
| MseHandshake.Fill | src/aiobt/mse.py:450-455 | reads on until enough is there and never past it, failing exactly when the stream is too short |
| MseHandshake.InitiateHonest | src/aiobt/mse.py:376-497 | the initiator's side alone: it returns under every schedule, and with plaintext its stream holds what its scan left of the payload |
| MseHandshake.ReceiveHonest | src/aiobt/mse.py:540-683 | the receiver's side alone, likewise |
| MseHandshake.HonestExchange | src/aiobt/mse.py:376-683 | two honest sides with compatible policies, any pads and any schedules both return, for the same torrent and method, having sent what the other read; with RC4 nothing is delivered or written yet and in each direction payload starts, with equal ciphers, right where the handshake ends |
| MseHandshake.ConversationFromTheStart | src/aiobt/mse.py:200-226 | at any later time what a caller got, with the buffer, is exactly the beginning of what the other caller wrote after the handshake |
| MseHandshake.ExchangeMessages | src/aiobt/mse.py:376-683 | a handshake and a message each way: each side reads exactly the other's message, however much of it a scan had already taken |
| MseHandshake.Lockstep | src/aiobt/mse.py:144-156 | with nothing in flight the sender's and the receiver's cipher agree in S, i and j |
| EncryptedStreams.Fifo | src/aiobt/mse.py:200-226 | what was delivered together with the buffer is exactly that much of what the other side wrote, for any mix of operations and any chunking |
| EncryptedStreams.EncryptedStream.ReadExactly | src/aiobt/mse.py:200-209 | delivers exactly n bytes in order, or nothing exactly when buffer and stream together are too short |
| EncryptedStreams.EncryptedStream.Read | src/aiobt/mse.py:211-220 | delivers up to n bytes in order, and none only at the end of the stream |
| EncryptedStreams.EncryptedStream.Write | src/aiobt/mse.py:224-226 | appends to what the other side will read |
| EncryptedStreams.PlaintextStream.ReadExactly | src/aiobt/mse.py:271-272 | passes on exactly the next n bytes; if fewer are left it fails and nothing is left |
| EncryptedStreams.PlaintextStream.Read | src/aiobt/mse.py:274-275 | passes on a prefix of what is left |
| Streams.StreamReader.Read | src/aiobt/mse.py:203-203 | the transport: a prefix of what is left, as long as the schedule of arrivals says, empty only at the end |
| Streams.StreamReader.ReadExactly | src/aiobt/peer.py:170-188 | the transport: n bytes, or a failure at the end of the stream with which the rest is discarded |

## Left out

- Sockets, asyncio tasks, timeouts and cancellation; trackers, local discovery, address probing; events,
  statistics, handles and command-line tools: input and output, or thin wrappers without a hard property.
- SHA-1 itself, randomness, the concrete Diffie-Hellman prime and its primality: parameters; only that the
  modulus is positive and fits 96 bytes is used.
- Text decoding of names, paths and URLs: they are byte strings.  Booleans as integers, Python's limit on the
  digits of an integer and on recursion depth are not modelled; integers are unbounded.
- Download liveness: a session that found no piece is not woken by a later Have, so nothing is claimed
  beyond the completeness of each choice.
- The engine is modelled as the client calls it, with rates, endgame record and choking manager present; the
  mode that unchokes everybody on Interested is not.
- The endgame cancel broadcast only sends messages to other peers and changes no modelled state.
- Several torrents sharing one storage; scanning directories and joining paths when a torrent is created;
  the optimal piece size; the rename behind an atomic save.
- `list.sort` and `sorted` appear as stable insertion sorts written as functions, and `bytes.find` as a
  recursive search; dict iteration is in insertion order where the source depends on it, else in any order.
- One rechoke is one step: registrations between its awaits are not modelled.
- The rotation period of the choking manager comes from rounding a quotient of two intervals; the rounded
  quotient is an input.
- EncryptedStreams.EncryptedStream.Read: negative sizes, which the transport reads as "until the end".
- Hashing.CheckResume: the method runs without interruption; the resume check interleaved with sessions is part of
  the runs.
- Removing a torrent also sets the completion event, whether or not the download is complete; it ends the sessions
  and is not an event of a run.
