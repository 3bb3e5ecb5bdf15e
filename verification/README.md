# Verification of the download engine, the version order and the build queue

A Dafny model of three parts of this repository, each proved against what it is for.

**The BitTorrent engine of `wubi/src/bittorrent/`.** `Storage.dfy` maps one flat byte space onto many files.
`Requests.dfy` keeps the books on which blocks of a piece are unrequested, outstanding or received. `Placement.dfy` is
the argument behind storing pieces in whatever positions exist and moving them as positions open; `Scan.dfy` is the
check of existing files at the start; `StorageWrapper.dfy` is the class over all of them. `PiecePicker.dfy` is the index
of pieces by rarity. `Swarm.dfy` and `SwarmEvents.dfy` hold the facts about peers, as values, that `Downloader.dfy`, the
request scheduler, needs for each event. `Bitfield.dfy`, `Connecter.dfy` and `PeerStream.dfy` go from the bytes of a
connection to those events; `Choking.dfy`, `Choker.dfy` and `Uploader.dfy` are the upload side. `Bencode.dfy` is the
codec of the torrent files. The main results are `FinishedIsComplete`, `BlockInOnePlace`, `EndgameIndex`, `NeverTwice`,
`NobodyIdle`, `NobodyIdleInEndgame`, `RequestMore`, `PickerAgrees`, `NobodyStarves`, `AnyChunks` and `DecodesExactly`.

**The version order of opkg.** `OpkgVersions.dfy` proves the C and the Python comparison to be one token-by-token order,
and that to be a total preorder, and on which whole versions the programs agree; `OpkgPackages.dfy` proves what the
package index needs of it.

**The build queue of `webui/`.** `BuildQueue.dfy` is a system of steps (worker, handlers, Docker daemon, crash and
restart) with its safety over all runs (`Safe`, `ResumedLog`, `NoFailedStart`, `RunsExactly`, `FinalStates`).
`LogStream.dfy` is the streaming of logs to clients (`StreamedWhole`), with the conversion to text of `Utf8.dfy`.
`Runner.dfy` has the mutex-protected sections as methods that make those steps, and retention.

Classes of the source that update their fields are classes here, with loops where the source has loops. SHA-1 is a
function about which nothing is assumed. Random choices (`shuffle`, `randrange`, `choice`) are methods that promise no
more than their outcome is possible, so everything holds for every choice. Transfer rates and "snubbed" flags, which
depend on the clock, are arguments. An event of a connection is one step; the invariants hold between events. A
`connection.close()` inside an event is returned as a list of connections, each to be followed by `Disconnected`.

Where names or comments suggest otherwise the model follows the code: in the C program the operators `<` and `>`
include equality; although `_versioncompare` and `verrevcmp` are one order, the two programs do not order all whole
versions with a "-r" part alike (`ProgramsAgree` says which, `ProgramsDisagree` shows two); a log that is not ASCII may
reach a client with replacement characters (`AnyTiming`, `SplitCharacter`); a container whose `docker start` is reported
as failed may run on for a job that is over (`FailedStartStraysRun`; `NoFailedStart` says that nothing else does that);
and after a bad piece a peer may be left without work (`GotPiece`, `OverlookedExactly`).

`dafny verify dfyconfig.toml` checks everything.

## Model

| member | source | states |
|---|---|---|
| Bytes.ToIntOfBinary | wubi/src/bittorrent/Encrypter.py:10-15 | A number below 2^32 written as four bytes, highest first, reads back as itself. |
| FlatStorage.Storage.constructor | wubi/src/bittorrent/Storage.py:8-42 | Opening any list of distinct files, some of length zero and some already on disk, gives nonempty, adjoining ranges from byte 0 to the total length; each file keeps what it held up to its own length, and files that are not listed are untouched. |
| FlatStorage.RangeOfFile | wubi/src/bittorrent/Storage.py:10-25 | Every file of nonzero length has a range of exactly that length, right after all files listed before it, and the space is as long as all of them together. |
| FlatStorage.Storage.Intervals | wubi/src/bittorrent/Storage.py:61-69 | For a position inside the space the loop returns the stretches that `IntervalsTile` is about. |
| FlatStorage.IntervalsTile | wubi/src/bittorrent/Storage.py:61-69 | The stretches returned cover exactly the requested flat range, cut at the end of the space, in order and without gap or overlap. |
| FlatStorage.ChunksAreFlat | wubi/src/bittorrent/Storage.py:71-77 | Reading the stretches of a range one after the other gives the bytes of that range of the flat space, provided they are on disk. |
| FlatStorage.PatchIsSplice | wubi/src/bittorrent/Storage.py:79-90 | Writing some bytes at an offset inside one file changes exactly the corresponding bytes of the flat space, even when the file was too short and is filled up with zeros. |
| FlatStorage.Storage.Read | wubi/src/bittorrent/Storage.py:71-77 | A range whose bytes are on disk is read back as that range of the flat space. |
| FlatStorage.Storage.Write | wubi/src/bittorrent/Storage.py:79-90 | The flat space afterwards is the old one with the given bytes spliced in (cut at the end); they are on disk, so a read returns them; no file shrinks, files outside the range are as they were, and exactly the files of the range are opened for writing in addition. |
| FlatStorage.Storage.PreallocatedIsPresent | wubi/src/bittorrent/Storage.py:44-48 | A range that was preallocated when the files were opened is readable ever after. |
| FlatStorage.Storage.PreallocatedExactly | wubi/src/bittorrent/Storage.py:44-48 | A range counts as preallocated exactly if every file it touches had, when it was opened, all bytes up to the end of the part that is touched. |
| Requests.CutCovers | wubi/src/bittorrent/StorageWrapper.py:101-109 | The list of requests made for a piece covers the piece from start to end without gap or overlap. |
| Requests.TileExactly | wubi/src/bittorrent/StorageWrapper.py:101-109 | There are as many requests as the length of the piece divided by the request size, rounded up; the k-th begins at k times the request size, and all but the last are of exactly that size. |
| Requests.OutstandingOnce | wubi/src/bittorrent/StorageWrapper.py:123-134 | An outstanding request is a block of its piece, lies inside it, is outstanding once and has not been received. |
| Requests.NothingUnasked | wubi/src/bittorrent/StorageWrapper.py:131-133 | `amount_inactive` is never negative, and is zero exactly when no piece has a request left to give, so endgame begins exactly then. |
| Requests.NewRequestBalanced | wubi/src/bittorrent/StorageWrapper.py:123-134 | Handing out a request takes a block that is neither outstanding nor received, and leaves every block of every piece in exactly one place and the running total equal to its sum. |
| Requests.NewRequestFirst | wubi/src/bittorrent/StorageWrapper.py:123-134 | The block handed out begins before all others that are left of its piece. |
| Requests.RequestLostBalanced | wubi/src/bittorrent/StorageWrapper.py:193-196 | Giving an outstanding request back keeps that balance. |
| Requests.ArrivedBalanced | wubi/src/bittorrent/StorageWrapper.py:177-190 | The arrival of an outstanding block keeps that balance, whether or not its piece turns out bad; when the piece is judged, all its blocks have been received. |
| Requests.LastBlockExactly | wubi/src/bittorrent/StorageWrapper.py:177-190 | A piece is judged when a block comes in exactly if all its other blocks have come in. |
| Placement.UnplacedMeansHole | wubi/src/bittorrent/StorageWrapper.py:144-145 | As long as a piece is not placed there is a hole, so `holes.pop(0)` does not fail. |
| Placement.LastHoleIsOnly | wubi/src/bittorrent/StorageWrapper.py:143-175 | If the first hole is the last position, every other piece is placed: the counting argument that keeps full pieces out of a short last position. |
| Placement.StrayGoesHome | wubi/src/bittorrent/StorageWrapper.py:146-155 | First case: the piece whose home is the hole moves there and the new piece takes its position. All placed pieces keep their bytes, positions stay an exact partition into placed and free, and every piece fits. |
| Placement.TwoStraysMove | wubi/src/bittorrent/StorageWrapper.py:156-163 | Second case: two pieces move and the new one goes home, with the same guarantees; the position copied as a whole is a full one. |
| Placement.TakeHole | wubi/src/bittorrent/StorageWrapper.py:164-167 | Third case: the new piece takes the hole, with the same guarantees whatever filler is written. |
| Placement.OneStrayMoves | wubi/src/bittorrent/StorageWrapper.py:168-175 | Fourth case: the piece on the home of the new one moves to the hole and the new one goes home, with the same guarantees. |
| Placement.HoleForUnplaced | wubi/src/bittorrent/StorageWrapper.py:143-153 | What the first steps rely on: the hole exists, is not listed twice, and a piece that belongs there sits elsewhere, in a position no shorter than its own length. |
| Placement.PieceAtIndex | wubi/src/bittorrent/StorageWrapper.py:157-171 | Both searches through `places` find the piece they look for. |
| Placement.AllPlacedIsIdentity | wubi/src/bittorrent/StorageWrapper.py:143-191 | Once every piece is placed there are no holes and every piece is at its own position. |
| Placement.SlotWrite | wubi/src/bittorrent/StorageWrapper.py:152-176 | A write inside one position changes the bytes of that position alone. |
| Scan.Recognise | wubi/src/bittorrent/StorageWrapper.py:71-78 | Whichever branch the start-up check takes at a position, the piece it records there, if any, was not recorded before, its bytes have the right hash, it fits, and its own home is preallocated only if it is this position; the lists of wanted hashes stay right; and a position is given up only if no piece that is still missing sits there. |
| Scan.ScanLast | wubi/src/bittorrent/StorageWrapper.py:75-76 | The branch for the last piece is only reached for a short last piece that sits at another position. |
| Scan.ScanDone | wubi/src/bittorrent/StorageWrapper.py:61-78 | The scan leaves the placement invariant, and only preallocated positions occupied. |
| PieceStore.Open | wubi/src/bittorrent/StorageWrapper.py:15-84 | Construction fails exactly when the length contradicts the number of hashes; otherwise the whole invariant holds, no piece is under way, every preallocated piece found at home is one we have, and no missing piece whose home is not preallocated sits whole at a position where nothing was recognised, nor the last piece at the beginning of one. |
| PieceStore.StorageWrapper.PreExactly | wubi/src/bittorrent/StorageWrapper.py:86-93 | A position is looked at exactly if its whole length was preallocated. |
| PieceStore.StorageWrapper.Scan | wubi/src/bittorrent/StorageWrapper.py:43-84 | The two loops of the constructor and the call of `finished` establish the invariant from any files on disk, find every piece that is at home, and miss none that is elsewhere. |
| PieceStore.StorageWrapper.Place | wubi/src/bittorrent/StorageWrapper.py:144-175 | Placing a piece, in all four cases, keeps the placement invariant and the bytes of every placed piece; the branch that reports corrupted data is never taken. |
| PieceStore.StorageWrapper.MakeInactive | wubi/src/bittorrent/StorageWrapper.py:101-109 | The loop produces the list that `CutCovers` is about. |
| PieceStore.StorageWrapper.NewRequest | wubi/src/bittorrent/StorageWrapper.py:123-134 | `new_request` keeps the whole invariant and adds the block it returns to the outstanding ones. |
| PieceStore.StorageWrapper.RequestLost | wubi/src/bittorrent/StorageWrapper.py:193-196 | `request_lost` of an outstanding block keeps the whole invariant and takes the block off the outstanding ones. |
| PieceStore.StorageWrapper.PieceCameIn | wubi/src/bittorrent/StorageWrapper.py:143-191 | The block is in its piece afterwards and no other byte of any placed piece changed; the piece becomes one we have exactly if this was its last block and its bytes have the promised hash, and is started over exactly if they have not. |
| PieceStore.StorageWrapper.GetPiece | wubi/src/bittorrent/StorageWrapper.py:205-215 | Returns bytes exactly for ranges inside pieces we have whose bytes match their hash, and then those bytes; a piece that matches counts as checked from then on; `failed` is reported exactly for a piece taken on trust that does not match. |
| PieceStore.StorageWrapper.FinishedIsComplete | wubi/src/bittorrent/StorageWrapper.py:43-84 | When `finished` has been called (once), every piece is at its own position and, with hash checking, every byte range has the promised hash; without it, every range that was ever hashed. |
| PieceStore.NothingLeft | wubi/src/bittorrent/StorageWrapper.py:183-185 | The sum that `amount_left` equals is zero exactly when every piece is there. |
| Picker.PiecePicker.constructor | wubi/src/bittorrent/PiecePicker.py:7-17 | A new picker has every piece in bucket 0. |
| Picker.PiecePicker.ShiftOver | wubi/src/bittorrent/PiecePicker.py:35-49 | Moving a piece between buckets, to whatever random position, leaves buckets and positions in agreement. |
| Picker.PiecePicker.GotHave | wubi/src/bittorrent/PiecePicker.py:19-26 | Counts the piece once more unless it is complete, and keeps the index. |
| Picker.PiecePicker.LostHave | wubi/src/bittorrent/PiecePicker.py:28-33 | Counts the piece once less unless it is complete, and keeps the index. |
| Picker.PiecePicker.Requested | wubi/src/bittorrent/PiecePicker.py:51-55 | Lists the piece as started, once, and as started with seeds if asked, at the end of each list. |
| Picker.PiecePicker.Complete | wubi/src/bittorrent/PiecePicker.py:57-70 | The piece leaves its bucket and both lists of started pieces; one exception handler for two removals is enough. |
| Picker.PiecePicker.CompleteMeansAll | wubi/src/bittorrent/PiecePicker.py:99-100 | `am_I_complete` holds exactly when every piece has been completed. |
| Picker.PiecePicker.Bump | wubi/src/bittorrent/PiecePicker.py:102-108 | The piece moves to the end of its bucket, the others keep their order, and the index is kept. |
| Picker.PiecePicker.BucketsAgree | wubi/src/bittorrent/PiecePicker.py:10-12 | Bucket k holds exactly the incomplete pieces counted k times, each once. |
| Picker.PiecePicker.PositionsAgree | wubi/src/bittorrent/PiecePicker.py:11-49 | Every piece of a bucket is where its recorded position says. |
| Picker.PiecePicker.Next | wubi/src/bittorrent/PiecePicker.py:72-97 | None exactly when no started piece is wanted and, past the cutoff, no wanted piece is held by a peer (before it, none is wanted at all); otherwise a least common wanted piece among the started ones, else the first wanted one of the scrambled order before the cutoff, else a least common wanted piece of all that some peer has, the first such of its bucket. |
| Downloads.Start | wubi/src/bittorrent/download.py:259-266 | A download set up over any storage starts in the invariant, with the picker told what is there already. |
| Downloads.Downloader.MakeDownload | wubi/src/bittorrent/Downloader.py:247-249 | A new connection keeps the invariant. |
| Downloads.Downloader.FixDownloadEndgame | wubi/src/bittorrent/Downloader.py:173-188 | In endgame a peer is asked, up to the backlog, for outstanding blocks it can give and is not yet asked for, is marked interesting exactly as that calls for, and keeps what it was asked for. |
| Downloads.Downloader.RequestMore | wubi/src/bittorrent/Downloader.py:117-171 | Before endgame requests are taken until the backlog is full or the peer has nothing left to give, each for the first block left of a piece that is due at that moment: of the offered pieces the first wanted one, and with no offer a wanted piece under way that fewest connected peers have, else, past the cutoff, any wanted piece that fewest have (`Rightly`, `Picked`). Peers that can give nothing more lose the mark. In endgame, and when the last block is handed out, every peer is asked for as much as the backlog allows or all it has of what is outstanding. |
| Downloads.Downloader.LetGo | wubi/src/bittorrent/Downloader.py:28-50 | Blocks given back are neither lost nor doubled, unchoked peers are asked for blocks of their pieces and of no others, and choked peers that have them are marked; in endgame nothing else happens. |
| Downloads.Downloader.GotChoke | wubi/src/bittorrent/Downloader.py:52-55 | A choke keeps the invariant, in endgame too, and leaves the peer asked for nothing; before endgame the others are asked for blocks of the pieces it was asked for and of no others. |
| Downloads.Downloader.GotUnchoke | wubi/src/bittorrent/Downloader.py:57-61 | An unchoke keeps the invariant; a marked peer is asked for what is due, as in `RequestMore`, and is no longer late; for one that is not marked nothing else changes. |
| Downloads.Downloader.Disconnected | wubi/src/bittorrent/Downloader.py:21-26 | A disconnect keeps the invariant without the peer, changes nothing that the others have said, and makes none of them late; before endgame the others are asked for blocks of the pieces it was asked for and of no others. |
| Downloads.Downloader.GotHave | wubi/src/bittorrent/Downloader.py:190-206 | A peer that announces a piece keeps the invariant; before endgame it is asked for blocks of that piece only, and nobody else for anything; its connection is closed exactly if the piece is news, all is complete here and the peer now has every piece. |
| Downloads.Downloader.GotHaveBitfield | wubi/src/bittorrent/Downloader.py:208-226 | A bitfield as first message keeps the invariant; the connection is closed exactly if all is complete here and the peer has every piece, and otherwise the peer is marked interesting exactly if it has a block that is wanted: one not requested yet or, in endgame, one that is outstanding. |
| Downloads.Downloader.GotPiece | wubi/src/bittorrent/Downloader.py:69-112 | A block the peer was not asked for changes nothing; one it was asked for is written, once in the current attempt at its piece; the answer tells whether the piece is now complete with the right hash, and exactly when that completes the download are the connections to all peers that have everything, and to no others, closed. Before endgame the peer is then asked for what is due, as in `RequestMore`, and nobody else for anything; after a bad piece that piece goes to the end of its bucket, peers are offered blocks of it and of no other, no choked peer is newly marked, and only the sender and the choked unmarked peers with that piece join `late`; any other block takes its sender off. In and out of endgame, and whether or not the hash fails, the invariant is kept. |
| Downloads.Downloader.AskAgain | wubi/src/bittorrent/Downloader.py:82-84 | After a bad piece in endgame the loop ends with all its blocks outstanding and listed again. |
| Downloads.Downloader.DropFromOthers | wubi/src/bittorrent/Downloader.py:96-107 | In endgame the block that came in is taken off the list of every other peer. |
| Downloads.Downloader.BlockInOnePlace | wubi/src/bittorrent/Downloader.py:28-55 | Before endgame every block of a piece under way is either unrequested, asked of exactly one peer once, or received, and there are no others. |
| Downloads.Downloader.Amounts | wubi/src/bittorrent/StorageWrapper.py:123-196 | `amount_inactive` and `amount_left` equal the sums they stand for, in every reachable state. |
| Downloads.Downloader.NobodyIdle | wubi/src/bittorrent/Downloader.py:117-165 | Before endgame, whatever happened before, an unchoked peer that has an unrequested block is asked for the full backlog, and a choked peer that has one is marked interesting, except those in `late`: the senders of bad pieces, until they send a good block or unchoke us while marked, and the peers that a bad piece overlooked. A choked peer outside `late` is marked only if it has such a block. |
| Downloads.Downloader.NobodyIdleInEndgame | wubi/src/bittorrent/Downloader.py:166-188 | In every reachable state of endgame an unchoked peer is asked for the full backlog or for every outstanding block that it has, and a choked one is marked interesting exactly if it has an outstanding block. |
| Downloads.Downloader.UnderWay | wubi/src/bittorrent/PiecePicker.py:51-67 | In every reachable state the pieces that the picker lists as started are incomplete, and every piece that is cut into requests is one of them. |
| SwarmEvents.OverlookedExactly | wubi/src/bittorrent/Downloader.py:88-93 | A choked and unmarked peer that has the bad piece is not marked when that piece is started over; it is left without work exactly as long as the piece has a request to give. `GotPiece` states this of every such peer. |
| Downloads.Downloader.EndgameIndex | wubi/src/bittorrent/Downloader.py:166-188 | In endgame `all_requests` holds exactly the outstanding blocks, each once, `numactive` counts them per piece, and every peer is asked for a duplicate-free part of them no larger than the backlog. |
| Downloads.Downloader.NeverTwice | wubi/src/bittorrent/Downloader.py:69-112 | A received block is asked of nobody until its piece is started over, so none is written twice in one attempt, in endgame too. |
| Downloads.Downloader.PickerAgrees | wubi/src/bittorrent/Downloader.py:21-26 | In every reachable state bucket m of the picker holds exactly the pieces we lack that m connected peers have, at the recorded positions. |
| Bitfields.ParseInvertsPack | wubi/src/bittorrent/bitfield.py:32-70 | A byte string is accepted for a length exactly when it is the printed form of a bit array of that length, and then yields that array. |
| Bitfields.PackedBit | wubi/src/bittorrent/bitfield.py:63-70 | In the printed form flag i is bit i mod 8, counted from the highest, of byte i / 8. |
| Bitfields.Parse | wubi/src/bittorrent/bitfield.py:34-47 | The parsing constructor accepts exactly those strings, and counts the false bits right. |
| Bitfields.Bitfield.SetItem | wubi/src/bittorrent/bitfield.py:52-55 | Setting a bit keeps `numfalse` the number of false bits. |
| Bitfields.Bitfield.ToString | wubi/src/bittorrent/bitfield.py:63-70 | The printed form parses back to the same bits. |
| Bitfields.Bitfield.CompleteMeansAll | wubi/src/bittorrent/bitfield.py:72-73 | `complete` holds exactly when every bit is set. |
| Connecting.EncodedIsParsed | wubi/src/bittorrent/Connecter.py:53-83 | What a `send_` method writes is read by `got_message` as the same message, or refused if it means nothing in the torrent. |
| Connecting.ReadExactly | wubi/src/bittorrent/Connecter.py:156-223 | A message is not refused only if it is, byte for byte, what is sent for the message it is read as, and that means something in the torrent. |
| Connecting.MessagesWritten | wubi/src/bittorrent/Connecter.py:15-28 | The nine kinds of messages written out, with their numbers 0 to 8. |
| Connecting.Connecter.GotMessage | wubi/src/bittorrent/Connecter.py:156-223 | Any message keeps the invariants of download and upload. A malformed one, or a bitfield that is not the first message, closes the connection and changes nothing else, the files included; otherwise the peer stands as its message says, its interest, requests and cancels have their effect on the upload and nothing else has, no other peer is affected, and the connections closed are exactly those to peers of no more use, or its own after a request that is refused. A block that the peer was asked for is in its piece afterwards, once in this attempt, and everybody is told of the piece exactly if that was its last block and the hash is right; nothing else touches the pieces. |
| PeerStream.Connection.DataCameIn | wubi/src/bittorrent/Encrypter.py:116-137 | The loop over any chunk ends, and state and trace are those of the byte-at-a-time reading, the step from which `AnyChunks` follows. |
| PeerStream.AnyChunks | wubi/src/bittorrent/Encrypter.py:116-137 | Run on the stream cut into any chunks, the loop leaves the state, and has written, made, delivered and closed the same, as run once on the whole. |
| PeerStream.FrameIsMessage | wubi/src/bittorrent/Encrypter.py:88-97 | A frame is delivered as one message; a keepalive is not passed on. |
| PeerStream.LongFrameCloses | wubi/src/bittorrent/Encrypter.py:88-92 | A frame longer than allowed ends the connection. |
| PeerStream.FramesAreMessages | wubi/src/bittorrent/Encrypter.py:113-137 | Any sequence of messages sent in frames is delivered in order and whole. |
| PeerStream.HandshakeExactly | wubi/src/bittorrent/Encrypter.py:48-86 | A 68-byte handshake completes the connection exactly when name, download id and peer id are acceptable, and then the id is noted, the rest of our own handshake is written and the connecter told; otherwise the connection is closed without ever having been announced. |
| PeerStream.HandshakesMeet | wubi/src/bittorrent/Encrypter.py:30-86 | What one client writes is what completes the other, whether or not the one that connects knew the id of the other, and each has written its whole handshake by then; the one that is connected to answers once it has read the download id. |
| PeerStream.Announced | wubi/src/bittorrent/Encrypter.py:102-111 | In every state of a connection the connecter was told of it exactly if it is complete, and of its loss exactly if it is complete and closed; nothing follows. |
| PeerStream.Connection.ReadId | wubi/src/bittorrent/Encrypter.py:69-86 | The peer id is accepted exactly when it is the one expected, or new and not our own. |
| OpkgVersions.VerRevCmp | 2.12/tools/opkg-utils/opkg-compare-versions.c:41-66 | The pointer loops return a number with the sign of the token-by-token order (Debian Policy section 5.6.12), and never step past a terminator. |
| OpkgVersions.VersionComparePy | 2.12/tools/opkg-utils/opkg.py:71-118 | The list loops return that order itself. |
| OpkgVersions.CompareIsPreorder | 2.12/tools/opkg-utils/opkg-compare-versions.c:41-66 | The order is reflexive, total, antisymmetric in sign and transitive. |
| OpkgVersions.WordsDiffer | 2.12/tools/opkg-utils/opkg-compare-versions.c:49-53 | After equal beginnings the first characters that differ decide, with "~" below the end of the string and letters below other characters. |
| OpkgVersions.OrderIs | 2.12/tools/opkg-utils/opkg-compare-versions.c:35-39 | The order of characters: "~" below the end of a string, then letters, then all others, each in ASCII order. |
| OpkgVersions.NumbersRead | 2.12/tools/opkg-utils/opkg-compare-versions.c:55-63 | What the number loop decides, by length after leading zeros and then by first difference, is the order of the numbers. |
| OpkgVersions.VersionCompareC | 2.12/tools/opkg-utils/opkg-compare-versions.c:68-78 | Epoch, then version, then revision. |
| OpkgVersions.VersionSatisfied | 2.12/tools/opkg-utils/opkg-compare-versions.c:80-99 | Each operator tells the order; "<" and ">" include equality; any other operator ends the program. |
| OpkgVersions.VersionCompare | 2.12/tools/opkg-utils/opkg.py:120-134 | Whole versions are compared by epoch, upstream part and "-r" part. |
| OpkgVersions.SplitExactly | 2.12/tools/opkg-utils/opkg.py:120-134 | A version is split before the first "-r" that is neither at its beginning nor at its end, and not at all if there is none. |
| OpkgVersions.ComparedInTurn | 2.12/tools/opkg-utils/opkg-compare-versions.c:68-78 | Both programs compare epochs first, the smaller one before the larger, then versions or upstream parts, then revisions or "-r" parts, a missing one being empty. |
| OpkgVersions.CompareParsedIsPreorder | 2.12/tools/opkg-utils/opkg-compare-versions.c:68-78 | The order of whole parsed versions is a total preorder. |
| OpkgVersions.CompareVersionsIsPreorder | 2.12/tools/opkg-utils/opkg.py:120-134 | So is the order of the Python program. |
| OpkgVersions.ProgramsAgree | 2.12/tools/opkg-utils/opkg.py:120-134 | The two programs order two versions alike exactly if `Alike` holds of them: the epochs differ; or the upstream parts, read in step, differ while both go on; or both end together; or one ends while the other goes on with something that sorts against the end of the string as it does against the "-r" part that the first has there, if any, which the predicate spells out by the first character that is left ("~", a digit, "-", another). |
| OpkgVersions.UsuallyAlike | 2.12/tools/opkg-utils/opkg.py:120-134 | So they do when neither has a "-r" part, when both have the same upstream part, and when each upstream part goes on where the two first differ, as in "1.2-r0" and "1.3-r0". |
| OpkgVersions.ProgramsDisagree | 2.12/tools/opkg-utils/opkg-compare-versions.c:101-131 | They differ on "1-r2" and "1a": the C parser never splits off a revision. |
| PackageIndex.Packages.AddPackage | 2.12/tools/opkg-utils/opkg.py:568-584 | Keeps, under every name, a package at least as new as all added under it, and returns 1 exactly when the new one is older than the kept one. |
| PackageIndex.KeysExactly | 2.12/tools/opkg-utils/opkg.py:568-575 | Packages share a name in the index exactly if they share package and architecture, and version as well if old versions are kept, as long as package and architecture hold no colon. |
| PackageIndex.Packages.AddAll | 2.12/tools/opkg-utils/opkg.py:586-600 | So does adding any list of packages. |
| PackageIndex.OrderIndependent | 2.12/tools/opkg-utils/opkg.py:568-584 | Adding the same packages in another order gives the same names with versions of equal rank. |
| Choking.SweptIs | wubi/src/bittorrent/Choker.py:48-61 | The sweep unchokes all preferred connections, leaves the first connection unchoked, keeps within the larger of both limits, chokes somebody only if enough are active, and unchokes an interested connection that is not preferred if there is one. |
| Choking.SweptExactly | wubi/src/bittorrent/Choker.py:48-61 | A connection is choked exactly if it is not preferred, some interested connection before it is not either, and those together with the preferred ones fill the uploads. |
| Choking.RechokeBalances | wubi/src/bittorrent/Choker.py:40-61 | After a rechoke at most max(`max_uploads`, `min_uploads`) interested connections are unchoked, among them the fastest that do not snub us and some other one if there is one. |
| Choking.LostBalanced | wubi/src/bittorrent/Choker.py:69-72 | A connection that was not active can go without a rechoke. |
| Choking.InterestBalanced | wubi/src/bittorrent/Choker.py:74-80 | A choked connection can change its interest without a rechoke. |
| Choking.RotatedIsPermutation | wubi/src/bittorrent/Choker.py:22-26 | The rotation drops nobody and keeps the cyclic order; it brings a connection that waits to the head if there is one, the first one, and else changes nothing. |
| Choking.StepNears | wubi/src/bittorrent/Choker.py:18-27 | A tick that leaves a connection waiting brings it nearer to the head of the list, and nothing between ticks moves it back. |
| Choking.NobodyStarves | wubi/src/bittorrent/Choker.py:18-27 | With n connections, one that is interested throughout cannot be choked in every state of a run of more than 3n - 3 ticks. |
| Chokers.Choose | wubi/src/bittorrent/Choker.py:41-47 | The loop, the sort and the cut choose the fastest interested connections that do not snub us, as many as there is room for. |
| Chokers.Choker.Rechoke | wubi/src/bittorrent/Choker.py:40-61 | The loops do what `RechokeBalances` is about; each peer is told exactly when it is choked or unchoked, and its requests are dropped exactly when it is choked. |
| Chokers.Choker.RoundRobin | wubi/src/bittorrent/Choker.py:18-27 | A tick is a step of the runs that `NobodyStarves` is about, keeps the connections, and tells each peer exactly what changed for it. |
| Chokers.Choker.ConnectionMade | wubi/src/bittorrent/Choker.py:63-67 | A new connection may go in anywhere; the list is rechoked with it, which keeps the bound, and each peer is told exactly what changed for it. |
| Chokers.Choker.ConnectionLost | wubi/src/bittorrent/Choker.py:69-72 | Losing a connection rechokes the list exactly if it was uploaded to, keeps the bound either way, and tells each peer exactly what changed for it. |
| Chokers.Choker.InterestChanges | wubi/src/bittorrent/Choker.py:74-80 | A change of interest rechokes the list exactly if it is one and the connection is not choked, keeps the bound, is a step of those runs as well, and tells each peer exactly what changed for it. |
| Chokers.Choker.ChangeMaxUploads | wubi/src/bittorrent/Choker.py:87-89 | Changing the limit rechokes the list under the new one, and tells each peer exactly what changed for it. |
| Uploads.DrainInOrder | wubi/src/bittorrent/Uploader.py:32-41 | Buffered requests are answered in order, as many as fit, each with the range it asks for of a piece that we have and whose bytes hash to what was promised; one that cannot be answered so is dropped and closes the connection, with those behind it left. |
| Uploads.Upload.Flushed | wubi/src/bittorrent/Uploader.py:32-41 | The loop over `get_piece` does so, with what the storage holds, and keeps the invariant of the storage. |
| Uploads.Upload.GotRequest | wubi/src/bittorrent/Uploader.py:43-49 | A request from an uninterested peer, or too long, closes the connection and changes nothing; from a choked one it is ignored; otherwise it joins the buffer, which is flushed. |
| Uploads.Upload.GotCancel | wubi/src/bittorrent/Uploader.py:51-55 | The first such request is dropped, and all others stay in order; if there is none nothing changes. |
| Uploads.Upload.Choke | wubi/src/bittorrent/Uploader.py:57-61 | Choking empties the buffer and is told once. |
| Uploads.Upload.Unchoke | wubi/src/bittorrent/Uploader.py:63-66 | Unchoking is told once. |
| Uploads.Upload.LoseInterest | wubi/src/bittorrent/Uploader.py:21-25 | Losing interest empties the buffer; the choker is told exactly when it changed. |
| Uploads.Upload.GainInterest | wubi/src/bittorrent/Uploader.py:27-30 | The choker is told exactly when interest changed. |
| BuildQueue.DoKeeps | webui/runner.go:303-572 | Every step of the worker, the handlers, the log capture, the daemon, a crash or a restart keeps the invariant, a `docker start` that is reported as failed over a container that came up included. |
| BuildQueue.Reachable | webui/runner.go:303-572 | It holds after every sequence of steps. |
| BuildQueue.Safe | webui/runner.go:366-572 | In every reachable state at most one job is starting, running or being cancelled, the log file is a prefix of what the container printed, and a job that succeeded has all of it, from a container that exited with 0. |
| BuildQueue.RunsToTheEnd | webui/runner.go:366-572 | A job that is left alone, but for a crash at any point of its log and a restart, ends as succeeded exactly if its container exits with 0, with the log whole and the worker free. |
| BuildQueue.TablesExactly | webui/runner.go:303-330 | What cancelling, ending and being declared running do to the state of a job, in each state, and that they do nothing to others. |
| BuildQueue.ResumedLog | webui/runner.go:661-697 | The capture appends what Docker gives from the start on, less as many bytes as the file had when it was opened: over any crashes and restarts in the middle of a copy the file is the output up to the larger of both, so nothing is doubled and nothing is missing. |
| BuildQueue.StrayStep | webui/runner.go:439-572 | If containers run only for the job under way, they still do after a step exactly if the step is neither a job being declared over while its container runs nor a container coming up whose job is over. |
| BuildQueue.RunsExactly | webui/runner.go:439-572 | Over any run containers run only for the job under way, in all states, exactly if no step of the run is such a step. |
| BuildQueue.StrayAfterFailedStart | webui/runner.go:492-499 | Only a failed `docker start` lets the worker declare a job over whose container is not over. |
| BuildQueue.FailedStartStrays | webui/runner.go:492-499 | After one, containers run only for the job under way exactly if the container had not come up all the same. |
| BuildQueue.FailedStartStraysRun | webui/runner.go:492-499 | A run that gets there: the server is killed between creating and starting the container; after the restart the container comes up, its `docker start` is reported as failed, and the job ends as failed with its container running. |
| BuildQueue.NoFailedStart | webui/runner.go:492-499 | In every run in which no `docker start` is reported as failed, containers run only for the job under way, in all states. |
| BuildQueue.StepAllowed | webui/runner.go:303-460 | How one step may change the state of a job, and that the log of a finished job is final. |
| BuildQueue.FinalStates | webui/runner.go:303-460 | Over any run with crashes and restarts a terminal state stays as it is, and a job that is being cancelled ends as cancelled or not at all, even if its build succeeds meanwhile. |
| BuildQueue.OldestFirst | webui/runner.go:366-399 | A queued job starts only if no older one is queued and none is under way. |
| BuildQueue.LogGrows | webui/runner.go:661-697 | Every step, a restart included, only appends to a log file, and none changes that of a job that is over. |
| LogStream.StreamStarts | webui/runner.go:775-817 | A client that asks from an offset the file has starts in the streaming invariant. |
| LogStream.StreamKeeps | webui/runner.go:819-857 | The ranges of the events sent, each no larger than the buffer, always follow each other from the asked offset on without gap or overlap, and each event has the text that its range of bytes is turned into. |
| LogStream.FollowKeeps | webui/runner.go:819-857 | They still do after any step of the system in between. |
| LogStream.DoneIsComplete | webui/runner.go:837-846 | When `done` is sent the ranges reach to the end of the log, and the job is over. |
| LogStream.GetsOn | webui/runner.go:819-846 | While there is more in the log a read sends some of it, and a client that has all of a log whose job is over is told so by the next two checks. |
| LogStream.RightExactly | webui/runner.go:819-828 | What the client has is the log up to its offset, byte for byte, exactly if every range is well-formed UTF-8 by itself. |
| LogStream.AnyTiming | webui/runner.go:819-828 | It is so however the reads fall exactly if the log is ASCII from the asked offset on. |
| LogStream.SplitCharacter | webui/runner.go:819-828 | An "é" that is read in two halves arrives as two replacement characters, while offsets and identifiers are as they should be. |
| LogStream.StreamedWhole | webui/runner.go:775-857 | Over any run of the system and of the client, restarts included, the ranges sent follow each other from the asked offset on, the text is right exactly if each is well-formed by itself and hence if the log is ASCII, and once told `done` the client has ranges up to the end of the log, which for a succeeded job is all its container printed. |
| Utf8.TextIsLonger | webui/runner.go:823 | Turning bytes into text for JSON keeps them exactly if they are well-formed UTF-8, and otherwise makes them longer. |
| Utf8.CharactersWritten | webui/runner.go:823 | Characters of one to four bytes are read as what they are; overlong forms, surrogates, numbers too large and stray bytes are none. |
| Utf8.BoundsWritten | webui/runner.go:823 | The first and the last character of each length are read as what they are, and those next to the surrogates. |
| Runner.App.PickNext | webui/runner.go:366-399 | The section picks the oldest active job, else the oldest queued one, and marks it starting; none only if there is none to run, storage is short or the row cannot be saved. |
| Runner.App.Cancel | webui/runner.go:303-330 | The handler makes the step of the system of the same name on the rows. |
| Runner.App.MarkRunning | webui/runner.go:500-509 | So does the section that declares a job running. |
| Runner.App.Finish | webui/runner.go:439-460 | So does `finish`, which then reclaims exactly what `PruneLocked` does, whether or not the row could be saved. |
| Runner.App.PruneLocked | webui/retention.go:37-66 | The loop reclaims exactly the builds with artifacts that rank past 3 in their class and are neither favourites nor being booted nor impossible to remove or save. |
| Runner.PruneTwice | webui/retention.go:37-66 | Two passes reclaim what one would that spares only the builds held in both, so a second pass like the first reclaims nothing more. |
| Runner.PrunedExactly | webui/retention.go:37-66 | Exactly the builds lose their artifacts that succeeded and have any, with three or more newer such builds of their class, and are neither favourites nor held; nothing else of any row changes. |
| Runner.PruneSpares | webui/retention.go:37-84 | Newest builds, favourites, builds being booted and all states are left alone. |
| Runner.App.SetFavorite | webui/retention.go:87-117 | The answer is 404, 409, 500 or 200 as the row calls for and the database allows; exactly when the row is saved it changes and retention runs. |
| Bencoding.RoundTrip | wubi/src/bittorrent/bencode.py:4-69 | Decoding the encoding of any nested value of integers, strings, lists and dictionaries gives the value. |
| Bencoding.DecodesExactly | wubi/src/bittorrent/bencode.py:4-69 | A byte string is decoded exactly if it is the encoding of a value, and then to that value: unordered or repeated keys, leading zeros, "-0", cut or trailing input are all refused. |
| Bencoding.FirstByteDecides | wubi/src/bittorrent/bencode.py:254 | Keys are in order of their first different byte, and a beginning comes before what it begins. |
| Bencoding.NumbersWritten | wubi/src/bittorrent/bencode.py:240-241 | Numbers written out. |
| Bencoding.StringsWritten | wubi/src/bittorrent/bencode.py:243-244 | Strings written out. |
| Bencoding.ListsWritten | wubi/src/bittorrent/bencode.py:246-250 | Lists written out. |
| Bencoding.DictionariesWritten | wubi/src/bittorrent/bencode.py:252-259 | Dictionaries written out: {"a": 1, "b": 2} is `d1:ai1e1:bi2ee`. |
| Bencoding.EncodedDecodes | wubi/src/bittorrent/bencode.py:4-59 | Each decoder consumes exactly the encoding that stands at its offset, whatever follows. |
| Bencoding.PrefixFree | wubi/src/bittorrent/bencode.py:4-59 | No encoding of a value is the beginning of the encoding of another. |
| Bencoding.CacheEncodesSame | wubi/src/bittorrent/bencode.py:233-240 | Replacing any parts by their encodings made ahead leaves the output unchanged. |
| Bencoding.SortedUnique | wubi/src/bittorrent/bencode.py:254-261 | There is one way to list the keys of a dictionary in order, so its encoding is determined. |
| Bencoding.BEncode | wubi/src/bittorrent/bencode.py:239-279 | The encoders, appending to one list, together give the encoding. |
| Bencoding.DecodeListLoop | wubi/src/bittorrent/bencode.py:29-34 | The loop of `decode_list` computes what the round trip is about. |
| Bencoding.DecodeDictLoop | wubi/src/bittorrent/bencode.py:36-46 | So does the loop of `decode_dict`, which refuses keys out of order. |

## Left out

- Errors of the file system (`IOError`), `set_readonly`, `close` and the early return on `flag.isSet()`: every read and write succeeds.
- FinishedIsComplete: assumes that nobody else writes to the files; without `check_hashes` it speaks of the pieces hashed so far only, since the others are taken on trust.
- NobodyIdle: not claimed of the peers in `late`, because after a bad piece only that piece is offered, and to unchoked peers only (`OverlookedExactly`); a peer may stay in `late` longer than it is without work.
- MakeDownload: fewer than 2^30 connections, the bound that `next` of the picker starts from.
- Storage: the files of a torrent have distinct names.
- Downloader: the single downloads are records in its list, not objects of their own, so aliasing between a connection and its download is not modelled; outgoing messages (`send_interested`, `send_request`, `send_cancel`) are not recorded, only the state that they announce.
- GotMessage: telling the other peers of a completed piece, and the choker of a change of interest, are outputs.
- FramesAreMessages: as long as the connecter does not close the connection; an exception inside a handler (`read_dead`) is not modelled.
- The connection table of `Encoder` (`start_connection`, spares, keepalives) and the rate cap of `Connecter`: the table only supplies the ids that `ReadId` compares with.
- RoundTrip: what Python's `int()` accepts beyond plain decimal numbers (spaces, a plus sign, a trailing `L`, negative string lengths), booleans and tuples are not modelled; the decoders here refuse the former.
- Choker: `max_uploads` = 0, where the slice bound in `_rechoke` means something else; `min_uploads` may be anything.
- Clock-based measures (`CurrentRateMeasure`, `RateMeasure`, snubbing): rates and flags are arguments.
- VersionCompare: versions are nonempty lines of ASCII text; on an empty one the Python program fails with an attribute error.
- `parseversion` and `parse_version`: versions are compared once parsed; epochs are unbounded.
- Reading package control files: `AddAll` is given the packages.
- BuildQueue: database reads succeed; a crash also ends a `docker` command under way; `docker logs` ends well only when the container is over and everything was given.
- StreamedWhole: a job that was deleted is not submitted again under the same id while a client reads its log; an offset past the end of the file is refused, so no reading starts.
- PruneLocked: which builds a virtual machine holds is an argument, so a machine being started at the same moment is not modelled; the rows can be read.
- `submit` up to queueing the job, `launch` beyond its effect on the container, `collect`, and the other handlers of `webui/`: thin layers over external programs.
- Sockets, HTTP, tracker announces, and the other programs of the repository.
