/** The messages of a peer and what they set off (wubi/src/bittorrent/Connecter.py); the message types are those of the
    "peer messages" section of BEP 3. */
module Connecting {
  import opened Wrappers
  import opened Bytes
  import opened Requests
  import opened Bitfields
  import opened Placement
  import opened PieceStore
  import opened Swarm
  import opened Downloads
  import opened Uploads

  datatype Message =
    | Choke | Unchoke | Interested | NotInterested
    | Have(index: nat)
    | HaveAll(have: seq<bool>)
    | Ask(request: Request)
    | Cancel(request: Request)
    | Block(index: nat, begin: nat, data: seq<byte>)
    | Bad

  const CHOKE: byte := 0
  const UNCHOKE: byte := 1
  const INTERESTED: byte := 2
  const NOT_INTERESTED: byte := 3
  const HAVE: byte := 4
  const BITFIELD: byte := 5
  const REQUEST: byte := 6
  const PIECE: byte := 7
  const CANCEL: byte := 8

  /** What `got_message` reads in a message; Bad for those that close the connection. */
  function Read(numPieces: nat, m: seq<byte>): Message
    requires m != []
  {
    var t := m[0];
    if t in {CHOKE, UNCHOKE, INTERESTED, NOT_INTERESTED} && |m| != 1 then Bad
    else if t == CHOKE then Choke
    else if t == UNCHOKE then Unchoke
    else if t == INTERESTED then Interested
    else if t == NOT_INTERESTED then NotInterested
    else if t == HAVE then
      if |m| != 5 || ToInt(m[1..]) >= numPieces then Bad else Have(ToInt(m[1..]))
    else if t == BITFIELD then
      var have := Parsed(numPieces, m[1..]);
      if have.None? then Bad else HaveAll(have.value)
    else if t == REQUEST || t == CANCEL then
      if |m| != 13 || ToInt(m[1..5]) >= numPieces then Bad
      else
        var r := Request(ToInt(m[1..5]), ToInt(m[5..9]), ToInt(m[9..]));
        if t == REQUEST then Ask(r) else Cancel(r)
    else if t == PIECE then
      if |m| <= 9 || ToInt(m[1..5]) >= numPieces then Bad else Block(ToInt(m[1..5]), ToInt(m[5..9]), m[9..])
    else Bad
  }

  /** What the `send_*` methods write for a message. */
  function Encoded(message: Message): seq<byte>
    requires Sendable(message)
  {
    match message
    case Choke => [CHOKE]
    case Unchoke => [UNCHOKE]
    case Interested => [INTERESTED]
    case NotInterested => [NOT_INTERESTED]
    case Have(index) => [HAVE] + ToBinary(index)
    case HaveAll(have) => [BITFIELD] + Packed(have)
    case Ask(r) => [REQUEST] + ToBinary(r.index) + ToBinary(r.begin) + ToBinary(r.length)
    case Cancel(r) => [CANCEL] + ToBinary(r.index) + ToBinary(r.begin) + ToBinary(r.length)
    case Block(index, begin, data) => [PIECE] + ToBinary(index) + ToBinary(begin) + data
  }

  predicate Fits32(r: Request)
  {
    r.index < 0x1_0000_0000 && r.begin < 0x1_0000_0000 && r.length < 0x1_0000_0000
  }

  /** A message that has an encoding. */
  predicate Sendable(message: Message)
  {
    match message
    case Have(index) => index < 0x1_0000_0000
    case Ask(r) => Fits32(r)
    case Cancel(r) => Fits32(r)
    case Block(index, begin, data) => index < 0x1_0000_0000 && begin < 0x1_0000_0000
    case Bad => false
    case _ => true
  }

  /** A message that means something in a torrent of so many pieces. */
  predicate Meaningful(numPieces: nat, message: Message)
  {
    match message
    case Have(index) => index < numPieces
    case Ask(r) => r.index < numPieces
    case Cancel(r) => r.index < numPieces
    case Block(index, begin, data) => index < numPieces && data != []
    case Bad => false
    case _ => true
  }

  /** A message sent by one client is read by another, in the same torrent, as what it was. */
  lemma {:induction false} EncodedIsParsed(numPieces: nat, message: Message)
    requires Sendable(message) && (message.HaveAll? ==> |message.have| == numPieces)
    ensures Encoded(message) != []
    ensures Read(numPieces, Encoded(message)) == if Meaningful(numPieces, message) then message else Bad
  {
    hide ToInt, ToBinary, Packed, Parsed;
    match message
    case Have(index) =>
      ToIntOfBinary(index);
      assert Encoded(message)[1..] == ToBinary(index);
    case HaveAll(have) =>
      assert Encoded(message)[1..] == Packed(have);
      ParseInvertsPack(numPieces, Packed(have), have);
    case Ask(r) => ThreeNumbers(REQUEST, r);
    case Cancel(r) => ThreeNumbers(CANCEL, r);
    case Block(index, begin, data) =>
      ToIntOfBinary(index);
      ToIntOfBinary(begin);
      var m := Encoded(message);
      assert m[1..5] == ToBinary(index) && m[5..9] == ToBinary(begin) && m[9..] == data;
    case _ =>
  }

  /** A message is read, and not refused, only if it is exactly what is sent for it, and means something here. */
  lemma {:induction false} ReadExactly(numPieces: nat, m: seq<byte>)
    requires m != [] && !Read(numPieces, m).Bad?
    ensures var message := Read(numPieces, m);
      Sendable(message) && Meaningful(numPieces, message) && Encoded(message) == m
  {
    hide ToInt, ToBinary, Packed, Parsed;
    var message := Read(numPieces, m);
    assert m == [m[0]] + m[1..];
    match message
    case Have(index) =>
      BinaryOfToInt(m[1..]);
    case HaveAll(have) =>
      ParseInvertsPack(numPieces, m[1..], have);
    case Ask(r) =>
      ThreeRead(m);
    case Cancel(r) =>
      ThreeRead(m);
    case Block(index, begin, data) =>
      BinaryOfToInt(m[1..5]);
      BinaryOfToInt(m[5..9]);
      assert m == [m[0]] + m[1..5] + m[5..9] + m[9..];
    case _ =>
  }

  lemma {:induction false} ThreeRead(m: seq<byte>)
    requires |m| == 13
    ensures var r := Request(ToInt(m[1..5]), ToInt(m[5..9]), ToInt(m[9..]));
      Fits32(r) && m == [m[0]] + ToBinary(r.index) + ToBinary(r.begin) + ToBinary(r.length)
  {
    hide ToInt, ToBinary;
    BinaryOfToInt(m[1..5]);
    BinaryOfToInt(m[5..9]);
    BinaryOfToInt(m[9..]);
    assert m == [m[0]] + m[1..5] + m[5..9] + m[9..];
  }

  /** The messages, written out. */
  lemma {:induction false} MessagesWritten(data: seq<byte>)
    ensures Encoded(Choke) == [0] && Encoded(Unchoke) == [1] && Encoded(Interested) == [2] && Encoded(NotInterested) == [3]
    ensures Encoded(Have(258)) == [4, 0, 0, 1, 2]
    ensures Encoded(HaveAll([true, false, true, false, false, false, false, false, true])) == [5, 160, 128]
    ensures Encoded(Ask(Request(1, 0x4000, 0x2000))) == [6, 0, 0, 0, 1, 0, 0, 64, 0, 0, 0, 32, 0]
    ensures Encoded(Block(1, 0x4000, data)) == [7, 0, 0, 0, 1, 0, 0, 64, 0] + data
    ensures Encoded(Cancel(Request(1, 0x4000, 0x2000))) == [8, 0, 0, 0, 1, 0, 0, 64, 0, 0, 0, 32, 0]
  {
    BinaryWritten();
    PackedWritten();
    hide ToBinary, Packed;
    RequestWritten(REQUEST);
    RequestWritten(CANCEL);
    BlockWritten(data);
  }

  lemma {:induction false} RequestWritten(t: byte)
    ensures [t] + ToBinary(1) + ToBinary(0x4000) + ToBinary(0x2000) == [t, 0, 0, 0, 1, 0, 0, 64, 0, 0, 0, 32, 0]
  {
    BinaryWritten();
    hide ToBinary;
  }

  lemma {:induction false} BlockWritten(data: seq<byte>)
    ensures [PIECE] + ToBinary(1) + ToBinary(0x4000) + data == [7, 0, 0, 0, 1, 0, 0, 64, 0] + data
  {
    BinaryWritten();
    hide ToBinary;
  }

  lemma {:induction false} ThreeNumbers(t: byte, r: Request)
    requires Fits32(r)
    ensures var m := [t] + ToBinary(r.index) + ToBinary(r.begin) + ToBinary(r.length);
      |m| == 13 && ToInt(m[1..5]) == r.index && ToInt(m[5..9]) == r.begin && ToInt(m[9..]) == r.length
  {
    hide ToInt, ToBinary;
    ToIntOfBinary(r.index);
    ToIntOfBinary(r.begin);
    ToIntOfBinary(r.length);
    var m := [t] + ToBinary(r.index) + ToBinary(r.begin) + ToBinary(r.length);
    assert m[1..5] == ToBinary(r.index) && m[5..9] == ToBinary(r.begin) && m[9..] == ToBinary(r.length);
  }

  class Connecter {
    const downloader: Downloader

    constructor (downloader: Downloader)
      ensures this.downloader == downloader
    {
      this.downloader := downloader;
    }

    ghost function Files(): Held
      reads downloader.storage, downloader.storage.storage
    {
      Held(downloader.storage.Books(), downloader.storage.received, downloader.storage.have, downloader.storage.places,
           downloader.storage.CurrentSlots())
    }

    /** What a message does to the pieces: nothing, unless it is a block that its peer was asked for. That one is written
        where it belongs, once in this attempt, and its piece is completed exactly if it was the last one and the hash is
        right. */
    ghost predicate Filed(message: Message, asked: bool, before: Held, completed: Option<nat>)
      reads downloader.storage, downloader.storage.storage
    {
      if message.Block? && asked then
        && downloader.Written(message.index, message.begin, message.data, before.books, before.received, before.places,
                              before.slots)
        && completed == if downloader.storage.have[message.index] then Some(message.index) else None
      else
        && completed.None? && downloader.storage.have == before.have && downloader.storage.places == before.places
        && downloader.storage.CurrentSlots() == before.slots
    }

    /** `got_message`, over a connection whose upload is `u` and that takes `room` more pieces. `closing` lists the
        peers whose connections the event closes, each of which is then disconnected; `completed` is the piece that
        everybody is told about, and `told` whether the choker is told of a change of interest. */
    method GotMessage(k: nat, m: seq<byte>, u: Upload, room: nat)
      returns (closing: seq<nat>, completed: Option<nat>, told: bool)
      requires downloader.Valid() && k < |downloader.downloads| && m != []
      requires u.Valid() && u.storage == downloader.storage
      modifies downloader, downloader.storage, downloader.storage.storage, downloader.picker, u
      ensures downloader.Valid() && |downloader.downloads| == |old(downloader.downloads)| && u.Valid()
      ensures forall j :: 0 <= j < |downloader.downloads| && j != k ==>
        Standing(downloader.downloads[j]) == Standing(old(downloader.downloads)[j])
      // a message of no use, or a bitfield that is not the first message, closes the connection and does nothing else
      ensures Rejected(downloader.storage.g.numPieces, old(downloader.downloads)[k], m) ==>
        && closing == [k] && completed.None? && !told
        && downloader.downloads == old(downloader.downloads)[k := old(downloader.downloads)[k].(gotAnything := true)]
        && unchanged(downloader.storage) && unchanged(downloader.storage.storage) && unchanged(downloader.picker) && unchanged(u)
      // otherwise the peer stands as its message says
      ensures !Rejected(downloader.storage.g.numPieces, old(downloader.downloads)[k], m) ==>
        Standing(downloader.downloads[k]) == Standing(Told(old(downloader.downloads)[k],
                                                           Read(downloader.storage.g.numPieces, m)))
      // its interest, its requests and its cancels go to the upload, and nothing else does
      ensures !Rejected(downloader.storage.g.numPieces, old(downloader.downloads)[k], m) ==>
        Uploading(Read(downloader.storage.g.numPieces, m), u.maxSliceLength, room, old(ShelfOf(u.storage)), old(StateOf(u)), StateOf(u),
                  told, k in closing)
      // what is closed: a connection that asks for too much, those to peers of no more use, and no other
      ensures !Rejected(downloader.storage.g.numPieces, old(downloader.downloads)[k], m) ==>
        Closing(Read(downloader.storage.g.numPieces, m), k, old(downloader.downloads)[k], downloader.downloads,
                downloader.picker.AmIComplete(), closing)
      // a block that the peer was asked for is stored, and everybody is told when it was the last one of a good piece
      ensures !Rejected(downloader.storage.g.numPieces, old(downloader.downloads)[k], m) ==>
        var message := Read(downloader.storage.g.numPieces, m);
        Filed(message, AskedFor(old(downloader.downloads)[k], message), old(Files()), completed)
    {
      hide Downloader.Valid, Upload.Valid, BlockIn, ReceivedAfter, LastBlock, Asked, Helps;
      closing, completed, told := [], None, false;
      ReadSizes(downloader.storage.g.numPieces, m);
      var message := Read(downloader.storage.g.numPieces, m);
      hide Read;
      if m[0] == BITFIELD && downloader.downloads[k].gotAnything {
        return [k], None, false;
      }
      if message.HaveAll? {
        var close := downloader.GotHaveBitfield(k, message.have);
        closing := if close then [k] else [];
        return;
      }
      downloader.Heard(k);
      if message.Bad? {
        return [k], None, false;
      }
      closing, completed, told := Dispatch(k, message, u, room);
    }

    /** The branches for messages that are passed on. */
    method Dispatch(k: nat, message: Message, u: Upload, room: nat)
      returns (closing: seq<nat>, completed: Option<nat>, told: bool)
      requires downloader.Valid() && k < |downloader.downloads| && downloader.downloads[k].gotAnything
      requires u.Valid() && u.storage == downloader.storage && !message.HaveAll? && !message.Bad?
      requires (message.Have? ==> message.index < downloader.storage.g.numPieces)
      requires (message.Ask? ==> message.request.index < downloader.storage.g.numPieces)
      modifies downloader, downloader.storage, downloader.storage.storage, downloader.picker, u
      ensures downloader.Valid() && |downloader.downloads| == |old(downloader.downloads)| && u.Valid()
      ensures forall j :: 0 <= j < |downloader.downloads| && j != k ==>
        Standing(downloader.downloads[j]) == Standing(old(downloader.downloads)[j])
      ensures Standing(downloader.downloads[k]) == Standing(Told(old(downloader.downloads)[k], message))
      ensures Uploading(message, u.maxSliceLength, room, old(ShelfOf(u.storage)), old(StateOf(u)), StateOf(u), told,
                        k in closing)
      ensures Closing(message, k, old(downloader.downloads)[k], downloader.downloads, downloader.picker.AmIComplete(),
                      closing)
      ensures Filed(message, AskedFor(old(downloader.downloads)[k], message), old(Files()), completed)
    {
      hide Downloader.Valid, StorageWrapper.CurrentSlots, StorageWrapper.Books, Upload.Valid, Downloader.Written, AskedFor,
           ShelfOf, Asked, Dropped, Helps, IsSeed;
      closing, completed, told := [], None, false;
      match message {
        case Choke =>
          downloader.GotChoke(k);
        case Unchoke =>
          downloader.GotUnchoke(k);
        case Interested =>
          told := u.GainInterest();
        case NotInterested =>
          told := u.LoseInterest();
        case Have(index) =>
          var close := downloader.GotHave(k, index);
          closing := if close then [k] else [];
        case Ask(q) =>
          var close := Serve(u, Query(q.index, q.begin, q.length), room);
          closing := if close then [k] else [];
        case Cancel(q) =>
          u.GotCancel(Query(q.index, q.begin, q.length));
        case Block(index, begin, data) =>
          closing, completed := Keep(k, index, begin, data);
      }
    }

    /** `got_piece`, and what it answers. */
    method Keep(k: nat, index: nat, begin: nat, data: seq<byte>) returns (closing: seq<nat>, completed: Option<nat>)
      requires downloader.Valid() && k < |downloader.downloads|
      modifies downloader, downloader.storage, downloader.storage.storage, downloader.picker
      ensures downloader.Valid() && |downloader.downloads| == |old(downloader.downloads)|
      ensures forall j :: 0 <= j < |downloader.downloads| ==>
        Standing(downloader.downloads[j]) == Standing(old(downloader.downloads)[j])
      ensures Closing(Block(index, begin, data), k, old(downloader.downloads)[k], downloader.downloads,
                      downloader.picker.AmIComplete(), closing)
      ensures Filed(Block(index, begin, data), AskedFor(old(downloader.downloads)[k], Block(index, begin, data)),
                    old(Files()), completed)
    {
      hide Downloader.Valid, BlockIn, ReceivedAfter, LastBlock, Helps, Standing, AllOffered;
      var got;
      got, closing := downloader.GotPiece(k, index, begin, data);
      completed := if got then Some(index) else None;
    }

    /** `got_request`, which leaves the download as it is. */
    method Serve(u: Upload, query: Query, room: nat) returns (close: bool)
      requires downloader.Valid() && u.Valid()
      requires u.storage == downloader.storage && query.index < downloader.storage.g.numPieces
      modifies u`buffer, u`sent, downloader.storage`waschecked, downloader.storage`failedCalls
      ensures downloader.Valid() && u.Valid()
      ensures Asked(u.maxSliceLength, query, room, old(ShelfOf(u.storage)), old(StateOf(u)), StateOf(u), close)
    {
      hide Downloader.Valid, Downloader.Core, Downloader.Spread, Downloader.Shared, Downloader.EndShared, Downloader.Sound,
           Downloader.AtWork, StorageWrapper.Valid, Upload.Valid, SwarmOk, ShelfOf, Drain;
      downloader.ValidIs();
      downloader.SpreadIs();
      downloader.CoreParts();
      close := u.GotRequest(query, room);
      downloader.CoreWhole();
      downloader.SpreadIs();
      downloader.ValidIs();
    }
  }

  /** What the storage has: the books, the blocks received and the pieces, and where they are. */
  datatype Held = Held(books: Ledger, received: set<Request>, have: seq<bool>, places: map<nat, nat>,
                       slots: seq<seq<byte>>)

  ghost predicate AskedFor(p: Peer, message: Message)
  {
    message.Block? && Request(message.index, message.begin, |message.data|) in p.active
  }

  /** The fields of an upload. */
  datatype UploadState = UploadState(choked: bool, interested: bool, buffer: seq<Query>, sent: seq<Sent>)

  ghost function StateOf(u: Upload): UploadState
    reads u
  {
    UploadState(u.choked, u.interested, u.buffer, u.sent)
  }

  /** What a request leads to: from a peer that is not interested, or for too much at once, the connection is closed;
      from a choked one it is ignored; otherwise it joins those that wait, which are answered as far as there is
      room. */
  ghost predicate Asked(most: nat, query: Query, room: nat, shelf: Shelf, before: UploadState, after: UploadState,
                        close: bool)
  {
    var d := Drain(before.buffer + [query], room, shelf);
    if !before.interested || query.length > most then after == before && close
    else if before.choked then after == before && !close
    else after == before.(buffer := d.left, sent := before.sent + d.sent) && close == d.close
  }

  /** What a message does to the upload. */
  ghost predicate Uploading(message: Message, most: nat, room: nat, shelf: Shelf, before: UploadState,
                            after: UploadState, told: bool, close: bool)
  {
    match message
    case Interested => after == before.(interested := true) && told == !before.interested
    case NotInterested =>
      after == before.(interested := false, buffer := if before.interested then [] else before.buffer) && told == before.interested
    case Ask(q) => Asked(most, Query(q.index, q.begin, q.length), room, shelf, before, after, close) && !told
    case Cancel(q) => after == before.(buffer := Dropped(before.buffer, Query(q.index, q.begin, q.length))) && !told
    case _ => after == before && !told
  }

  /** Which connections a message closes, given its peer `p` before it and all peers after it: that of a peer that
      asks for what it may not have, and once we have every piece those to peers that have every piece. */
  ghost predicate Closing(message: Message, k: nat, p: Peer, downloads: seq<Peer>, complete: bool, closing: seq<nat>)
  {
    match message
    case Have(index) =>
      k < |downloads| && index < |p.have| && forall j: nat :: j in closing <==> j == k && !p.have[index] && complete && IsSeed(downloads[k])
    case HaveAll(_) => k < |downloads| && forall j: nat :: j in closing <==> j == k && complete && IsSeed(downloads[k])
    case Block(index, begin, data) =>
      forall j: nat :: j in closing <==>
        Request(index, begin, |data|) in p.active && complete && j < |downloads| && IsSeed(downloads[j])
    case Ask(_) => forall j: nat :: j in closing ==> j == k
    case _ => closing == []
  }

  ghost predicate Rejected(numPieces: nat, p: Peer, m: seq<byte>)
    requires m != []
  {
    Read(numPieces, m).Bad? || (m[0] == BITFIELD && p.gotAnything)
  }

  /** What a message says of the peer it comes from. */
  ghost function Told(p: Peer, message: Message): Peer
  {
    var q := p.(gotAnything := true);
    match message
    case Choke => q.(choked := true)
    case Unchoke => q.(choked := false)
    case Have(index) => if index < |p.have| then q.(have := p.have[index := true]) else q
    case HaveAll(have) => q.(have := have)
    case _ => q
  }

  lemma {:induction false} ReadSizes(numPieces: nat, m: seq<byte>)
    requires m != []
    ensures var message := Read(numPieces, m);
      && (message.Have? ==>
            message.index < numPieces) && (message.HaveAll? ==> |message.have| == numPieces && m[0] == BITFIELD)
      && (message.Ask? ==> message.request.index < numPieces)
  {
  }
}
