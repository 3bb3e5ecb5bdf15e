/** The byte stream of a peer connection, cut into a handshake and messages (wubi/src/bittorrent/Encrypter.py);
    the format is the "peer protocol" section of BEP 3. */
module PeerStream {
  import opened Wrappers
  import opened Bytes

  const PROTOCOL_NAME: seq<byte> :=
    [66, 105, 116, 84, 111, 114, 114, 101, 110, 116, 32, 112, 114, 111, 116, 111, 99, 111, 108]

  type Id = seq<byte>

  /** Which `read_*` function gets the bytes once there are enough of them. */
  datatype Reader = ReadHeaderLen | ReadHeader | ReadReserved | ReadDownloadId | ReadPeerId | ReadLen | ReadMessage

  /** What the connection does to the outside, in order. */
  datatype Event = Wrote(bytes: seq<byte>) | Made | Got(message: seq<byte>) | Closed | Lost

  /** What a connection works with: its encoder, the ids of the other connections, and whether the connecter closes the
      connection upon a message, given all that happened up to and including it. */
  datatype Env = Env(local: bool, downloadId: Id, myId: Id, maxLen: nat, others: set<Id>, closes: seq<Event> -> bool)

  datatype Link = Link(id: Option<Id>, complete: bool, closed: bool, buffer: seq<byte>, nextLen: nat, next: Reader,
                       trace: seq<Event>)

  function Opening(env: Env): seq<byte>
  {
    [|PROTOCOL_NAME| as byte] + PROTOCOL_NAME + Zeros(8) + env.downloadId
  }

  /** A connection right after `__init__`. */
  function Initial(env: Env, id: Option<Id>): Link
  {
    Link(id, false, false, [], 1, ReadHeaderLen,
         if !env.local then [] else if id.None? then [Wrote(Opening(env))] else [Wrote(Opening(env)), Wrote(env.myId)])
  }

  /** `close`. */
  function Close(c: Link): Link
  {
    if c.closed then c else c.(closed := true, trace := c.trace + if c.complete then [Closed, Lost] else [Closed])
  }

  /** `not self.id`. */
  predicate NoId(c: Link) { c.id.None? || c.id.value == [] }

  /** Whether `read_peer_id` accepts `s`. */
  predicate Acceptable(env: Env, c: Link, s: Id)
  {
    if NoId(c) then s != env.myId && !(s != [] && s in env.others) else Some(s) == c.id
  }

  function WithId(env: Env, c: Link, s: Id): Link
  {
    if NoId(c) then c.(id := Some(s), trace := c.trace + if env.local then [Wrote(env.myId)] else []) else c
  }

  /** `self.next_func(m)`: the new state, and what to read next unless the connection is to be closed. */
  function Handle(env: Env, c: Link, m: seq<byte>): (Link, Option<(nat, Reader)>)
  {
    match c.next
    case ReadHeaderLen => (c, if ToInt(m) != |PROTOCOL_NAME| then None else Some((|PROTOCOL_NAME|, ReadHeader)))
    case ReadHeader => (c, if m != PROTOCOL_NAME then None else Some((8, ReadReserved)))
    case ReadReserved => (c, Some((20, ReadDownloadId)))
    case ReadDownloadId =>
      if m != env.downloadId then (c, None)
      else (if env.local then c else c.(trace := c.trace + [Wrote(Opening(env) + env.myId)]), Some((20, ReadPeerId)))
    case ReadPeerId =>
      if !Acceptable(env, c, m) then (c, None)
      else
        var c' := WithId(env, c, m);
        (c'.(complete := true, trace := c'.trace + [Made]), Some((4, ReadLen)))
    case ReadLen => (c, if ToInt(m) > env.maxLen then None else Some((ToInt(m), ReadMessage)))
    case ReadMessage =>
      if m == [] then (c, Some((4, ReadLen)))
      else
        var c' := c.(trace := c.trace + [Got(m)]);
        (if env.closes(c'.trace) then Close(c') else c', Some((4, ReadLen)))
  }

  /** One turn of the loop, on a buffer that holds what was waited for. */
  function Fire(env: Env, c: Link): Link
  {
    var (c', x) := Handle(env, c.(buffer := []), c.buffer);
    match x
    case None => Close(c')
    case Some((nextLen, next)) => c'.(nextLen := nextLen, next := next)
  }

  /** A message of length zero takes its turn without waiting for a byte. */
  function Settle(env: Env, c: Link): Link
  {
    if !c.closed && c.nextLen == 0 && c.buffer == [] then Fire(env, c) else c
  }

  /** The stream, one byte at a time. */
  function FeedByte(env: Env, c: Link, b: byte): Link
  {
    if c.closed then c
    else
      var c' := c.(buffer := c.buffer + [b]);
      if |c'.buffer| < c'.nextLen then c' else Settle(env, Fire(env, c'))
  }

  function Feed(env: Env, c: Link, s: seq<byte>): Link
  {
    if s == [] then c else FeedByte(env, Feed(env, c, s[..|s| - 1]), s[|s| - 1])
  }

  /** However the stream is cut into chunks, state and trace come out the same. */
  lemma {:induction false} FeedJoin(env: Env, c: Link, s: seq<byte>, t: seq<byte>)
    ensures Feed(env, c, s + t) == Feed(env, Feed(env, c, s), t)
    decreases |t|
  {
    if t == [] {
      assert s + t == s;
    } else {
      FeedJoin(env, c, s, t[..|t| - 1]);
      assert (s + t)[..|s + t| - 1] == s + t[..|t| - 1];
    }
  }

  /** At rest a connection waits for at least one more byte. */
  ghost predicate Resting(c: Link)
  {
    (c.closed || |c.buffer| < c.nextLen) && (c.nextLen == 0 ==> c.next == ReadMessage)
  }

  /** Between turns of the loop: at rest, or with a message of length zero at hand. */
  ghost predicate Turning(c: Link)
  {
    (c.closed || |c.buffer| < c.nextLen || (c.buffer == [] && c.nextLen == 0)) && (c.nextLen == 0 ==> c.next == ReadMessage)
  }

  lemma {:induction false} FireTurns(env: Env, c: Link)
    requires !c.closed && |c.buffer| == c.nextLen && (c.nextLen == 0 ==> c.next == ReadMessage)
    ensures Turning(Fire(env, c)) && Resting(Settle(env, Fire(env, c)))
    ensures c.nextLen == 0 ==> Resting(Fire(env, c)) && Fire(env, c).nextLen == 4
    ensures Fire(env, c).buffer == []
  {
  }

  lemma {:induction false} FeedClosed(env: Env, c: Link, s: seq<byte>)
    requires c.closed
    ensures Feed(env, c, s) == c
    decreases |s|
  {
    if s != [] {
      FeedClosed(env, c, s[..|s| - 1]);
    }
  }

  /** Bytes that are too few to act on are kept. */
  lemma {:induction false} FeedWaits(env: Env, c: Link, s: seq<byte>)
    requires !c.closed && |c.buffer| + |s| < c.nextLen
    ensures Feed(env, c, s) == c.(buffer := c.buffer + s)
    decreases |s|
  {
    if s != [] {
      FeedWaits(env, c, s[..|s| - 1]);
      assert c.buffer + s == c.buffer + s[..|s| - 1] + [s[|s| - 1]];
    } else {
      assert c.buffer + s == c.buffer;
    }
  }

  /** Bytes that are just enough are acted on. */
  lemma {:induction false} FeedFires(env: Env, c: Link, s: seq<byte>)
    requires !c.closed && s != [] && |c.buffer| + |s| == c.nextLen
    ensures Feed(env, c, s) == Settle(env, Fire(env, c.(buffer := c.buffer + s)))
  {
    FeedWaits(env, c, s[..|s| - 1]);
    assert c.buffer + s == c.buffer + s[..|s| - 1] + [s[|s| - 1]];
  }

  class Connection {
    const env: Env
    var id: Option<Id>
    var complete: bool
    var closed: bool
    var buffer: seq<byte>
    var nextLen: nat
    var nextFunc: Reader
    /** What the connection has done, as those around it saw it. */
    var trace: seq<Event>

    ghost function State(): Link
      reads this
    {
      Link(id, complete, closed, buffer, nextLen, nextFunc, trace)
    }

    ghost predicate Valid()
      reads this
    {
      Resting(State())
    }

    constructor (env: Env, id: Option<Id>)
      ensures Valid() && this.env == env && State() == Initial(env, id)
    {
      this.env, this.id := env, id;
      complete, closed, buffer, nextLen, nextFunc := false, false, [], 1, ReadHeaderLen;
      trace := Initial(env, id).trace;
    }

    method CloseNow()
      modifies this
      ensures State() == Close(old(State()))
    {
      if !closed {
        closed := true;
        trace := trace + if complete then [Closed, Lost] else [Closed];
      }
    }

    /** `read_peer_id`. */
    method ReadId(m: Id) returns (ok: bool)
      requires nextFunc == ReadPeerId
      modifies this
      ensures (State(), if ok then Some((4, ReadLen)) else None) == Handle(env, old(State()), m)
    {
      if id.None? || id.value == [] {
        if m == env.myId || (m != [] && m in env.others) {
          return false;
        }
        id := Some(m);
        if env.local {
          trace := trace + [Wrote(env.myId)];
        } else {
          assert trace == trace + [];
        }
      } else if Some(m) != id {
        return false;
      }
      complete := true;
      trace := trace + [Made];
      return true;
    }

    /** `self.next_func(m)`. */
    method Call(m: seq<byte>) returns (x: Option<(nat, Reader)>)
      requires !closed
      modifies this
      ensures (State(), x) == Handle(env, old(State()), m)
    {
      match nextFunc
      case ReadHeaderLen =>
        x := if ToInt(m) != |PROTOCOL_NAME| then None else Some((|PROTOCOL_NAME|, ReadHeader));
      case ReadHeader =>
        x := if m != PROTOCOL_NAME then None else Some((8, ReadReserved));
      case ReadReserved =>
        x := Some((20, ReadDownloadId));
      case ReadDownloadId =>
        if m != env.downloadId {
          return None;
        }
        if !env.local {
          trace := trace + [Wrote(Opening(env) + env.myId)];
        }
        x := Some((20, ReadPeerId));
      case ReadPeerId =>
        var ok := ReadId(m);
        x := if ok then Some((4, ReadLen)) else None;
      case ReadLen =>
        x := if ToInt(m) > env.maxLen then None else Some((ToInt(m), ReadMessage));
      case ReadMessage =>
        if m != [] {
          trace := trace + [Got(m)];
          if env.closes(trace) {
            CloseNow();
          }
        }
        x := Some((4, ReadLen));
    }

    /** One turn of the loop. */
    method Turn(m: seq<byte>)
      requires !closed && buffer == []
      modifies this
      ensures State() == Fire(env, old(State()).(buffer := m))
    {
      ghost var c := State();
      assert c.(buffer := m).(buffer := []) == c;
      var x := Call(m);
      match x {
        case None =>
          CloseNow();
        case Some(y) =>
          nextLen, nextFunc := y.0, y.1;
      }
    }

    /** `data_came_in`. */
    method DataCameIn(data: seq<byte>)
      requires Valid()
      modifies this
      ensures Valid() && State() == Feed(env, old(State()), data)
    {
      hide *;
      var s := data;
      ghost var goal := Feed(env, State(), data);
      StateIs();
      SettleIs(env, State());
      RestingIs(State());
      while true
        invariant Turning(State()) && Feed(env, Settle(env, State()), s) == goal
        decreases |s|, if nextLen == 0 then 1 else 0
      {
        StateIs();
        ghost var c := State();
        SettleIs(env, c);
        RestingIs(c);
        if closed {
          FeedClosed(env, c, s);
          return;
        }
        var i := nextLen - |buffer|;
        if i > |s| {
          FeedWaits(env, c, s);
          buffer := buffer + s;
          StateIs();
          RestingIs(State());
          return;
        }
        var m := buffer + s[..i];
        FireTurns(env, c.(buffer := m));
        if i > 0 {
          FeedFires(env, c, s[..i]);
          assert s[..i] + s[i..] == s;
          FeedJoin(env, c, s[..i], s[i..]);
        } else {
          assert m == c.buffer && c.(buffer := m) == c && s[i..] == s;
          SettleIs(env, Fire(env, c));
          RestingIs(Fire(env, c));
        }
        s := s[i..];
        buffer := [];
        StateIs();
        assert State().(buffer := m) == c.(buffer := m);
        Turn(m);
        StateIs();
        RestingIs(State());
      }
    }

    lemma {:induction false} StateIs()
      ensures State() == Link(id, complete, closed, buffer, nextLen, nextFunc, trace)
      ensures Valid() <==> Resting(State())
    {
    }
  }

  function Joined(chunks: seq<seq<byte>>): seq<byte>
  {
    if chunks == [] then [] else Joined(chunks[..|chunks| - 1]) + chunks[|chunks| - 1]
  }

  /** The loop does not depend on how the network cuts the stream: a connection that gets it in any chunks ends up in
      the state, and with the trace, of one that gets it in one piece. */
  method AnyChunks(whole: Connection, cut: Connection, chunks: seq<seq<byte>>)
    requires whole != cut && whole.Valid() && cut.Valid() && whole.env == cut.env && whole.State() == cut.State()
    modifies whole, cut
    ensures whole.Valid() && cut.Valid() && whole.State() == cut.State()
    ensures whole.State() == Feed(whole.env, old(whole.State()), Joined(chunks))
  {
    hide *;
    ghost var start := whole.State();
    whole.DataCameIn(Joined(chunks));
    ghost var goal := whole.State();
    JoinedIs(chunks, 0);
    FeedNothing(cut.env, start);
    for i := 0 to |chunks|
      invariant cut.Valid() && cut.State() == Feed(cut.env, start, Joined(chunks[..i]))
      invariant whole.Valid() && whole.State() == goal
    {
      JoinedIs(chunks, i);
      FeedJoin(cut.env, start, Joined(chunks[..i]), chunks[i]);
      cut.DataCameIn(chunks[i]);
    }
    assert chunks[..|chunks|] == chunks;
  }

  lemma {:induction false} JoinedIs(chunks: seq<seq<byte>>, i: nat)
    requires i <= |chunks|
    ensures Joined(chunks[..0]) == []
    ensures i < |chunks| ==> Joined(chunks[..i + 1]) == Joined(chunks[..i]) + chunks[i]
  {
    if i < |chunks| {
      assert chunks[..i + 1][..i] == chunks[..i];
    }
  }

  lemma {:induction false} SettleIs(env: Env, c: Link)
    ensures Settle(env, c) == if !c.closed && c.nextLen == 0 && c.buffer == [] then Fire(env, c) else c
  {
  }

  lemma {:induction false} RestingIs(c: Link)
    ensures Resting(c) <==> (c.closed || |c.buffer| < c.nextLen) && (c.nextLen == 0 ==> c.next == ReadMessage)
    ensures Turning(c) <==>
      (c.closed || |c.buffer| < c.nextLen || (c.buffer == [] && c.nextLen == 0)) && (c.nextLen == 0 ==> c.next == ReadMessage)
  {
  }

  // --- What is sent is what arrives ---

  /** What `send_message` writes. */
  function Frame(m: seq<byte>): seq<byte>
    requires |m| < 0x1_0000_0000
  {
    ToBinary(|m|) + m
  }

  function Frames(messages: seq<seq<byte>>): seq<byte>
    requires forall m :: m in messages ==> |m| < 0x1_0000_0000
  {
    if messages == [] then [] else Frames(messages[..|messages| - 1]) + Frame(messages[|messages| - 1])
  }

  /** The messages that get through: keepalives are not passed on. */
  function Delivered(messages: seq<seq<byte>>): seq<Event>
  {
    if messages == [] then []
    else
      var m := messages[|messages| - 1];
      Delivered(messages[..|messages| - 1]) + if m == [] then [] else [Got(m)]
  }

  /** Ready for the length of the next message. */
  ghost predicate Listening(c: Link)
  {
    !c.closed && c.complete && c.buffer == [] && c.nextLen == 4 && c.next == ReadLen
  }

  /** One frame is one message. */
  lemma {:induction false} FrameIsMessage(env: Env, c: Link, m: seq<byte>)
    requires Listening(c) && |m| < 0x1_0000_0000 && |m| <= env.maxLen
    ensures Feed(env, c, Frame(m)) ==
      if m == [] then c
      else
        var c' := c.(trace := c.trace + [Got(m)]);
        if env.closes(c'.trace) then Close(c') else c'
  {
    hide Feed, ToBinary, ToInt;
    var n := ToBinary(|m|);
    ToIntOfBinary(|m|);
    FeedFires(env, c, n);
    assert c.buffer + n == n;
    var c1 := c.(nextLen := |m|, next := ReadMessage);
    assert Fire(env, c.(buffer := n)) == c1;
    FeedJoin(env, c, n, m);
    if m == [] {
      assert c.(nextLen := 4, next := ReadLen) == c;
      assert n + m == n;
    } else {
      FeedFires(env, c1, m);
      assert c1.buffer + m == m;
    }
  }

  /** A frame longer than the encoder allows ends the connection as soon as its length is known. */
  lemma {:induction false} LongFrameCloses(env: Env, c: Link, m: seq<byte>)
    requires Listening(c) && |m| < 0x1_0000_0000 && |m| > env.maxLen
    ensures Feed(env, c, Frame(m)) == Close(c)
  {
    hide Feed, ToBinary, ToInt;
    var n := ToBinary(|m|);
    ToIntOfBinary(|m|);
    FeedFires(env, c, n);
    assert c.buffer + n == n;
    assert Fire(env, c.(buffer := n)) == Close(c);
    FeedJoin(env, c, n, m);
    FeedClosed(env, Close(c), m);
  }

  /** Any sequence of messages, sent in frames and received in any chunks, arrives whole and in order, as long as the
      connecter does not close the connection. */
  lemma {:induction false} FramesAreMessages(env: Env, c: Link, messages: seq<seq<byte>>)
    requires Listening(c) && forall m :: m in messages ==> |m| < 0x1_0000_0000 && |m| <= env.maxLen
    requires forall k: nat :: k <= |messages| ==> !env.closes(c.trace + Delivered(messages[..k]))
    ensures Feed(env, c, Frames(messages)) == c.(trace := c.trace + Delivered(messages))
    decreases |messages|
  {
    hide Frame, Feed;
    if messages == [] {
      assert c.trace + [] == c.trace;
      FeedNothing(env, c);
    } else {
      var front, m := messages[..|messages| - 1], messages[|messages| - 1];
      assert m in messages;
      assert forall k: nat :: k <= |front| ==> front[..k] == messages[..k];
      FramesAreMessages(env, c, front);
      assert messages[..|messages|] == messages;
      FeedJoin(env, c, Frames(front), Frame(m));
      var c' := c.(trace := c.trace + Delivered(front));
      FrameIsMessage(env, c', m);
      assert c'.trace + (if m == [] then [] else [Got(m)]) == c.trace + Delivered(messages);
    }
  }

  // --- The handshake ---

  /** A handshake of the right form, for this download, from a peer we can do with. */
  ghost predicate GoodHandshake(env: Env, id: Option<Id>, s: seq<byte>)
    requires |s| == 68
  {
    && s[0] as nat == |PROTOCOL_NAME| && s[1..20] == PROTOCOL_NAME
    && s[28..48] == env.downloadId && Acceptable(env, Initial(env, id), s[48..68])
  }

  lemma {:induction false} Stage(env: Env, c: Link, s: seq<byte>, rest: seq<byte>)
    requires !c.closed && c.buffer == [] && c.nextLen == |s| > 0
    ensures Feed(env, c, s + rest) == Feed(env, Settle(env, Fire(env, c.(buffer := s))), rest)
  {
    FeedFires(env, c, s);
    assert c.buffer + s == s;
    FeedJoin(env, c, s, rest);
  }

  /** A complete connection that listens: what it was, with the id of the peer, what it had still to write for its own
      handshake, and word of it to the connecter. */
  function Complete(env: Env, c: Link, peerId: Id): Link
  {
    c.(id := if NoId(c) then Some(peerId) else c.id, complete := true, buffer := [], nextLen := 4, next := ReadLen,
       trace := c.trace + (if !env.local then [Wrote(Opening(env) + env.myId)] else if NoId(c) then [Wrote(env.myId)] else [])
                + [Made])
  }

  /** Exactly the good handshakes complete a connection; every other one ends it. */
  lemma {:induction false} HandshakeExactly(env: Env, id: Option<Id>, s: seq<byte>)
    requires |s| == 68
    ensures var c := Feed(env, Initial(env, id), s);
      if GoodHandshake(env, id, s) then Listening(c) && c == Complete(env, Initial(env, id), s[48..68])
      else c.closed && !c.complete && Made !in c.trace && Closed in c.trace && Lost !in c.trace
  {
    hide Feed, Acceptable, WithId, Opening;
    var c0 := Initial(env, id);
    assert s[..1] + s[1..] == s;
    Stage(env, c0, s[..1], s[1..]);
    assert s[..1] == [s[0]];
    assert ToInt([s[0]]) == s[0] as nat;
    if s[0] as nat != |PROTOCOL_NAME| {
      FeedClosed(env, Close(c0), s[1..]);
      return;
    }
    var c1 := c0.(nextLen := 19, next := ReadHeader);
    assert Settle(env, Fire(env, c0.(buffer := s[..1]))) == c1;
    assert s[1..20] + s[20..] == s[1..];
    Stage(env, c1, s[1..20], s[20..]);
    if s[1..20] != PROTOCOL_NAME {
      FeedClosed(env, Close(c1), s[20..]);
      return;
    }
    var c2 := c0.(nextLen := 8, next := ReadReserved);
    assert Settle(env, Fire(env, c1.(buffer := s[1..20]))) == c2;
    assert s[20..28] + s[28..] == s[20..];
    Stage(env, c2, s[20..28], s[28..]);
    HandshakeIds(env, c0, s[28..48], s[48..]);
    assert Settle(env, Fire(env, c2.(buffer := s[20..28]))) == c0.(nextLen := 20, next := ReadDownloadId);
    assert s[28..48] + s[48..] == s[28..];
    assert s[48..] == s[48..68];
  }

  lemma {:induction false} HandshakeIds(env: Env, c0: Link, downloadId: Id, peerId: Id)
    requires !c0.closed && !c0.complete && c0.buffer == [] && |downloadId| == |peerId| == 20
    requires Made !in c0.trace && Lost !in c0.trace
    ensures var c := Feed(env, c0.(nextLen := 20, next := ReadDownloadId), downloadId + peerId);
      if downloadId == env.downloadId && Acceptable(env, c0, peerId)
      then Listening(c) && c == Complete(env, c0, peerId)
      else c.closed && !c.complete && Made !in c.trace && Closed in c.trace && Lost !in c.trace
  {
    hide Feed, Opening;
    var c3 := c0.(nextLen := 20, next := ReadDownloadId);
    Stage(env, c3, downloadId, peerId);
    if downloadId != env.downloadId {
      FeedClosed(env, Close(c3), peerId);
      return;
    }
    var c4 := Settle(env, Fire(env, c3.(buffer := downloadId)));
    Stage(env, c4, peerId, []);
    assert peerId + [] == peerId;
    assert Feed(env, Settle(env, Fire(env, c4.(buffer := peerId))), []) ==
           Settle(env, Fire(env, c4.(buffer := peerId))) by {
      FeedNothing(env, Settle(env, Fire(env, c4.(buffer := peerId))));
    }
    assert Acceptable(env, c4, peerId) == Acceptable(env, c0, peerId);
    assert c0.trace + [] == c0.trace && c4.trace + [] == c4.trace;
  }

  /** Everything that was written, in order. */
  function Written(trace: seq<Event>): seq<byte>
  {
    if trace == [] then []
    else Written(trace[..|trace| - 1]) + if trace[|trace| - 1].Wrote? then trace[|trace| - 1].bytes else []
  }

  lemma {:induction false} WrittenSnoc(trace: seq<Event>, e: Event)
    ensures Written(trace + [e]) == Written(trace) + if e.Wrote? then e.bytes else []
  {
    assert (trace + [e])[..|trace|] == trace;
  }

  /** The handshake of a client: the length of the protocol's name, the name, eight zeros, the ids. */
  lemma {:induction false} OpeningIs(env: Env)
    requires |env.downloadId| == 20 && |env.myId| == 20
    ensures var s := Opening(env) + env.myId;
      && |s| == 68 && |Opening(env)| == 48 && s[0] == 19 && s[1..20] == PROTOCOL_NAME
      && s[20..28] == Zeros(8) && s[28..48] == env.downloadId && s[48..68] == env.myId
      && forall k :: 0 <= k < 19 ==> s[1..20][k] as int == "BitTorrent protocol"[k] as int
  {
    var s := Opening(env) + env.myId;
    assert s == [19] + PROTOCOL_NAME + Zeros(8) + env.downloadId + env.myId;
  }

  /** What one client writes is what completes the other: the one that connects, with or without knowing whom it
      connects to, and the one that is connected to, which answers once it has read which download is meant. */
  lemma {:induction false} HandshakesMeet(a: Env, b: Env, id: Option<Id>)
    requires a.local && !b.local && a.downloadId == b.downloadId && |a.downloadId| == |a.myId| == |b.myId| == 20
    requires a.myId != b.myId && a.myId !in b.others && b.myId !in a.others && (id.None? || id == Some(b.myId))
    ensures var mine, theirs := Opening(a) + a.myId, Opening(b) + b.myId;
      && Opening(a) <= Written(Initial(a, id).trace)
      && Written(Feed(b, Initial(b, None), Opening(a)).trace) == theirs
      && Feed(a, Initial(a, id), theirs) == Complete(a, Initial(a, id), b.myId)
      && Written(Feed(a, Initial(a, id), theirs).trace) == mine
      && Feed(b, Initial(b, None), mine) == Complete(b, Initial(b, None), a.myId)
      && Written(Feed(b, Initial(b, None), mine).trace) == theirs
  {
    hide Feed, Opening;
    OpeningIs(a);
    OpeningIs(b);
    HandshakeExactly(a, id, Opening(b) + b.myId);
    HandshakeExactly(b, None, Opening(a) + a.myId);
    HeaderAnswered(b, Opening(a));
    CompleteWrites(a, id, b.myId);
    CompleteWrites(b, None, a.myId);
  }

  lemma {:induction false} CompleteWrites(env: Env, id: Option<Id>, peerId: Id)
    requires id.None? || id.value != []
    ensures Written(Complete(env, Initial(env, id), peerId).trace) == Opening(env) + env.myId
    ensures env.local ==> Opening(env) <= Written(Initial(env, id).trace)
  {
    hide *;
    CompleteTraces(env, id, peerId);
    WrittenEvents(Opening(env), env.myId);
    WrittenEvents(Opening(env) + env.myId, []);
  }

  lemma {:induction false} WrittenEvents(a: seq<byte>, b: seq<byte>)
    ensures Written([Wrote(a)]) == Written([Wrote(a), Made]) == a
    ensures Written([Wrote(a), Wrote(b)]) == Written([Wrote(a), Wrote(b), Made]) == a + b
  {
    WrittenLast([Wrote(a), Wrote(b), Made]);
    WrittenLast([Wrote(a), Wrote(b)]);
    WrittenLast([Wrote(a), Made]);
    WrittenLast([Wrote(a)]);
    WrittenNone();
    hide Written;
    assert [Wrote(a), Wrote(b), Made][..2] == [Wrote(a), Wrote(b)];
    assert [Wrote(a), Wrote(b)][..1] == [Wrote(a)] && [Wrote(a), Made][..1] == [Wrote(a)] && [Wrote(a)][..0] == [];
  }

  lemma {:induction false} WrittenLast(trace: seq<Event>)
    requires trace != []
    ensures var n := |trace| - 1;
      Written(trace) == Written(trace[..n]) + if trace[n].Wrote? then trace[n].bytes else []
  {
  }

  lemma {:induction false} CompleteTraces(env: Env, id: Option<Id>, peerId: Id)
    requires id.None? || id.value != []
    ensures var o, m := Wrote(Opening(env)), Wrote(env.myId);
      && Initial(env, id).trace == (if !env.local then [] else if id.None? then [o] else [o, m])
      && Complete(env, Initial(env, id), peerId).trace ==
           if env.local then [o, m, Made] else [Wrote(Opening(env) + env.myId), Made]
  {
    hide Opening;
  }

  /** A client that is connected to answers as soon as it has read which download is meant. */
  lemma {:induction false} HeaderAnswered(env: Env, s: seq<byte>)
    requires !env.local && |s| == 48 && s[0] == 19 && s[1..20] == PROTOCOL_NAME && s[28..48] == env.downloadId
    ensures Written(Feed(env, Initial(env, None), s).trace) == Opening(env) + env.myId
  {
    hide Feed, Opening, Written;
    var c0 := Initial(env, None);
    assert s[..1] + s[1..] == s && s[..1] == [s[0]] && ToInt([s[0]]) == s[0] as nat;
    Stage(env, c0, s[..1], s[1..]);
    assert s[1..20] + s[20..] == s[1..];
    Stage(env, c0.(nextLen := 19, next := ReadHeader), s[1..20], s[20..]);
    assert s[20..28] + s[28..] == s[20..];
    Stage(env, c0.(nextLen := 8, next := ReadReserved), s[20..28], s[28..]);
    assert s[28..48] + [] == s[28..];
    Stage(env, c0.(nextLen := 20, next := ReadDownloadId), s[28..48], []);
    var w := Wrote(Opening(env) + env.myId);
    var c := c0.(nextLen := 20, next := ReadPeerId, trace := [] + [w]);
    FeedNothing(env, c);
    WrittenSnoc([], w);
    WrittenNone();
  }

  lemma {:induction false} WrittenNone()
    ensures Written([]) == []
  {
  }

  // --- What the connecter is told ---

  /** The connecter is told of a connection exactly when it is complete, and exactly of a complete one that it is lost
      when it is closed, and nothing happens to it after that. */
  ghost predicate Accounts(c: Link)
  {
    && (c.complete <==> Made in c.trace) && (c.closed <==> Closed in c.trace)
    && (c.closed && c.complete <==> Lost in c.trace)
    && (c.closed ==> if c.complete then |c.trace| >= 2 && c.trace[|c.trace| - 2..] == [Closed, Lost]
                     else c.trace != [] && c.trace[|c.trace| - 1] == Closed)
  }

  lemma {:induction false} CloseAccounts(c: Link)
    requires Accounts(c)
    ensures Accounts(Close(c))
  {
    if !c.closed && c.complete {
      assert (c.trace + [Closed, Lost])[|c.trace|..] == [Closed, Lost];
    }
  }

  lemma {:induction false} FireAccounts(env: Env, c: Link)
    requires Accounts(c) && !c.closed && (c.next == ReadPeerId ==> !c.complete)
    ensures Accounts(Fire(env, c))
  {
    hide Close, Opening, Acceptable;
    var (c', x) := Handle(env, c.(buffer := []), c.buffer);
    match c.next
    case ReadMessage =>
      if c.buffer != [] {
        CloseAccounts(c.(buffer := [], trace := c.trace + [Got(c.buffer)]));
      }
    case _ =>
      CloseAccounts(c');
  }

  /** What a handshake leaves behind is never entered again. */
  ghost predicate Onward(c: Link)
  {
    c.complete ==> c.next == ReadLen || c.next == ReadMessage
  }

  lemma {:induction false} FireOnward(env: Env, c: Link)
    requires Onward(c) && !c.closed
    ensures Onward(Fire(env, c))
  {
    hide Opening, Acceptable;
  }

  /** In every state of a connection, however much it has read. */
  lemma {:induction false} Announced(env: Env, id: Option<Id>, s: seq<byte>)
    ensures var c := Feed(env, Initial(env, id), s);
      Accounts(c) && Onward(c)
    decreases |s|
  {
    hide Accounts, Onward, Fire, Opening;
    if s == [] {
      InitialAccounts(env, id);
    } else {
      var c := Feed(env, Initial(env, id), s[..|s| - 1]);
      Announced(env, id, s[..|s| - 1]);
      ByteAccounts(env, c, s[|s| - 1]);
    }
  }

  lemma {:induction false} InitialAccounts(env: Env, id: Option<Id>)
    ensures Accounts(Initial(env, id)) && Onward(Initial(env, id))
  {
    hide Opening;
  }

  lemma {:induction false} ByteAccounts(env: Env, c: Link, b: byte)
    requires Accounts(c) && Onward(c)
    ensures Accounts(FeedByte(env, c, b)) && Onward(FeedByte(env, c, b))
  {
    if !c.closed {
      var c1 := c.(buffer := c.buffer + [b]);
      hide Fire;
      FireAccounts(env, c1);
      FireOnward(env, c1);
      var c2 := Fire(env, c1);
      if !c2.closed {
        FireAccounts(env, c2);
        FireOnward(env, c2);
      }
    }
  }

  lemma {:induction false} FeedNothing(env: Env, c: Link)
    ensures Feed(env, c, []) == c
  {
  }
}
