/** One upload: whether it is choked, and which requests wait to be answered (wubi/src/bittorrent/Uploader.py). */
module Uploads {
  import opened Wrappers
  import opened Bytes
  import opened Requests
  import opened Placement
  import opened Scan
  import opened PieceStore

  /** (index, begin, length), as in the buffer. */
  datatype Query = Query(index: nat, begin: nat, length: nat)

  /** What goes to the peer. */
  datatype Sent = SentChoke | SentUnchoke | SentPiece(query: Query, piece: seq<byte>)

  /** What draining the buffer leads to: what is sent, what is left, and whether the connection is closed because a
      piece could not be had. */
  datatype Drained = Drained(sent: seq<Sent>, left: seq<Query>, close: bool)

  /** What the storage has to give: the pieces we have, where they are, and the bytes there. */
  datatype Shelf = Shelf(g: Geometry, sha: Hash, hashes: seq<Digest>, have: seq<bool>, places: map<nat, nat>,
                         slots: seq<seq<byte>>)

  ghost function ShelfOf(storage: StorageWrapper): Shelf
    reads storage, storage.storage
  {
    Shelf(storage.g, storage.sha, storage.hashes, storage.have, storage.places, storage.CurrentSlots())
  }

  /** A range of a piece that we have and whose bytes hash to what was promised. */
  ghost predicate Available(shelf: Shelf, query: Query)
  {
    var bytes := Content(shelf.g, shelf.places, shelf.slots, query.index);
    && query.index < |shelf.have| == |shelf.hashes| && shelf.have[query.index]
    && query.begin + query.length <= PieceLen(shelf.g, query.index) && query.begin + query.length <= |bytes|
    && shelf.sha.Of(bytes) == shelf.hashes[query.index]
  }

  /** `get_piece`. */
  ghost function Answer(shelf: Shelf, query: Query): Option<seq<byte>>
  {
    if Available(shelf, query)
    then Some(Content(shelf.g, shelf.places, shelf.slots, query.index)[query.begin..query.begin + query.length])
    else None
  }

  /** `flushed`, over a connection that takes `room` more pieces. */
  ghost function Drain(buffer: seq<Query>, room: nat, shelf: Shelf): Drained
  {
    if buffer == [] || room == 0 then Drained([], buffer, false)
    else
      var piece := Answer(shelf, buffer[0]);
      if piece.None? then Drained([], buffer[1..], true)
      else
        var rest := Drain(buffer[1..], room - 1, shelf);
        Drained([SentPiece(buffer[0], piece.value)] + rest.sent, rest.left, rest.close)
  }

  /** Requests are answered in the order they came, as many as fit, each with the range it asks for of a piece that
      we have and whose bytes hash to what was promised; one for anything else is dropped and ends it. */
  lemma {:induction false} DrainInOrder(buffer: seq<Query>, room: nat, shelf: Shelf)
    ensures var d := Drain(buffer, room, shelf);
      && Answered(d.sent, buffer, shelf)
      && (if d.close then
            |d.sent| < |buffer| && |d.sent| < room && !Available(shelf, buffer[|d.sent|]) && d.left == buffer[|d.sent| + 1..]
          else |d.sent| == Min(|buffer|, room) && d.left == buffer[|d.sent|..])
    decreases |buffer|
  {
    hide *;
    DrainIs(buffer, room, shelf);
    NothingAnswered(buffer, shelf);
    if buffer != [] && room > 0 {
      AnswerFirst(shelf, buffer[0]);
      if Available(shelf, buffer[0]) {
        DrainInOrder(buffer[1..], room - 1, shelf);
        var r, s := Drain(buffer[1..], room - 1, shelf), SentPiece(buffer[0], Answer(shelf, buffer[0]).value);
        OneMoreAnswer(buffer, r.sent, s, shelf);
        LaterRest(buffer, |r.sent|);
        MinLess(|buffer|, room);
      } else {
        assert buffer[0 + 1..] == buffer[1..];
      }
    } else {
      MinOf(|buffer|, room);
      assert buffer[0..] == buffer;
    }
  }

  lemma {:induction false} AnswerFirst(shelf: Shelf, query: Query)
    ensures Available(shelf, query) <==> Answer(shelf, query).Some?
    ensures Available(shelf, query) ==> Answers(SentPiece(query, Answer(shelf, query).value), query, shelf)
  {
  }

  lemma {:induction false} OneMoreAnswer(buffer: seq<Query>, sent: seq<Sent>, s: Sent, shelf: Shelf)
    requires buffer != [] && Answers(s, buffer[0], shelf)
    requires Answered(sent, buffer[1..], shelf)
    ensures Answered([s] + sent, buffer, shelf) && |sent| + 1 <= |buffer|
  {
    hide Answers;
    forall k | 0 <= k < |[s] + sent|
      ensures Answers(([s] + sent)[k], buffer[k], shelf)
    {
      if k > 0 {
        assert ([s] + sent)[k] == sent[k - 1] && buffer[1..][k - 1] == buffer[k];
      }
    }
  }

  lemma {:induction false} NothingAnswered(buffer: seq<Query>, shelf: Shelf)
    ensures Answered([], buffer, shelf)
  {
  }

  lemma {:induction false} LaterRest(buffer: seq<Query>, n: nat)
    requires n + 1 <= |buffer|
    ensures buffer[1..][n..] == buffer[n + 1..]
    ensures n + 2 <= |buffer| ==> buffer[1..][n + 1..] == buffer[n + 2..] && buffer[1..][n] == buffer[n + 1]
  {
  }

  lemma {:induction false} MinLess(a: int, b: int)
    ensures Min(a - 1, b - 1) == Min(a, b) - 1
  {
  }

  lemma {:induction false} MinOf(a: nat, b: nat)
    ensures a == 0 || b == 0 ==> Min(a, b) == 0
  {
  }

  /** What is sent answers the first requests of the buffer, one by one. */
  ghost predicate Answered(sent: seq<Sent>, buffer: seq<Query>, shelf: Shelf)
  {
    |sent| <= |buffer| && forall k :: 0 <= k < |sent| ==> Answers(sent[k], buffer[k], shelf)
  }

  ghost predicate Answers(s: Sent, query: Query, shelf: Shelf)
  {
    && s.SentPiece? && s.query == query && Available(shelf, query)
    && s.piece == Content(shelf.g, shelf.places, shelf.slots, query.index)[query.begin..query.begin + query.length]
  }

  lemma {:induction false} AnswerIs(storage: StorageWrapper, query: Query, r: Option<seq<byte>>)
    requires storage.Valid() && query.index < storage.g.numPieces && query.index < |storage.have| == |storage.hashes|
    requires var bytes := Content(storage.g, storage.places, storage.CurrentSlots(), query.index);
      && (r.Some? <==> storage.have[query.index] && query.begin + query.length <= PieceLen(storage.g, query.index)
                       && storage.sha.Of(bytes) == storage.hashes[query.index])
      && (r.Some? ==>
            query.begin + query.length <= |bytes| && r.value == bytes[query.begin..query.begin + query.length])
    ensures r == Answer(ShelfOf(storage), query)
  {
    hide *;
    ShelfIs(storage, query);
    storage.ValidParts(query.index);
    if storage.have[query.index] {
      storage.PlaceReadable(query.index);
    }
  }

  lemma {:induction false} ShelfIs(storage: StorageWrapper, query: Query)
    ensures var bytes := Content(storage.g, storage.places, storage.CurrentSlots(), query.index);
      && (Available(ShelfOf(storage), query) <==>
            && query.index < |storage.have| == |storage.hashes| && storage.have[query.index]
            && query.begin + query.length <= PieceLen(storage.g, query.index) && query.begin + query.length <= |bytes|
            && storage.sha.Of(bytes) == storage.hashes[query.index])
      && (Available(ShelfOf(storage), query) ==>
            Answer(ShelfOf(storage), query) == Some(bytes[query.begin..query.begin + query.length]))
      && (!Available(ShelfOf(storage), query) ==> Answer(ShelfOf(storage), query).None?)
  {
  }

  lemma {:induction false} DrainIs(buffer: seq<Query>, room: nat, shelf: Shelf)
    ensures buffer == [] || room == 0 ==> Drain(buffer, room, shelf) == Drained([], buffer, false)
    ensures buffer != [] && room > 0 && Answer(shelf, buffer[0]).None? ==>
      Drain(buffer, room, shelf) == Drained([], buffer[1..], true)
    ensures buffer != [] && room > 0 && Answer(shelf, buffer[0]).Some? ==>
      var rest := Drain(buffer[1..], room - 1, shelf);
      Drain(buffer, room, shelf) == Drained([SentPiece(buffer[0], Answer(shelf, buffer[0]).value)] + rest.sent,
                                            rest.left, rest.close)
  {
  }

  class Upload {
    const maxSliceLength: nat
    const storage: StorageWrapper
    var choked: bool
    var interested: bool
    var buffer: seq<Query>
    var sent: seq<Sent>

    /** Requests wait only while the peer is interested and unchoked, and are for pieces of the torrent. */
    ghost predicate Valid()
      reads this
    {
      ((choked || !interested) ==> buffer == []) && forall q :: q in buffer ==> q.index < storage.g.numPieces
    }

    constructor (storage: StorageWrapper, maxSliceLength: nat)
      ensures Valid() && this.storage == storage && this.maxSliceLength == maxSliceLength
      ensures choked && !interested && sent == []
    {
      this.storage, this.maxSliceLength := storage, maxSliceLength;
      choked, interested, buffer, sent := true, false, [], [];
    }

    /** `got_not_interested`, up to telling the choker; `told` is whether it is told. */
    method LoseInterest() returns (told: bool)
      requires Valid()
      modifies this`interested, this`buffer
      ensures Valid() && !interested && told == old(interested) && buffer == if old(interested) then [] else old(buffer)
    {
      told := interested;
      if interested {
        interested := false;
        buffer := [];
      }
    }

    /** `got_interested`, up to telling the choker. */
    method GainInterest() returns (told: bool)
      requires Valid()
      modifies this`interested
      ensures Valid() && interested && told == !old(interested)
    {
      told := !interested;
      interested := true;
    }

    /** `flushed`, while the connection takes `room` more pieces. */
    method Flushed(room: nat) returns (close: bool)
      requires Valid() && storage.Valid()
      modifies this`buffer, this`sent, storage`waschecked, storage`failedCalls
      ensures Valid() && storage.Valid()
      ensures var d := Drain(old(buffer), room, old(ShelfOf(storage)));
        sent == old(sent) + d.sent && buffer == d.left && close == d.close
    {
      hide *;
      ValidIs();
      var left := room;
      ghost var shelf, sent0 := ShelfOf(storage), sent;
      ghost var d := Drain(buffer, room, shelf);
      DrainingStarts(sent0, d);
      while buffer != [] && left > 0
        invariant Valid() && storage.Valid() && ShelfOf(storage) == shelf
        invariant Draining(sent0, d, sent, Drain(buffer, left, shelf))
        decreases left
      {
        DrainIs(buffer, left, shelf);
        ValidIs();
        assert buffer[0] in buffer;
        var query := buffer[0];
        ghost var r := Drain(buffer, left, shelf);
        buffer := buffer[1..];
        ValidIs();
        SameShelf(storage);
        var piece := storage.GetPiece(query.index, query.begin, query.length);
        AnswerIs(storage, query, piece);
        SameShelf(storage);
        if piece.None? {
          DrainingEnds(sent0, d, sent, r);
          ValidIs();
          return true;
        }
        DrainingSends(sent0, d, sent, r, SentPiece(query, piece.value), Drain(buffer, left - 1, shelf));
        sent := sent + [SentPiece(query, piece.value)];
        left := left - 1;
        ValidIs();
      }
      DrainIs(buffer, left, shelf);
      DrainingEnds(sent0, d, sent, Drain(buffer, left, shelf));
      return false;
    }

    lemma {:induction false} ValidIs()
      ensures Valid() <==>
        ((choked || !interested) ==> buffer == []) && forall q :: q in buffer ==> q.index < storage.g.numPieces
    {
    }

    /** `got_request`, of a piece of the torrent. */
    method GotRequest(query: Query, room: nat) returns (close: bool)
      requires Valid() && storage.Valid() && query.index < storage.g.numPieces
      modifies this`buffer, this`sent, storage`waschecked, storage`failedCalls
      ensures Valid() && storage.Valid()
      ensures !interested || query.length > maxSliceLength ==> close && buffer == old(buffer) && sent == old(sent)
      ensures interested && query.length <= maxSliceLength && choked ==>
        !close && buffer == old(buffer) && sent == old(sent)
      ensures interested && query.length <= maxSliceLength && !choked ==>
        var d := Drain(old(buffer) + [query], room, old(ShelfOf(storage)));
        sent == old(sent) + d.sent && buffer == d.left && close == d.close
    {
      hide *;
      if !interested || query.length > maxSliceLength {
        return true;
      }
      close := false;
      if !choked {
        ValidIs();
        buffer := buffer + [query];
        ValidIs();
        close := Flushed(room);
      }
    }

    /** `got_cancel`: the first such request, if there is one, is dropped. */
    method GotCancel(query: Query)
      requires Valid()
      modifies this`buffer
      ensures Valid() && buffer == Dropped(old(buffer), query)
      ensures query !in old(buffer) ==> buffer == old(buffer)
      ensures query in old(buffer) ==> exists k: nat :: Drops(old(buffer), query, k, buffer)
    {
      DroppedIs(buffer, query);
      buffer := Dropped(buffer, query);
    }

    method Choke()
      requires Valid()
      modifies this`choked, this`buffer, this`sent
      ensures Valid() && choked && sent == old(sent) + if old(choked) then [] else [SentChoke]
      ensures buffer == if old(choked) then old(buffer) else []
    {
      if !choked {
        choked := true;
        buffer := [];
        sent := sent + [SentChoke];
      } else {
        assert sent + [] == sent;
      }
    }

    method Unchoke()
      requires Valid()
      modifies this`choked, this`sent
      ensures Valid() && !choked && sent == old(sent) + if old(choked) then [SentUnchoke] else []
    {
      if choked {
        choked := false;
        sent := sent + [SentUnchoke];
      } else {
        assert sent + [] == sent;
      }
    }
  }

  function Dropped(buffer: seq<Query>, query: Query): seq<Query>
  {
    if buffer == [] then [] else if buffer[0] == query then buffer[1..] else [buffer[0]] + Dropped(buffer[1..], query)
  }

  /** The `k`-th request is the first that is `query`; `after` has the others in order. */
  ghost predicate Drops(buffer: seq<Query>, query: Query, k: nat, after: seq<Query>)
  {
    k < |buffer| && buffer[k] == query && query !in buffer[..k] && after == buffer[..k] + buffer[k + 1..]
  }

  lemma {:induction false} DroppedIs(buffer: seq<Query>, query: Query)
    ensures query !in buffer ==> Dropped(buffer, query) == buffer
    ensures query in buffer ==> exists k: nat :: Drops(buffer, query, k, Dropped(buffer, query))
    decreases |buffer|
  {
    hide Drops;
    if buffer != [] {
      var rest := buffer[1..];
      assert buffer == [buffer[0]] + rest;
      DroppedIs(rest, query);
      if buffer[0] == query {
        DropsNow(buffer, query);
        assert Drops(buffer, query, 0, Dropped(buffer, query));
      } else if query in rest {
        var k: nat :| Drops(rest, query, k, Dropped(rest, query));
        DropsLater(buffer[0], rest, query, k, Dropped(rest, query));
        assert Drops(buffer, query, k + 1, Dropped(buffer, query));
      }
    }
  }

  lemma {:induction false} DropsNow(buffer: seq<Query>, query: Query)
    requires buffer != [] && buffer[0] == query
    ensures Drops(buffer, query, 0, buffer[1..])
  {
  }

  lemma {:induction false} DropsLater(q: Query, rest: seq<Query>, query: Query, k: nat, after: seq<Query>)
    requires q != query && Drops(rest, query, k, after)
    ensures Drops([q] + rest, query, k + 1, [q] + after)
  {
    var buffer := [q] + rest;
    assert buffer[..k + 1] == [q] + rest[..k] && buffer[k + 2..] == rest[k + 1..];
  }

  /** What was sent so far, with what is still to be sent, makes up what is to be sent in all. */
  ghost predicate Draining(sent0: seq<Sent>, d: Drained, sent: seq<Sent>, rest: Drained)
  {
    sent + rest.sent == sent0 + d.sent && rest.left == d.left && rest.close == d.close
  }

  lemma {:induction false} DrainingStarts(sent0: seq<Sent>, d: Drained)
    ensures Draining(sent0, d, sent0, d)
  {
  }

  lemma {:induction false} DrainingEnds(sent0: seq<Sent>, d: Drained, sent: seq<Sent>, rest: Drained)
    requires Draining(sent0, d, sent, rest) && rest.sent == []
    ensures sent == sent0 + d.sent && rest.left == d.left && rest.close == d.close
  {
    assert sent + [] == sent;
  }

  lemma {:induction false} DrainingSends(sent0: seq<Sent>, d: Drained, sent: seq<Sent>, r: Drained, s: Sent,
                                         rest: Drained)
    requires Draining(sent0, d, sent, r) && r == Drained([s] + rest.sent, rest.left, rest.close)
    ensures Draining(sent0, d, sent + [s], rest)
  {
    assert sent + ([s] + rest.sent) == (sent + [s]) + rest.sent;
  }

  lemma {:induction false} SameShelf(storage: StorageWrapper)
    ensures ShelfOf(storage) ==
      Shelf(storage.g, storage.sha, storage.hashes, storage.have, storage.places, storage.CurrentSlots())
  {
  }
}
