/** Pieces arriving in any order into one flat space (wubi/src/bittorrent/StorageWrapper.py). */
module PieceStore {
  import opened Wrappers
  import opened Bytes
  import opened Requests
  import opened Placement
  import opened Scan
  import opened FlatStorage

  /** Bytes still missing: the lengths of the pieces we do not have. */
  function SumLeft(g: Geometry, have: seq<bool>): int
  {
    if have == [] then 0
    else SumLeft(g, have[..|have| - 1]) + if have[|have| - 1] then 0 else PieceLen(g, |have| - 1)
  }

  lemma {:induction false} SumLeftGot(g: Geometry, have: seq<bool>, i: nat)
    requires i < |have| && !have[i]
    ensures SumLeft(g, have[i := true]) == SumLeft(g, have) - PieceLen(g, i)
    decreases |have|
  {
    var n := |have| - 1;
    if i < n {
      SumLeftGot(g, have[..n], i);
      assert have[i := true][..n] == have[..n][i := true];
    } else {
      assert have[i := true][..n] == have[..n];
    }
  }

  /** Nothing is missing exactly when every piece is there. */
  lemma {:induction false} NothingLeft(g: Geometry, have: seq<bool>)
    requires Fits(g) && |have| <= g.numPieces
    ensures SumLeft(g, have) >= 0
    ensures SumLeft(g, have) == 0 <==> forall p :: 0 <= p < |have| ==> have[p]
    decreases |have|
  {
    if have != [] {
      var n := |have| - 1;
      NothingLeft(g, have[..n]);
      PieceLenPositive(g, n);
    }
  }

  lemma {:induction false} SumLeftInitial(g: Geometry, n: nat)
    requires Fits(g) && n <= g.numPieces
    ensures SumLeft(g, seq(n, _ => false)) == if n == g.numPieces then g.total else n * g.pieceSize
  {
    if n > 0 {
      var u: seq<bool> := seq(n, _ => false);
      assert u[..n - 1] == seq(n - 1, _ => false);
      SumLeftInitial(g, n - 1);
      assert n * g.pieceSize == (n - 1) * g.pieceSize + g.pieceSize;
    } else {
      assert 0 * g.pieceSize == 0;
    }
  }

  /** Right after the scan, the bytes to ask for are the bytes missing, and nothing is outstanding. */
  lemma {:induction false} ScanBooks(g: Geometry, have: seq<bool>, numactive: seq<int>, endgame: bool)
    requires Fits(g) && |have| == |numactive| == g.numPieces && forall p :: 0 <= p < g.numPieces ==> numactive[p] == 0
    ensures Balanced(g, Ledger(ScanInactive(have), numactive, SumLeft(g, have), endgame), [], {})
  {
    ScanSum(g, have);
  }

  lemma {:induction false} ScanSum(g: Geometry, have: seq<bool>)
    ensures SumUnasked(g, ScanInactive(have)) == SumLeft(g, have)
    decreases |have|
  {
    if have != [] {
      var n := |have| - 1;
      ScanSum(g, have[..n]);
      assert ScanInactive(have)[..n] == ScanInactive(have[..n]);
    }
  }

  lemma {:induction false} LengthByMin(g: Geometry, index: nat)
    requires Fits(g) && index < g.numPieces
    ensures Min(g.pieceSize, g.total - g.pieceSize * index) == PieceLen(g, index) > 0
  {
    PieceLenPositive(g, index);
    var offset := g.pieceSize * index;
    assert offset == index * g.pieceSize;
    if index < g.numPieces - 1 {
      Multiples(g.pieceSize, index, g.numPieces - 1);
      assert g.pieceSize <= g.total - offset;
    } else {
      assert PieceLen(g, index) == g.total - offset;
    }
  }

  lemma {:induction false} SlotSlice(flat: seq<byte>, from: nat, len: nat, begin: nat, amount: nat)
    requires from + len <= |flat| && begin + amount <= len
    ensures flat[from..from + len][begin..begin + amount] == flat[from + begin..from + begin + amount]
  {
    var part := flat[from..from + len];
    var x, y := part[begin..begin + amount], flat[from + begin..from + begin + amount];
    assert forall i :: 0 <= i < amount ==> x[i] == y[i];
  }

  /** `amount_left` is what is missing, `finished` was called once if nothing is, and unless pieces may be
      taken on trust every piece is down as checked. */
  ghost predicate Tallied(g: Geometry, checkHashes: bool, have: seq<bool>, waschecked: seq<bool>, amountLeft: int,
                          finishedCalls: nat)
  {
    && (checkHashes ==> forall p :: 0 <= p < |waschecked| ==> waschecked[p])
    && amountLeft == SumLeft(g, have)
    && finishedCalls == if amountLeft == 0 then 1 else 0
  }

  lemma {:induction false} TalliedGot(g: Geometry, checkHashes: bool, have: seq<bool>, waschecked: seq<bool>,
                                      amountLeft: int, finishedCalls: nat,
                                      index: nat)
    requires Fits(g) && |have| == |waschecked| == g.numPieces && index < g.numPieces && !have[index]
    requires Tallied(g, checkHashes, have, waschecked, amountLeft, finishedCalls)
    ensures var left := amountLeft - PieceLen(g, index);
      Tallied(g, checkHashes, have[index := true], waschecked[index := true], left,
              if left == 0 then finishedCalls + 1 else finishedCalls)
  {
    NothingLeft(g, have);
    NothingLeft(g, have[index := true]);
    SumLeftGot(g, have, index);
  }

  lemma {:induction false} TalliedIs(g: Geometry, checkHashes: bool, have: seq<bool>, waschecked: seq<bool>,
                                     amountLeft: int, finishedCalls: nat)
    requires Tallied(g, checkHashes, have, waschecked, amountLeft, finishedCalls)
    ensures amountLeft == SumLeft(g, have) && finishedCalls == if amountLeft == 0 then 1 else 0
  {
  }

  /** Piece `index` is placed and has `piece` at `begin`; the rest of it, if it was placed before, and all other pieces
      have the bytes they had. */
  ghost predicate BlockIn(g: Geometry, places: map<nat, nat>, slots: seq<seq<byte>>, places': map<nat, nat>,
                          slots': seq<seq<byte>>,
                          index: nat, begin: nat, piece: seq<byte>)
  {
    && places'.Keys == places.Keys + {index}
    && (forall p :: p in places && p != index ==> Content(g, places', slots', p) == Content(g, places, slots, p))
    && begin + |piece| <= PieceLen(g, index) == |Content(g, places', slots', index)|
    && Content(g, places', slots', index)[begin..begin + |piece|] == piece
    && (index in places && begin + |piece| <= |Content(g, places, slots, index)| ==>
          Content(g, places', slots', index) == Splice(Content(g, places, slots, index), begin, piece))
  }

  lemma {:induction false} RequestSizePositive(g: Geometry)
    requires Fits(g)
    ensures g.requestSize > 0
  {
  }

  lemma {:induction false} Commutes(a: int, b: int)
    ensures a * b == b * a
  {
  }

  class StorageWrapper {
    const storage: Storage
    const g: Geometry
    const hashes: seq<Digest>
    const sha: Hash
    const checkHashes: bool

    var inactiveRequests: seq<Unrequested>
    var numactive: seq<int>
    var amountInactive: int
    var endgame: bool
    var amountLeft: int
    var have: seq<bool>
    var waschecked: seq<bool>
    var places: map<nat, nat>
    var holes: seq<nat>
    /** How often the `finished` and `failed` callbacks have been called. */
    var finishedCalls: nat
    var failedCalls: nat
    /** Requests handed out by `NewRequest` that neither came in nor got lost, and blocks written in the current
        attempts. */
    ghost var outstanding: seq<Request>
    ghost var received: set<Request>

    constructor Bare(storage: Storage, g: Geometry, hashes: seq<Digest>, sha: Hash, checkHashes: bool)
      requires Fits(g) && |hashes| == g.numPieces
      ensures this.storage == storage && this.g == g && this.hashes == hashes
      ensures this.sha == sha && this.checkHashes == checkHashes
      ensures Blank()
    {
      this.storage, this.g, this.hashes, this.sha, this.checkHashes := storage, g, hashes, sha, checkHashes;
      amountLeft, amountInactive := g.total, g.total;
      numactive := seq(g.numPieces, _ => 0);
      inactiveRequests := seq(g.numPieces, _ => Untouched);
      endgame := false;
      have := seq(g.numPieces, _ => false);
      waschecked := seq(g.numPieces, _ => checkHashes);
      places, holes := map[], [];
      finishedCalls, failedCalls := 0, 0;
      outstanding, received := [], {};
      new;
      BareIsBlank();
    }

    function Books(): Ledger
      reads this`inactiveRequests, this`numactive, this`amountInactive, this`endgame
    {
      Ledger(inactiveRequests, numactive, amountInactive, endgame)
    }

    ghost predicate StorageOk()
      reads storage
    {
      storage.Valid() && Fits(g) && storage.totalLength == g.total && |hashes| == g.numPieces
      && (g.numPieces > 0 ==> |storage.ranges| > 0)
    }

    ghost function CurrentSlots(): (slots: seq<seq<byte>>)
      reads storage
    {
      Slots(g, storage.Flat())
    }

    ghost predicate PresentSlot(v: nat)
      reads storage
    {
      storage.Present(v * g.pieceSize, v * g.pieceSize + Max(PieceLen(g, v), 0))
    }

    /** The positions whose bytes are all there. */
    ghost function PresentSlots(): set<nat>
      reads storage
    {
      set v | v in Below(g.numPieces) && PresentSlot(v)
    }

    /** `_waspre`. */
    predicate Pre(v: nat)
      reads storage`ranges, storage`tops
    {
      storage.WasPreallocated(v * g.pieceSize, Max(PieceLen(g, v), 0))
    }

    ghost predicate PlacesOk()
      reads this`places, this`holes, storage
    {
      && Placed(g, places, holes)
      && Below(g.numPieces) - SetOf(holes) <= PresentSlots()
      && (forall v :: v in holes ==> v < g.numPieces && !Pre(v))
    }

    /** The pieces: where they are and which of them we have. */
    ghost predicate PiecesOk()
      reads this`places, this`holes, this`have, this`waschecked, this`amountLeft, this`finishedCalls, storage
    {
      && StorageOk() && PlacesOk()
      && Hashed(g, sha, hashes, have, waschecked, places, CurrentSlots())
      && Tallied(g, checkHashes, have, waschecked, amountLeft, finishedCalls)
    }

    /** The requests: what was handed out and what is still to be. */
    ghost predicate RequestsOk()
      reads this`inactiveRequests, this`numactive, this`amountInactive, this`endgame, this`outstanding, this`received, this`have
    {
      && Balanced(g, Books(), outstanding, received)
      && |have| == g.numPieces
      && forall p :: 0 <= p < g.numPieces ==> (have[p] <==> inactiveRequests[p].Complete?)
    }

    ghost predicate Valid()
      reads this, storage
    {
      PiecesOk() && RequestsOk()
    }

    /** `storage.read(piece_size * v + begin, amount)`. */
    method ReadAt(v: nat, begin: nat, amount: nat) returns (r: seq<byte>)
      requires StorageOk() && v in PresentSlots() && begin + amount <= PieceLen(g, v)
      ensures r == CurrentSlots()[v][begin..begin + amount] && |r| == amount
    {
      hide Layout, OnDisk, TopsPresent, FlatOf;
      SlotBounds(g, v);
      ghost var pos := g.pieceSize * v + begin;
      PresentWithin(storage.ranges, storage.disk, v * g.pieceSize, pos, pos + amount, v * g.pieceSize + PieceLen(g, v));
      r := storage.Read(g.pieceSize * v + begin, amount);
      SlotSlice(storage.Flat(), v * g.pieceSize, PieceLen(g, v), begin, amount);
    }

    /** `storage.read(piece_size * v, amount)`. */
    method ReadSlot(v: nat, amount: nat) returns (r: seq<byte>)
      requires StorageOk() && v in PresentSlots() && amount <= PieceLen(g, v)
      ensures r == Start(CurrentSlots(), v, amount) && |r| == amount
    {
      r := ReadAt(v, 0, amount);
    }

    /** `storage.write(piece_size * v + begin, data)`. */
    method WriteSlot(v: nat, begin: nat, data: seq<byte>)
      requires StorageOk() && v < g.numPieces && begin + |data| <= PieceLen(g, v)
      modifies storage`disk, storage`whandles
      ensures StorageOk()
      ensures CurrentSlots() == old(CurrentSlots())[v := Splice(old(CurrentSlots())[v], begin, data)]
      ensures old(PresentSlots()) <= PresentSlots()
      ensures begin == 0 && |data| == PieceLen(g, v) ==> v in PresentSlots()
    {
      hide *;
      StorageOkIs();
      SlotBounds(g, v);
      SlotWrite(g, storage.Flat(), v, begin, data);
      PresentSlotsAre();
      Commutes(g.pieceSize, v);
      ghost var before := storage.disk;
      MinIs(|data|, storage.totalLength - (g.pieceSize * v + begin));
      MinIs(g.pieceSize * v + begin + |data|, storage.totalLength);
      storage.Write(g.pieceSize * v + begin, data);
      assert data[..|data|] == data;
      PresentGrows(storage.ranges, before, storage.disk);
      StorageOkIs();
      PresentSlotsAre();
    }

    lemma {:induction false} StorageOkIs()
      ensures StorageOk() <==>
        && storage.Valid() && Fits(g) && storage.totalLength == g.total && |hashes| == g.numPieces
        && (g.numPieces > 0 ==> |storage.ranges| > 0)
      ensures CurrentSlots() == Slots(g, storage.Flat())
    {
    }

    lemma {:induction false} PresentSlotsAre()
      requires Fits(g)
      ensures forall pos: nat, stop: nat :: storage.Present(pos, stop) == PresentIn(storage.ranges, storage.disk, pos, stop)
      ensures forall v: nat :: v in PresentSlots() <==>
        v < g.numPieces && PresentIn(storage.ranges, storage.disk, v * g.pieceSize, v * g.pieceSize + PieceLen(g, v))
      ensures forall v: nat :: v < g.numPieces ==> 0 <= v * g.pieceSize && 0 < PieceLen(g, v)
    {
      forall v: nat | v < g.numPieces
        ensures 0 <= v * g.pieceSize && 0 < PieceLen(g, v)
      {
        SlotBounds(g, v);
      }
      hide PresentIn, PieceLen;
    }

    /** `storage.write(piece_size * v, data)`. */
    method WriteStart(v: nat, data: seq<byte>)
      requires StorageOk() && v < g.numPieces && |data| <= PieceLen(g, v)
      modifies storage`disk, storage`whandles
      ensures StorageOk()
      ensures CurrentSlots() == Over(old(CurrentSlots()), v, data)
      ensures old(PresentSlots()) <= PresentSlots()
      ensures |data| == PieceLen(g, v) ==> v in PresentSlots()
    {
      WriteSlot(v, 0, data);
    }

    lemma {:induction false} PlacesParts()
      requires PlacesOk()
      ensures Placed(g, places, holes) && Below(g.numPieces) - SetOf(holes) <= PresentSlots()
      ensures forall v :: v in holes ==> v < g.numPieces && !Pre(v)
    {
    }

    lemma {:induction false} PlacesWhole()
      requires Placed(g, places, holes) && Below(g.numPieces) - SetOf(holes) <= PresentSlots()
      requires forall v :: v in holes ==> v < g.numPieces && !Pre(v)
      ensures PlacesOk()
    {
    }

    lemma {:induction false} RequestsParts()
      requires RequestsOk()
      ensures Balanced(g, Books(), outstanding, received) && Sized(g, Books()) && Fits(g) && |have| == g.numPieces
      ensures |inactiveRequests| == |numactive| == g.numPieces
      ensures forall p :: 0 <= p < g.numPieces ==> (have[p] <==> inactiveRequests[p].Complete?)
    {
    }

    lemma {:induction false} RequestsWhole()
      requires Balanced(g, Books(), outstanding, received) && |have| == |inactiveRequests| == g.numPieces
      requires forall p :: 0 <= p < g.numPieces ==> (have[p] <==> inactiveRequests[p].Complete?)
      ensures RequestsOk()
    {
    }

    lemma {:induction false} BooksAre()
      ensures Books() == Ledger(inactiveRequests, numactive, amountInactive, endgame)
    {
    }

    lemma {:induction false} ValidIs()
      ensures Valid() <==> PiecesOk() && RequestsOk()
    {
    }

    /** First half of `_piece_came_in`: give piece `index` a position. */
    method Place(index: nat)
      requires StorageOk() && PlacesOk() && index < g.numPieces && index !in places
      requires Hashed(g, sha, hashes, have, waschecked, places, CurrentSlots())
      modifies this`places, this`holes, storage`disk, storage`whandles
      ensures StorageOk() && PlacesOk() && old(holes) != [] && holes == old(holes)[1..]
      ensures PlacedOne(g, old(places), old(holes), old(CurrentSlots()), index, places, CurrentSlots())
    {
      hide *;
      PlacesParts();
      ghost var places0, holes0, slots0 := places, holes, CurrentSlots();
      CurrentShaped();
      ReadyFrom(g, places, holes, slots0, index);
      HoleForUnplaced(g, places, holes, index);
      PresentSets(g.numPieces, holes);
      var n := holes[0];
      holes := holes[1..];
      if n in places {
        var oldpos := places[n];
        var content := ReadSlot(oldpos, PieceLen(g, n));
        DisplacedIsChecked(g, sha, hashes, have, waschecked, places, slots0, n);
        // Here the source would report "data corrupted on disk" and give up; that never happens.
        if have[n] && sha.Of(content) != hashes[n] {
          assert false;
        }
        WriteStart(n, content);
        places := places[n := n];
        if index == oldpos || index in holes {
          places := places[index := oldpos];
          StrayGoesHome(g, places0, holes0, slots0, index);
        } else {
          PieceAtIndex(g, places0, holes0, index);
          var p := FindAt(places, index);
          TwoStraysMove(g, places0, holes0, slots0, index, p);
          places := places[index := index];
          places := places[p := oldpos];
          content := ReadSlot(index, g.pieceSize);
          WriteStart(oldpos, content);
        }
      } else if index in holes || index == n {
        if !Pre(n) {
          WriteStart(n, seq(PieceLen(g, n), _ => 0xFF));
        }
        places := places[index := n];
        TakeHole(g, places0, holes0, slots0, index, seq(PieceLen(g, n), _ => 0xFF));
      } else {
        PieceAtIndex(g, places0, holes0, index);
        var p := FindAt(places, index);
        OneStrayMoves(g, places0, holes0, slots0, index, p);
        places := places[index := index];
        places := places[p := n];
        var content := ReadSlot(index, PieceLen(g, n));
        WriteStart(n, content);
      }
      assert PlacedOne(g, places0, holes0, slots0, index, places, CurrentSlots());
      PlacedOneIsPlaced(g, places0, holes0, slots0, index, places, CurrentSlots());
      PlacesWhole();
    }

    /** `_make_inactive`. */
    method MakeInactive(index: nat)
      requires Fits(g) && index < g.numPieces == |inactiveRequests|
      modifies this`inactiveRequests
      ensures inactiveRequests == old(inactiveRequests)[index := Pending(Tile(g, index))]
    {
      hide *;
      RequestSizePositive(g);
      LengthByMin(g, index);
      TileIs(g, index);
      var length := Min(g.pieceSize, g.total - g.pieceSize * index);
      var l, x := [], 0;
      assert l + Cut(length, g.requestSize, x) == Tile(g, index);
      while x + g.requestSize < length
        invariant 0 <= x < length && inactiveRequests == old(inactiveRequests)
        invariant l + Cut(length, g.requestSize, x) == Tile(g, index)
      {
        CutIs(length, g.requestSize, x);
        assert l + Cut(length, g.requestSize, x) == (l + [(x, g.requestSize)]) + Cut(length, g.requestSize, x + g.requestSize);
        l := l + [(x, g.requestSize)];
        x := x + g.requestSize;
      }
      CutIs(length, g.requestSize, x);
      l := l + [(x, length - x)];
      inactiveRequests := inactiveRequests[index := Pending(l)];
    }

    /** The body of `new_request`, on the books alone. */
    method TakeRequest(index: nat) returns (r: Slice)
      requires Sized(g, Books()) && index < g.numPieces && Opened(g, inactiveRequests[index], index) != []
      modifies this`inactiveRequests, this`numactive, this`amountInactive, this`endgame
      ensures (Books(), r) == Requests.NewRequest(g, old(Books()), index)
    {
      hide Least, Tile, Removed, PieceLen;
      ghost var inactive0 := inactiveRequests;
      if inactiveRequests[index] == Untouched {
        MakeInactive(index);
      }
      numactive := numactive[index := numactive[index] + 1];
      var rs := inactiveRequests[index].slices;
      r := Least(rs);
      rs := Removed(rs, r);
      inactiveRequests := inactiveRequests[index := Pending(rs)];
      assert inactiveRequests == inactive0[index := Pending(rs)];
      amountInactive := amountInactive - r.1;
      if amountInactive == 0 {
        endgame := true;
      }
    }

    method NewRequest(index: nat) returns (r: Slice)
      requires Valid() && index < g.numPieces && HasRequests(Books(), index)
      modifies this`inactiveRequests, this`numactive, this`amountInactive, this`endgame, this`outstanding
      ensures Valid()
      ensures Opened(g, old(Books()).inactive[index], index) != []
      ensures (Books(), r) == Requests.NewRequest(g, old(Books()), index)
      ensures outstanding == old(outstanding) + [At(index, r)]
    {
      hide *;
      ValidIs();
      RequestsParts();
      BooksAre();
      ghost var before := Books();
      OpenedNonempty(g, before, index);
      NewRequestBalanced(g, before, outstanding, received, index,
                         outstanding + [At(index, Requests.NewRequest(g, before, index).1)]);
      CompleteKept(g, before, index);
      r := TakeRequest(index);
      outstanding := outstanding + [At(index, r)];
      BooksAre();
      SameCompleteIs(before, Books());
      RequestsWhole();
      ValidIs();
    }

    method RequestLost(index: nat, begin: nat, length: nat)
      requires Valid() && Request(index, begin, length) in outstanding
      modifies this`inactiveRequests, this`numactive, this`amountInactive, this`outstanding
      ensures Valid()
      ensures index < g.numPieces && old(Books()).inactive[index].Pending?
      ensures Books() == Requests.RequestLost(g, old(Books()), index, (begin, length))
      ensures outstanding == Removed(old(outstanding), Request(index, begin, length))
    {
      hide *;
      ValidIs();
      RequestsParts();
      BooksAre();
      ghost var before, r := Books(), Request(index, begin, length);
      OutstandingOnce(g, before, outstanding, received, r);
      RequestLostBalanced(g, before, outstanding, received, r, Removed(outstanding, r));
      CompleteKept(g, before, index);
      inactiveRequests := inactiveRequests[index := Pending(inactiveRequests[index].slices + [(begin, length)])];
      amountInactive := amountInactive + length;
      numactive := numactive[index := numactive[index] - 1];
      outstanding := Removed(outstanding, r);
      BooksAre();
      RequestLostIs(g, before, index, (begin, length));
      SameCompleteIs(before, Books());
      RequestsWhole();
      ValidIs();
    }

    /** `_piece_came_in`. */
    method PieceCameIn(index: nat, begin: nat, piece: seq<byte>) returns (ok: bool)
      requires Valid() && Request(index, begin, |piece|) in outstanding
      modifies this`inactiveRequests, this`numactive, this`amountInactive, this`amountLeft, this`have, this`waschecked,
               this`places, this`holes, this`finishedCalls, this`outstanding, this`received,
               storage`disk, storage`whandles
      ensures Valid()
      ensures index < g.numPieces
      ensures ok <==>
        LastBlock(old(Books()), index) ==> sha.Of(Content(g, places, CurrentSlots(), index)) == hashes[index]
      ensures Books() == Arrived(g, old(Books()), index, ok)
      ensures outstanding == Removed(old(outstanding), Request(index, begin, |piece|))
      ensures received == ReceivedAfter(old(Books()), Request(index, begin, |piece|), old(received))
      ensures have == old(have)[index := LastBlock(old(Books()), index) && ok]
      ensures BlockIn(g, old(places), old(CurrentSlots()), places, CurrentSlots(), index, begin, piece)
    {
      hide *;
      ValidIs();
      RequestsParts();
      PiecesSized();
      BooksAre();
      ghost var r, before := Request(index, begin, |piece|), Books();
      OutstandingOnce(g, before, outstanding, received, r);
      WriteBlock(index, begin, piece);
      PiecesParts();
      ok := CloseBlock(index);
      PiecesWhole();
      ArrivedComplete(g, before, index, ok);
      ArrivedBalanced(g, before, outstanding, received, r, ok, Removed(outstanding, r));
      outstanding, received := Removed(outstanding, r), ReceivedAfter(before, r, received);
      BooksAre();
      SizedParts(g, Books());
      RequestsWhole();
      ValidIs();
    }

    lemma {:induction false} PlaceReadable(index: nat)
      requires StorageOk() && PlacesOk() && index in places
      ensures Fits(g)
      ensures index < g.numPieces && places[index] in PresentSlots()
      ensures 0 < PieceLen(g, index) <= PieceLen(g, places[index])
      ensures Content(g, places, CurrentSlots(), index) == Start(CurrentSlots(), places[index], PieceLen(g, index))
      ensures places[index] < |CurrentSlots()| && |CurrentSlots()[places[index]]| == PieceLen(g, places[index])
    {
      CurrentShaped();
      PlacedAt(g, places, holes, index);
    }

    lemma {:induction false} CurrentShaped()
      requires StorageOk()
      ensures Shaped(g, CurrentSlots())
    {
    }

    lemma {:induction false} PiecesParts()
      requires PiecesOk()
      ensures StorageOk() && PlacesOk() && Hashed(g, sha, hashes, have, waschecked, places, CurrentSlots())
      ensures Tallied(g, checkHashes, have, waschecked, amountLeft, finishedCalls)
    {
    }

    lemma {:induction false} PiecesWhole()
      requires StorageOk() && PlacesOk() && Hashed(g, sha, hashes, have, waschecked, places, CurrentSlots())
      requires Tallied(g, checkHashes, have, waschecked, amountLeft, finishedCalls)
      ensures PiecesOk()
    {
    }

    lemma {:induction false} PiecesSized()
      requires PiecesOk()
      ensures Fits(g) && |have| == |hashes| == g.numPieces
    {
    }

    /** `_piece_came_in` up to the write of the block. */
    method WriteBlock(index: nat, begin: nat, piece: seq<byte>)
      requires PiecesOk() && index < g.numPieces && !have[index] && begin + |piece| <= PieceLen(g, index)
      modifies this`places, this`holes, storage`disk, storage`whandles
      ensures PiecesOk() && index in places
      ensures BlockIn(g, old(places), old(CurrentSlots()), places, CurrentSlots(), index, begin, piece)
    {
      hide Placed, Placement.Partition, Start, Over, Slots, PieceLen, Layout, OnDisk, TopsPresent, FlatOf, PresentIn, Content, Splice, PresentSlots,
           Hashed, Below, Shaped;
      ghost var places0, slots0 := places, CurrentSlots();
      if index !in places {
        Place(index);
      }
      PlacedOrSame(g, places0, old(holes), slots0, index, places, CurrentSlots());
      CurrentShaped();
      OwnWrite(g, places, holes, CurrentSlots(), index, begin, piece);
      ghost var slots1 := CurrentSlots();
      SplicedPart(Content(g, places, slots1, index), begin, piece);
      WriteSlot(places[index], begin, piece);
      HashedKept(g, sha, hashes, have, waschecked, places0, slots0, places, CurrentSlots(), index);
    }

    /** The rest of `_piece_came_in`: one active request fewer, and the verdict on a piece that is complete. */
    method CloseBlock(index: nat) returns (ok: bool)
      requires StorageOk() && PlacesOk() && Hashed(g, sha, hashes, have, waschecked, places, CurrentSlots())
      requires Tallied(g, checkHashes, have, waschecked, amountLeft, finishedCalls)
      requires Sized(g, Books()) && index < g.numPieces == |have| == |hashes| && index in places && !have[index]
      modifies this`inactiveRequests, this`numactive, this`amountInactive, this`amountLeft, this`have, this`waschecked,
               this`finishedCalls
      ensures Hashed(g, sha, hashes, have, waschecked, places, CurrentSlots())
      ensures Tallied(g, checkHashes, have, waschecked, amountLeft, finishedCalls)
      ensures ok <==>
        LastBlock(old(Books()), index) ==> sha.Of(Content(g, places, CurrentSlots(), index)) == hashes[index]
      ensures Books() == Arrived(g, old(Books()), index, ok)
      ensures have == old(have)[index := LastBlock(old(Books()), index) && ok]
    {
      hide *;
      SizedParts(g, Books());
      BooksAre();
      ghost var before := Books();
      numactive := numactive[index := numactive[index] - 1];
      BooksAre();
      LastBlockNow(g, before, Books(), index);
      ok := true;
      if !HasRequests(Books(), index) && numactive[index] == 0 {
        ok := Judge(index);
        BooksAre();
        ArrivedLast(g, before, index, ok);
      } else {
        assert old(have)[index := false] == have;
        ArrivedNotLast(g, before, index);
      }
    }

    /** The verdict on a piece whose blocks are all in. */
    method Judge(index: nat) returns (ok: bool)
      requires StorageOk() && PlacesOk() && Hashed(g, sha, hashes, have, waschecked, places, CurrentSlots())
      requires Tallied(g, checkHashes, have, waschecked, amountLeft, finishedCalls)
      requires index < g.numPieces == |inactiveRequests| == |have| == |hashes| && index in places && !have[index]
      modifies this`inactiveRequests, this`amountInactive, this`amountLeft, this`have, this`waschecked,
               this`finishedCalls
      ensures Hashed(g, sha, hashes, have, waschecked, places, CurrentSlots())
      ensures Tallied(g, checkHashes, have, waschecked, amountLeft, finishedCalls)
      ensures ok <==> sha.Of(Content(g, places, CurrentSlots(), index)) == hashes[index]
      ensures inactiveRequests == old(inactiveRequests)[index := if ok then Complete else Untouched]
      ensures amountInactive == old(amountInactive) + if ok then 0 else PieceLen(g, index)
      ensures have == old(have)[index := ok]
    {
      hide *;
      PlaceReadable(index);
      var content := ReadSlot(places[index], PieceLen(g, index));
      ok := sha.Of(content) == hashes[index];
      if ok {
        GotPiece(index);
        inactiveRequests := inactiveRequests[index := Complete];
      } else {
        assert old(have)[index := false] == have;
        inactiveRequests := inactiveRequests[index := Untouched];
        amountInactive := amountInactive + PieceLen(g, index);
      }
    }

    /** `have[index] = True` and what goes with it, up to the `finished` callback. */
    method GotPiece(index: nat)
      requires Fits(g) && index < g.numPieces == |have| && index in places && !have[index]
      requires Hashed(g, sha, hashes, have, waschecked, places, CurrentSlots())
      requires Tallied(g, checkHashes, have, waschecked, amountLeft, finishedCalls)
      requires index < |hashes| && sha.Of(Content(g, places, CurrentSlots(), index)) == hashes[index]
      modifies this`amountLeft, this`have, this`waschecked, this`finishedCalls
      ensures Hashed(g, sha, hashes, have, waschecked, places, CurrentSlots())
      ensures Tallied(g, checkHashes, have, waschecked, amountLeft, finishedCalls)
      ensures have == old(have)[index := true]
    {
      hide *;
      HashedSizes(g, sha, hashes, have, waschecked, places, CurrentSlots());
      TalliedGot(g, checkHashes, have, waschecked, amountLeft, finishedCalls, index);
      HashedGot(g, sha, hashes, have, waschecked, places, CurrentSlots(), index);
      have := have[index := true];
      waschecked := waschecked[index := true];
      amountLeft := amountLeft - PieceLen(g, index);
      if amountLeft == 0 {
        finishedCalls := finishedCalls + 1;
      }
    }

    /** `_waspre` asks for the whole of a position. */
    lemma {:induction false} PreExactly(v: nat)
      requires StorageOk() && v < g.numPieces
      ensures 0 < PieceLen(g, v) && (Pre(v) <==> storage.WasPreallocated(v * g.pieceSize, PieceLen(g, v)))
    {
      SlotBounds(g, v);
    }

    lemma {:induction false} PreIsPresent(v: nat)
      requires StorageOk() && v < g.numPieces && Pre(v)
      ensures v in PresentSlots() && 0 < PieceLen(g, v)
    {
      SlotBounds(g, v);
      storage.PreallocatedIsPresent(v * g.pieceSize, PieceLen(g, v));
    }

    ghost function PreSeq(): (pre: seq<bool>)
      reads storage`ranges, storage`tops
      ensures |pre| == g.numPieces
    {
      var ranges, tops := storage.ranges, storage.tops;
      seq(g.numPieces, v requires 0 <= v => LongEnough(ranges, tops, v * g.pieceSize, Max(PieceLen(g, v), 0)))
    }

    /** `markgot`. */
    method MarkGot(piece: nat, pos: nat)
      requires piece < |have| == |inactiveRequests| == |waschecked| && !have[piece]
      requires inactiveRequests == ScanInactive(have)
      requires amountLeft == amountInactive == SumLeft(g, have)
      modifies this`places, this`have, this`amountLeft, this`amountInactive, this`inactiveRequests, this`waschecked
      ensures places == old(places)[piece := pos] && have == old(have)[piece := true]
      ensures waschecked == old(waschecked)[piece := checkHashes]
      ensures inactiveRequests == ScanInactive(have) && amountLeft == amountInactive == SumLeft(g, have)
    {
      SumLeftGot(g, have, piece);
      places := places[piece := pos];
      have := have[piece := true];
      amountLeft := amountLeft - PieceLen(g, piece);
      amountInactive := amountInactive - PieceLen(g, piece);
      inactiveRequests := inactiveRequests[piece := Complete];
      waschecked := waschecked[piece := checkHashes];
      assert inactiveRequests == ScanInactive(have);
    }

    ghost function Setup(): Setting
      reads storage
    {
      Setting(g, sha, hashes, checkHashes, PreSeq(), CurrentSlots())
    }

    ghost predicate Scanned(targets: map<Digest, seq<nat>>, i: nat)
      reads this, storage
    {
      && StorageOk()
      && ScanOk(Setup(), Progress(targets, places, holes, have, waschecked), i)
      && inactiveRequests == ScanInactive(have) && amountLeft == amountInactive == SumLeft(g, have)
    }

    /** The first loop of `__init__`: which pieces have no preallocated home. */
    method FindTargets() returns (targets: map<Digest, seq<nat>>)
      requires StorageOk()
      ensures Targets(g, hashes, PreSeq(), map[], targets)
    {
      targets := map[];
      for i := 0 to |hashes|
        invariant TargetsBelow(hashes, PreSeq(), targets, i)
      {
        TargetsAppend(hashes, PreSeq(), targets, i);
        if !Pre(i) {
          targets := targets[hashes[i] := (if hashes[i] in targets then targets[hashes[i]] else []) + [i]];
        }
      }
      TargetsReady(g, hashes, PreSeq(), targets);
    }

    /** The second loop of `__init__`. */
    method ScanPositions(targets0: map<Digest, seq<nat>>) returns (targets: map<Digest, seq<nat>>)
      requires Scanned(targets0, 0)
      modifies this`places, this`holes, this`have, this`amountLeft, this`amountInactive, this`inactiveRequests,
               this`waschecked
      ensures Scanned(targets, g.numPieces)
    {
      hide *;
      targets := targets0;
      ScannedParts(targets, 0);
      for i := 0 to |hashes|
        invariant Scanned(targets, i)
      {
        targets := ScanOne(targets, i);
      }
    }

    /** One turn of the loop: what, if anything, sits at position `i`. */
    method ScanOne(targets0: map<Digest, seq<nat>>, i: nat) returns (targets: map<Digest, seq<nat>>)
      requires Scanned(targets0, i) && i < g.numPieces
      modifies this`places, this`holes, this`have, this`amountLeft, this`amountInactive, this`inactiveRequests,
               this`waschecked
      ensures Scanned(targets, i + 1)
    {
      hide *;
      ScannedParts(targets0, i);
      targets := targets0;
      ghost var x := Progress(targets, places, holes, have, waschecked);
      if !Pre(i) {
        holes := holes + [i];
        ScanHole(Setup(), x, i);
      } else if !checkHashes {
        ScanHome(Setup(), x, i);
        MarkGot(i, i);
      } else {
        targets := ScanHashed(targets, i);
      }
      ScannedWhole(targets, i + 1);
    }

    /** The hash of the bytes of position `i`, and of as many of them as the last piece has. */
    method Digests(i: nat) returns (sp: Digest, s: Digest)
      requires StorageOk() && i < g.numPieces && Pre(i)
      ensures sp == sha.Of(Start(CurrentSlots(), i, PieceLen(g, g.numPieces - 1)))
      ensures s == SlotHash(Setup(), i)
    {
      hide *;
      DigestFacts(i);
      var lastlen := PieceLen(g, |hashes| - 1);
      var first := ReadSlot(i, lastlen);
      sp := sha.Of(first);
      var rest := ReadAt(i, lastlen, PieceLen(g, i) - lastlen);
      s := sha.Of(first + rest);
      WholeSlot(g, CurrentSlots(), i, lastlen);
    }

    lemma {:induction false} DigestFacts(i: nat)
      requires StorageOk() && i < g.numPieces && Pre(i)
      ensures SlotHash(Setup(), i) == sha.Of(Start(CurrentSlots(), i, PieceLen(g, i)))
      ensures |hashes| == g.numPieces && i in PresentSlots() && Shaped(g, CurrentSlots())
      ensures 0 < PieceLen(g, g.numPieces - 1) <= PieceLen(g, i)
    {
      PreIsPresent(i);
      CurrentShaped();
      Lengths(g);
      hide Slots, FlatOf, PresentIn;
    }

    /** The branches of the loop that hash what they find. */
    method ScanHashed(targets0: map<Digest, seq<nat>>, i: nat) returns (targets: map<Digest, seq<nat>>)
      requires StorageOk() && ScanOk(Setup(), Progress(targets0, places, holes, have, waschecked), i)
      requires inactiveRequests == ScanInactive(have) && amountLeft == amountInactive == SumLeft(g, have)
      requires i < g.numPieces && Pre(i) && checkHashes
      modifies this`places, this`have, this`amountLeft, this`amountInactive, this`inactiveRequests, this`waschecked
      ensures StorageOk() && ScanOk(Setup(), Progress(targets, places, holes, have, waschecked), i + 1)
      ensures inactiveRequests == ScanInactive(have) && amountLeft == amountInactive == SumLeft(g, have)
    {
      hide *;
      ghost var u, x := Setup(), Progress(targets0, places, holes, have, waschecked);
      ScanSizes(u, x, i);
      SetupIs();
      var sp, s := Digests(i);
      var piece: int;
      piece, targets := Recognise(g, hashes, targets0, have, Pre(|hashes| - 1), i, sp, s, u, x);
      if piece >= 0 {
        MarkGot(piece, i);
      } else {
        places := places[i := i];
      }
    }

    lemma {:induction false} SetupIs()
      requires StorageOk()
      ensures Setup() == Setting(g, sha, hashes, checkHashes, PreSeq(), CurrentSlots())
      ensures forall k: nat :: k < g.numPieces ==> (Pre(k) <==> PreSeq()[k])
    {
    }

    lemma {:induction false} ScannedParts(targets: map<Digest, seq<nat>>, i: nat)
      requires Scanned(targets, i)
      ensures StorageOk() && ScanOk(Setup(), Progress(targets, places, holes, have, waschecked), i)
      ensures inactiveRequests == ScanInactive(have) && amountLeft == amountInactive == SumLeft(g, have)
      ensures Setup() == Setting(g, sha, hashes, checkHashes, PreSeq(), CurrentSlots())
      ensures |hashes| == |have| == |waschecked| == |PreSeq()| == |inactiveRequests| == g.numPieces
      ensures forall k: nat :: k < g.numPieces ==> (Pre(k) <==> PreSeq()[k])
    {
      ScanSizes(Setup(), Progress(targets, places, holes, have, waschecked), i);
    }

    lemma {:induction false} ScannedWhole(targets: map<Digest, seq<nat>>, i: nat)
      requires StorageOk() && ScanOk(Setup(), Progress(targets, places, holes, have, waschecked), i)
      requires inactiveRequests == ScanInactive(have) && amountLeft == amountInactive == SumLeft(g, have)
      ensures Scanned(targets, i)
    {
    }

    /** The scan, once over, leaves the whole invariant but for the call of `finished`. */
    lemma {:induction false} ScanIsValid(targets: map<Digest, seq<nat>>)
      requires Scanned(targets, g.numPieces) && outstanding == [] && received == {}
      requires |numactive| == g.numPieces && forall p :: 0 <= p < g.numPieces ==> numactive[p] == 0
      ensures StorageOk() && PlacesOk() && Hashed(g, sha, hashes, have, waschecked, places, CurrentSlots())
      ensures RequestsOk() && amountLeft == SumLeft(g, have)
      ensures forall p :: 0 <= p < |waschecked| ==> waschecked[p] == checkHashes
      ensures Recognised(Setup(), Progress(targets, places, holes, have, waschecked), g.numPieces)
      ensures Searched(Setup(), Progress(targets, places, holes, have, waschecked), g.numPieces)
    {
      ScanDone(g, PreSeq(), places, holes);
      ScanBooks(g, have, numactive, endgame);
      forall v: nat | v in Below(g.numPieces) - SetOf(holes)
        ensures v in PresentSlots()
      {
        PreIsPresent(v);
      }
    }

    /** What `__init__` sets up before it looks at the files. */
    ghost predicate Blank()
      reads this
    {
      && |numactive| == g.numPieces && (forall p :: 0 <= p < g.numPieces ==> numactive[p] == 0)
      && have == seq(g.numPieces, _ => false) && waschecked == seq(g.numPieces, _ => checkHashes) && places == map[] && holes == []
      && inactiveRequests == ScanInactive(have) && amountLeft == amountInactive == SumLeft(g, have)
      && finishedCalls == 0 && outstanding == [] && received == {} && !endgame
    }

    lemma {:induction false} ScanStart(targets: map<Digest, seq<nat>>)
      requires StorageOk() && Blank() && Targets(g, hashes, PreSeq(), map[], targets)
      ensures Scanned(targets, 0)
    {
    }

    lemma {:induction false} BlankIs()
      requires Blank()
      ensures |numactive| == g.numPieces && (forall p :: 0 <= p < g.numPieces ==> numactive[p] == 0)
      ensures finishedCalls == 0 && outstanding == [] && received == {} && !endgame
    {
    }

    /** The pieces found where they belong when the files were opened. */
    ghost predicate FoundAtHome()
      reads this`have, this`places, storage
    {
      forall k: nat :: k < g.numPieces && k < |hashes| && k < |have| && Pre(k) && (checkHashes ==> SlotHash(Setup(), k) == hashes[k]) ==>
        have[k] && k in places && places[k] == k
    }

    /** No missing piece sits where nothing was recognised: a piece of the length of a position, for that position as a
        whole, and a last piece for its beginning. */
    ghost predicate NothingMissed()
      reads this`have, this`places, storage
    {
      |have| == g.numPieces && checkHashes ==>
        forall k: nat, p: nat :: k < g.numPieces && p < g.numPieces && GivenUpOn(k) && !Pre(p) && !have[p] ==>
          NoMatch(Setup(), k, p)
    }

    /** Nothing was recognised at position `k`. */
    ghost predicate GivenUpOn(k: nat)
      reads this`have, this`places, storage
    {
      Pre(k) && k in places && places[k] == k && k < |have| && !have[k]
    }

    lemma {:induction false} SearchedIsNothingMissed(targets: map<Digest, seq<nat>>)
      requires StorageOk() && Scanned(targets, g.numPieces)
      ensures NothingMissed()
    {
      SetupIs();
      ScannedParts(targets, g.numPieces);
      var x := Progress(targets, places, holes, have, waschecked);
      hide NoMatch;
      forall k: nat, p: nat | k < g.numPieces && p < g.numPieces && GivenUpOn(k) && !Pre(p) && !have[p] && checkHashes
        ensures NoMatch(Setup(), k, p)
      {
        assert Unknown(Setup(), x, k) && Missing(Setup(), x, p);
      }
    }

    lemma {:induction false} RecognisedIsFound(targets: map<Digest, seq<nat>>)
      requires StorageOk() && Scanned(targets, g.numPieces)
      ensures FoundAtHome()
    {
      SetupIs();
      ScannedParts(targets, g.numPieces);
    }

    lemma {:induction false} ScannedBooks(targets: map<Digest, seq<nat>>, i: nat)
      requires Scanned(targets, i)
      ensures inactiveRequests == ScanInactive(have)
    {
    }

    lemma {:induction false} ScanIsTallied()
      requires checkHashes ==> forall p :: 0 <= p < |waschecked| ==> waschecked[p]
      requires amountLeft == SumLeft(g, have) && finishedCalls == if amountLeft == 0 then 1 else 0
      ensures Tallied(g, checkHashes, have, waschecked, amountLeft, finishedCalls)
    {
    }

    lemma {:induction false} ValidWhole()
      requires PiecesOk() && RequestsOk()
      ensures Valid()
    {
    }

    /** The rest of `__init__`, after its two checks. */
    method Scan()
      requires StorageOk() && Blank()
      modifies this`places, this`holes, this`have, this`amountLeft, this`amountInactive, this`inactiveRequests,
               this`waschecked, this`finishedCalls
      ensures Valid() && FoundAtHome() && NothingMissed()
      ensures forall i :: 0 <= i < |inactiveRequests| ==> !inactiveRequests[i].Pending?
    {
      hide *;
      BlankIs();
      var targets := FindTargets();
      ScanStart(targets);
      targets := ScanPositions(targets);
      ScanIsValid(targets);
      ScannedBooks(targets, g.numPieces);
      NothingPending(have);
      RecognisedIsFound(targets);
      SearchedIsNothingMissed(targets);
      if amountLeft == 0 {
        finishedCalls := finishedCalls + 1;
      }
      ScanIsTallied();
      PiecesWhole();
      ValidWhole();
    }

    lemma {:induction false} BareIsBlank()
      requires Fits(g) && |hashes| == g.numPieces && have == seq(g.numPieces, _ => false)
      requires inactiveRequests == seq(g.numPieces, _ => Untouched)
      ensures inactiveRequests == ScanInactive(have) && SumLeft(g, have) == g.total
    {
      SumLeftInitial(g, g.numPieces);
    }

    /** `_get_piece`: only bytes of a piece that we have, whose hash has been checked by then. */
    method GetPiece(index: nat, begin: nat, length: nat) returns (r: Option<seq<byte>>)
      requires Valid() && index < g.numPieces
      modifies this`waschecked, this`failedCalls
      ensures Valid()
      ensures index < |have| == |hashes|
      ensures r.Some? <==>
        have[index] && begin + length <= PieceLen(g, index) && sha.Of(Content(g, places, CurrentSlots(), index)) == hashes[index]
      ensures r.Some? ==> begin + length <= |Content(g, places, CurrentSlots(), index)|
      ensures r.Some? ==> r.value == Content(g, places, CurrentSlots(), index)[begin..begin + length]
      ensures waschecked == if have[index] && sha.Of(Content(g, places, CurrentSlots(), index)) == hashes[index]
                            then old(waschecked)[index := true] else old(waschecked)
      ensures failedCalls == old(failedCalls) + if have[index] && sha.Of(Content(g, places, CurrentSlots(), index)) != hashes[index] then 1 else 0
    {
      hide *;
      ValidParts(index);
      if !have[index] {
        return None;
      }
      PlaceReadable(index);
      CurrentShaped();
      if !waschecked[index] {
        var content := ReadSlot(places[index], PieceLen(g, index));
        if sha.Of(content) != hashes[index] {
          failedCalls := failedCalls + 1;
          ValidWhole();
          return None;
        }
        CheckedNow(index);
        waschecked := waschecked[index := true];
        PiecesWhole();
        ValidWhole();
      }
      if begin + length > PieceLen(g, index) {
        return None;
      }
      ContentPart(g, places, CurrentSlots(), index, begin, length);
      var bytes := ReadAt(places[index], begin, length);
      return Some(bytes);
    }

    lemma {:induction false} ValidParts(index: nat)
      requires Valid() && index < g.numPieces
      ensures PiecesOk() && RequestsOk() && StorageOk() && PlacesOk()
      ensures Hashed(g, sha, hashes, have, waschecked, places, CurrentSlots())
      ensures Tallied(g, checkHashes, have, waschecked, amountLeft, finishedCalls)
      ensures Fits(g) && |have| == |waschecked| == |hashes| == g.numPieces
      ensures have[index] ==> index in places
      ensures have[index] && waschecked[index] ==> sha.Of(Content(g, places, CurrentSlots(), index)) == hashes[index]
    {
    }

    lemma {:induction false} CheckedNow(index: nat)
      requires Hashed(g, sha, hashes, have, waschecked, places, CurrentSlots()) && index < g.numPieces
      requires Tallied(g, checkHashes, have, waschecked, amountLeft, finishedCalls)
      requires index < |waschecked| && index < |hashes|
      requires sha.Of(Content(g, places, CurrentSlots(), index)) == hashes[index]
      ensures Hashed(g, sha, hashes, have, waschecked[index := true], places, CurrentSlots())
      ensures Tallied(g, checkHashes, have, waschecked[index := true], amountLeft, finishedCalls)
    {
      hide Start, PieceLen;
    }

    /** When `finished` has been called, every piece is at home, and every piece that was hashed (all of them, unless
        pieces were taken on trust) has the bytes its hash promises. */
    lemma {:induction false} FinishedIsComplete()
      requires Valid() && finishedCalls > 0
      ensures |have| == |hashes| == |waschecked| == |CurrentSlots()| == g.numPieces && finishedCalls == 1
      ensures holes == [] && forall k: nat :: k < g.numPieces ==> have[k] && k in places && places[k] == k
      ensures forall k :: 0 <= k < g.numPieces && waschecked[k] ==> sha.Of(CurrentSlots()[k]) == hashes[k]
      ensures checkHashes ==> forall k :: 0 <= k < g.numPieces ==> sha.Of(CurrentSlots()[k]) == hashes[k]
    {
      hide *;
      ValidIs();
      PiecesParts();
      PiecesSized();
      PlacesParts();
      CurrentShaped();
      NothingLeft(g, have);
      TalliedWhole(g, checkHashes, have, waschecked, amountLeft, finishedCalls);
      CompleteIsRight(g, sha, hashes, have, waschecked, places, holes, CurrentSlots());
    }
  }

  lemma {:induction false} TalliedWhole(g: Geometry, checkHashes: bool, have: seq<bool>, waschecked: seq<bool>,
                                        amountLeft: int, finishedCalls: nat)
    requires Tallied(g, checkHashes, have, waschecked, amountLeft, finishedCalls)
    ensures checkHashes ==> forall p :: 0 <= p < |waschecked| ==> waschecked[p]
    ensures amountLeft == SumLeft(g, have) && finishedCalls == if amountLeft == 0 then 1 else 0
  {
  }

  /** With every piece there, each is at home, and where it was checked it has the bytes its hash promises. */
  lemma {:induction false} CompleteIsRight(g: Geometry, sha: Hash, hashes: seq<Digest>, have: seq<bool>,
                                           waschecked: seq<bool>,
                                           places: map<nat, nat>, holes: seq<nat>, slots: seq<seq<byte>>)
    requires Placed(g, places, holes) && Shaped(g, slots) && Hashed(g, sha, hashes, have, waschecked, places, slots)
    requires forall p :: 0 <= p < |have| ==> have[p]
    ensures |have| == |hashes| == |waschecked| == |slots| == g.numPieces && holes == []
    ensures forall k: nat :: k < g.numPieces ==> k in places && places[k] == k
    ensures forall k :: 0 <= k < g.numPieces && waschecked[k] ==> sha.Of(slots[k]) == hashes[k]
  {
    hide Placed;
    AllPlacedIsIdentity(g, places, holes);
    forall k | 0 <= k < g.numPieces && waschecked[k]
      ensures sha.Of(slots[k]) == hashes[k]
    {
      assert Content(g, places, slots, k) == slots[k];
    }
  }

  /** The two ways the length of the torrent can contradict the number of its hashes. */
  datatype Opening = TooSmall | TooBig | Ready(wrapper: StorageWrapper)

  /** `StorageWrapper(storage, request_size, hashes, piece_size, ...)`. */
  method Open(storage: Storage, requestSize: nat, hashes: seq<Digest>, pieceSize: nat, sha: Hash, checkHashes: bool)
    returns (r: Opening)
    requires storage.Valid() && requestSize > 0
    ensures r.TooSmall? <==> storage.totalLength <= pieceSize * (|hashes| - 1)
    ensures r.TooBig? <==> !r.TooSmall? && storage.totalLength > pieceSize * |hashes|
    ensures r.Ready? ==>
      fresh(r.wrapper) && r.wrapper.Valid() && r.wrapper.storage == storage && r.wrapper.FoundAtHome() && r.wrapper.NothingMissed()
    ensures r.Ready? ==> r.wrapper.outstanding == [] && !r.wrapper.endgame
    ensures r.Ready? ==> forall i :: 0 <= i < |r.wrapper.inactiveRequests| ==> !r.wrapper.inactiveRequests[i].Pending?
    ensures r.Ready? ==> r.wrapper.g == Geometry(|hashes|, pieceSize, storage.totalLength, requestSize)
    ensures r.Ready? ==> r.wrapper.hashes == hashes && r.wrapper.sha == sha && r.wrapper.checkHashes == checkHashes
  {
    if storage.totalLength <= pieceSize * (|hashes| - 1) {
      return TooSmall;
    }
    if storage.totalLength > pieceSize * |hashes| {
      return TooBig;
    }
    var w := new StorageWrapper.Bare(storage, Geometry(|hashes|, pieceSize, storage.totalLength, requestSize), hashes,
                                     sha, checkHashes);
    w.BlankIs();
    w.Scan();
    return Ready(w);
  }

  lemma {:induction false} ContentPart(g: Geometry, places: map<nat, nat>, slots: seq<seq<byte>>, index: nat,
                                       begin: nat, length: nat)
    requires index in places && places[index] < |slots|
    requires begin + length <= PieceLen(g, index) <= |slots[places[index]]|
    ensures |Content(g, places, slots, index)| == PieceLen(g, index)
    ensures Content(g, places, slots, index)[begin..begin + length] == slots[places[index]][begin..begin + length]
  {
    SlotSlice(slots[places[index]], 0, PieceLen(g, index), begin, length);
  }

  /** Whether or not piece `index` had to be placed, the other pieces kept their bytes, and those at home stayed. */
  lemma {:induction false} PlacedOrSame(g: Geometry, places: map<nat, nat>, holes: seq<nat>, slots: seq<seq<byte>>,
                                        index: nat,
                                        places': map<nat, nat>, slots': seq<seq<byte>>)
    requires (places' == places && slots' == slots && index in places) || PlacedOne(g, places, holes, slots, index, places', slots')
    ensures places'.Keys == places.Keys + {index}
    ensures forall p :: p in places ==> Content(g, places', slots', p) == Content(g, places, slots, p)
    ensures forall p :: p in places && places[p] == p ==> places'[p] == p
  {
  }

  lemma {:induction false} HashedGot(g: Geometry, sha: Hash, hashes: seq<Digest>, have: seq<bool>,
                                     waschecked: seq<bool>,
                                     places: map<nat, nat>, slots: seq<seq<byte>>, index: nat)
    requires Hashed(g, sha, hashes, have, waschecked, places, slots) && index < g.numPieces && index in places
    requires sha.Of(Content(g, places, slots, index)) == hashes[index]
    ensures |have| == |waschecked| == |hashes| == g.numPieces
    ensures Hashed(g, sha, hashes, have[index := true], waschecked[index := true], places, slots)
  {
  }

  lemma {:induction false} HashedKept(g: Geometry, sha: Hash, hashes: seq<Digest>, have: seq<bool>,
                                      waschecked: seq<bool>,
                                      places: map<nat, nat>, slots: seq<seq<byte>>, places': map<nat, nat>, slots': seq<seq<byte>>, index: nat)
    requires Hashed(g, sha, hashes, have, waschecked, places, slots) && index < g.numPieces && !have[index]
    requires places.Keys <= places'.Keys
    requires forall p :: p in places && p != index ==> Content(g, places', slots', p) == Content(g, places, slots, p)
    requires forall p :: p in places && places[p] == p ==> places'[p] == p
    ensures Hashed(g, sha, hashes, have, waschecked, places', slots')
  {
  }

  /** `for p, v in places.items(): if v == index: break`. */
  method FindAt(places: map<nat, nat>, v: nat) returns (p: nat)
    requires Occupied(places, v)
    ensures p in places && places[p] == v
  {
    var rest := places.Keys;
    assert exists q :: q in rest && places[q] == v;
    p :| p in rest;
    while places[p] != v
      invariant p in rest && rest <= places.Keys
      invariant exists q :: q in rest && places[q] == v
      decreases rest
    {
      ghost var q :| q in rest && places[q] == v;
      rest := rest - {p};
      assert q in rest;
      p :| p in rest;
    }
  }

  /** A piece that sits elsewhere was hashed when it got there, so the check on it cannot fail. */
  lemma {:induction false} DisplacedIsChecked(g: Geometry, sha: Hash, hashes: seq<Digest>, have: seq<bool>,
                                              waschecked: seq<bool>, places: map<nat, nat>, slots: seq<seq<byte>>, n: nat)
    requires Hashed(g, sha, hashes, have, waschecked, places, slots) && n < g.numPieces && n in places && places[n] != n
    ensures |have| == |hashes| == g.numPieces
    ensures have[n] ==> sha.Of(Start(slots, places[n], PieceLen(g, n))) == hashes[n]
  {
  }
}
