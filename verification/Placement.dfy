/** Where the pieces of a partial download sit: `places` and `holes` of
    wubi/src/bittorrent/StorageWrapper.py, and the bytes of the positions, on values. */
module Placement {
  import opened Bytes
  import opened Requests

  /** Position `v` holds some piece. */
  ghost predicate Occupied(places: map<nat, nat>, v: nat)
  {
    exists p :: p in places && places[p] == v
  }

  ghost predicate Ascending(s: seq<nat>)
  {
    forall j, k :: 0 <= j < k < |s| ==> s[j] < s[k]
  }

  ghost function SetOf(holes: seq<nat>): set<nat> { set v | v in holes }

  /** No two pieces share a position, and every position is either occupied or free, never both. */
  ghost predicate Partition(n: nat, places: map<nat, nat>, free: set<nat>)
  {
    && (forall p :: p in places ==> p < n && places[p] < n && places[p] !in free)
    && (forall p, q :: p in places && q in places && places[p] == places[q] ==> p == q)
    && (forall v {:trigger Occupied(places, v)} :: 0 <= v < n && v !in free ==> Occupied(places, v))
    && (forall v :: v in free ==> v < n)
  }

  /** A placed piece is at home, or its home is still a hole. */
  ghost predicate HomeOrHole(places: map<nat, nat>, holes: seq<nat>)
  {
    forall p :: p in places ==> places[p] == p || p in holes
  }

  /** Every piece fits in its position: only a short piece may be in the short last position. */
  ghost predicate Fitting(g: Geometry, places: map<nat, nat>)
  {
    forall p :: p in places ==> PieceLen(g, p) <= PieceLen(g, places[p])
  }

  ghost predicate Placed(g: Geometry, places: map<nat, nat>, holes: seq<nat>)
  {
    && Fits(g) && Partition(g.numPieces, places, SetOf(holes)) && Ascending(holes)
    && HomeOrHole(places, holes) && Fitting(g, places)
  }

  // --- Counting positions ---

  function Below(n: nat): (s: set<nat>)
    ensures |s| == n && forall v: nat :: v in s <==> v < n
  {
    if n == 0 then {} else Below(n - 1) + {n - 1}
  }

  lemma {:induction false} InjectiveSize(places: map<nat, nat>)
    requires forall p, q :: p in places && q in places && places[p] == places[q] ==> p == q
    ensures |places.Values| == |places.Keys|
    decreases |places.Keys|
  {
    if places.Keys != {} {
      var p :| p in places;
      var rest := places - {p};
      assert rest.Keys == places.Keys - {p};
      assert rest.Values == places.Values - {places[p]} by {
        forall v | v in places.Values - {places[p]}
          ensures v in rest.Values
        {
          var q :| q in places && places[q] == v;
          assert q in rest;
        }
      }
      InjectiveSize(rest);
    } else {
      assert places.Values == {};
    }
  }

  lemma {:induction false} AscendingSize(s: seq<nat>)
    requires Ascending(s)
    ensures |SetOf(s)| == |s|
  {
    if s != [] {
      var front, last := s[..|s| - 1], s[|s| - 1];
      AscendingSize(front);
      assert s == front + [last];
      assert SetOf(s) == SetOf(front) + {last};
    }
  }

  lemma {:induction false} AscendingRoom(s: seq<nat>, n: nat)
    requires Ascending(s) && s != [] && SetOf(s) <= Below(n)
    ensures s[0] + |s| <= n
    decreases |s|
  {
    var last := s[|s| - 1];
    assert last in SetOf(s);
    if |s| > 1 {
      var front := s[..|s| - 1];
      forall v | v in SetOf(front)
        ensures v < last
      {
      }
      AscendingRoom(front, last);
    }
  }

  /** Placed pieces and free positions together number the positions. */
  lemma {:induction false} PlacesAndFree(n: nat, places: map<nat, nat>, free: set<nat>)
    requires Partition(n, places, free)
    ensures |places.Keys| + |free| == n
  {
    InjectiveSize(places);
    ValuesAndFree(n, places, free);
  }

  lemma {:induction false} ValuesAndFree(n: nat, places: map<nat, nat>, free: set<nat>)
    requires Partition(n, places, free)
    ensures places.Values + free == Below(n) && places.Values !! free
  {
    forall v | v in Below(n)
      ensures v in places.Values + free
    {
      if v !in free {
        assert Occupied(places, v);
      }
    }
  }

  /** A piece that is not placed leaves a hole, so `holes.pop(0)` never fails. */
  lemma {:induction false} UnplacedMeansHole(n: nat, places: map<nat, nat>, free: set<nat>, index: nat)
    requires Partition(n, places, free) && index < n && index !in places
    ensures free != {}
  {
    PlacesAndFree(n, places, free);
    SubsetSize(places.Keys, Below(n) - {index});
  }

  /** With a single position left, every piece but the unplaced one is placed. */
  lemma {:induction false} OnlyHole(n: nat, places: map<nat, nat>, free: set<nat>, index: nat)
    requires Partition(n, places, free) && index < n && index !in places && |free| == 1
    ensures forall p: nat :: p < n && p != index ==> p in places
  {
    PlacesAndFree(n, places, free);
    assert places.Keys <= Below(n) - {index};
    SubsetSize(places.Keys, Below(n) - {index});
    assert forall p: nat :: p < n && p != index ==> p in Below(n) - {index};
  }

  /** Once every piece is placed there is no hole, and every piece is at home. */
  lemma {:induction false} AllPlacedIsIdentity(g: Geometry, places: map<nat, nat>, holes: seq<nat>)
    requires Placed(g, places, holes) && forall p: nat :: p < g.numPieces ==> p in places
    ensures holes == [] && forall p: nat :: p < g.numPieces ==> places[p] == p
  {
    AscendingSize(holes);
    PlacesAndFree(g.numPieces, places, SetOf(holes));
    assert places.Keys == Below(g.numPieces);
  }

  /** If the smallest hole is the last position then it is the only one, and every piece but `index` is placed. */
  lemma {:induction false} LastHoleIsOnly(g: Geometry, places: map<nat, nat>, holes: seq<nat>, index: nat)
    requires Placed(g, places, holes) && holes != [] && holes[0] == g.numPieces - 1
    requires index < g.numPieces && index !in places
    ensures forall p: nat :: p < g.numPieces && p != index ==> p in places
  {
    AscendingRoom(holes, g.numPieces);
    AscendingSize(holes);
    OnlyHole(g.numPieces, places, SetOf(holes), index);
  }

  // --- Bytes ---

  /** Position `k` of the flat space; the last one may be short. */
  ghost function Slot(g: Geometry, flat: seq<byte>, k: nat): (s: seq<byte>)
    requires Fits(g) && |flat| == g.total && k < g.numPieces
    ensures |s| == PieceLen(g, k)
  {
    SlotBounds(g, k);
    flat[k * g.pieceSize..k * g.pieceSize + PieceLen(g, k)]
  }

  lemma {:induction false} SlotBounds(g: Geometry, k: nat)
    requires Fits(g) && k < g.numPieces
    ensures 0 <= k * g.pieceSize && k * g.pieceSize + PieceLen(g, k) <= g.total
    ensures 0 < PieceLen(g, k) <= g.pieceSize
  {
    PieceLenPositive(g, k);
    if k < g.numPieces - 1 {
      Multiples(g.pieceSize, k, g.numPieces - 1);
    } else {
      assert k * g.pieceSize == g.pieceSize * k;
    }
  }

  lemma {:induction false} Multiples(m: nat, j: nat, k: nat)
    requires j < k
    ensures j * m + m <= k * m && k * m == m * k
  {
    assert k * m == j * m + (k - j) * m;
    assert (k - j) * m == m + (k - j - 1) * m;
    assert (k - j - 1) * m >= 0;
  }

  ghost function Slots(g: Geometry, flat: seq<byte>): (s: seq<seq<byte>>)
    ensures Fits(g) && |flat| == g.total ==> Shaped(g, s)
  {
    if Fits(g) && |flat| == g.total then seq(g.numPieces, k requires 0 <= k < g.numPieces => Slot(g, flat, k)) else []
  }

  ghost predicate Shaped(g: Geometry, slots: seq<seq<byte>>)
  {
    |slots| == g.numPieces && forall k :: 0 <= k < |slots| ==> |slots[k]| == PieceLen(g, k)
  }

  lemma {:induction false} SlotsAt(g: Geometry, flat: seq<byte>)
    requires Fits(g) && |flat| == g.total
    ensures |Slots(g, flat)| == g.numPieces && forall j: nat :: j < g.numPieces ==> Slots(g, flat)[j] == Slot(g, flat, j)
  {
  }

  lemma {:induction false} SlotWriteAt(g: Geometry, flat: seq<byte>, k: nat, begin: nat, data: seq<byte>, j: nat)
    requires Fits(g) && |flat| == g.total && k < g.numPieces && begin + |data| <= PieceLen(g, k) && j < g.numPieces
    ensures k * g.pieceSize + begin + |data| <= g.total
    ensures Slot(g, Splice(flat, k * g.pieceSize + begin, data), j) == if j == k then Splice(Slot(g, flat, k), begin, data) else Slot(g, flat, j)
  {
    SlotBounds(g, k);
    SlotBounds(g, j);
    if j < k {
      Multiples(g.pieceSize, j, k);
    } else if k < j {
      Multiples(g.pieceSize, k, j);
    }
    hide PieceLen;
    SpliceSlice(flat, k * g.pieceSize + begin, data, j * g.pieceSize, PieceLen(g, j));
  }

  /** A slice of a spliced string: disjoint from the splice, or containing it. */
  lemma {:induction false} SpliceSlice(flat: seq<byte>, pos: nat, data: seq<byte>, from: nat, len: nat)
    requires pos + |data| <= |flat| && from + len <= |flat|
    ensures from + len <= pos || pos + |data| <= from ==> Splice(flat, pos, data)[from..from + len] == flat[from..from + len]
    ensures from <= pos && pos + |data| <= from + len ==>
      Splice(flat, pos, data)[from..from + len] == Splice(flat[from..from + len], pos - from, data)
  {
    var spliced := Splice(flat, pos, data);
    assert forall i :: 0 <= i < |flat| && !(pos <= i < pos + |data|) ==> spliced[i] == flat[i];
  }

  /** A write inside one position changes that position alone. */
  lemma {:induction false} SlotWrite(g: Geometry, flat: seq<byte>, k: nat, begin: nat, data: seq<byte>)
    requires Fits(g) && |flat| == g.total && k < g.numPieces && begin + |data| <= PieceLen(g, k)
    ensures k * g.pieceSize + begin + |data| <= g.total
    ensures k < |Slots(g, flat)| && begin + |data| <= |Slots(g, flat)[k]|
    ensures Slots(g, Splice(flat, k * g.pieceSize + begin, data)) == Slots(g, flat)[k := Splice(Slots(g, flat)[k], begin, data)]
  {
    hide *;
    SlotWriteAt(g, flat, k, begin, data, k);
    var flat' := Splice(flat, k * g.pieceSize + begin, data);
    SlotsAt(g, flat);
    SlotsAt(g, flat');
    forall j: nat | j < g.numPieces
      ensures Slots(g, flat')[j] == if j == k then Splice(Slots(g, flat)[k], begin, data) else Slots(g, flat)[j]
    {
      SlotWriteAt(g, flat, k, begin, data, j);
    }
  }

  /** The first `m` bytes of position `v`. */
  ghost function Start(slots: seq<seq<byte>>, v: nat, m: int): (r: seq<byte>)
    ensures v < |slots| && 0 <= m <= |slots[v]| ==> |r| == m
  {
    if v < |slots| && 0 <= m <= |slots[v]| then slots[v][..m] else []
  }

  /** The bytes of a placed piece. */
  ghost function Content(g: Geometry, places: map<nat, nat>, slots: seq<seq<byte>>, p: nat): seq<byte>
  {
    if p in places then Start(slots, places[p], PieceLen(g, p)) else []
  }

  /** Every piece placed before is still placed, with the same bytes. */
  ghost predicate Preserved(g: Geometry, places: map<nat, nat>, slots: seq<seq<byte>>, places': map<nat, nat>,
                            slots': seq<seq<byte>>)
  {
    forall p :: p in places ==> p in places' && Content(g, places', slots', p) == Content(g, places, slots, p)
  }

  /** A piece at home stays there. */
  ghost predicate OnlyStraysMove(places: map<nat, nat>, places': map<nat, nat>)
  {
    forall p :: p in places && places[p] == p ==> p in places' && places'[p] == p
  }

  /** `data` over the start of position `v`. */
  ghost function Over(slots: seq<seq<byte>>, v: nat, data: seq<byte>): (r: seq<seq<byte>>)
    ensures |r| == |slots|
  {
    if v < |slots| && |data| <= |slots[v]| then slots[v := Splice(slots[v], 0, data)] else slots
  }

  // --- The two moves every placement is made of ---

  /** Piece `p` moves to the free position `h`, with at least its own bytes. */
  lemma {:induction false} Move(g: Geometry, places: map<nat, nat>, free: set<nat>, slots: seq<seq<byte>>, p: nat,
                                h: nat, m: nat)
    requires Partition(g.numPieces, places, free) && Shaped(g, slots) && p in places && h in free
    requires 0 <= PieceLen(g, p) <= m <= PieceLen(g, places[p]) && m <= PieceLen(g, h)
    ensures Partition(g.numPieces, places[p := h], free - {h} + {places[p]})
    ensures Shaped(g, Over(slots, h, Start(slots, places[p], m)))
    ensures Preserved(g, places, slots, places[p := h], Over(slots, h, Start(slots, places[p], m)))
  {
    MovePartition(g.numPieces, places, free, p, h);
    hide PieceLen;
    assert |slots[places[p]]| == PieceLen(g, places[p]) && |slots[h]| == PieceLen(g, h);
    var slots' := Over(slots, h, Start(slots, places[p], m));
    forall q | q in places
      ensures Content(g, places[p := h], slots', q) == Content(g, places, slots, q)
    {
    }
  }

  lemma {:induction false} MovePartition(n: nat, places: map<nat, nat>, free: set<nat>, p: nat, h: nat)
    requires Partition(n, places, free) && p in places && h in free
    ensures Partition(n, places[p := h], free - {h} + {places[p]})
  {
    var places' := places[p := h];
    forall v | 0 <= v < n && v !in free - {h} + {places[p]}
      ensures Occupied(places', v)
    {
      if v == h {
        assert places'[p] == v;
      } else {
        assert Occupied(places, v);
        var q :| q in places && places[q] == v;
        assert places'[q] == v;
      }
    }
  }

  /** Piece `index` takes the free position `h`. */
  lemma {:induction false} Put(n: nat, places: map<nat, nat>, free: set<nat>, index: nat, h: nat)
    requires Partition(n, places, free) && index !in places && index < n && h in free
    ensures Partition(n, places[index := h], free - {h})
  {
    var places' := places[index := h];
    forall v | 0 <= v < n && v !in free - {h}
      ensures Occupied(places', v)
    {
      if v == h {
        assert places'[index] == v;
      } else {
        assert Occupied(places, v);
        var q :| q in places && places[q] == v;
        assert places'[q] == v;
      }
    }
  }

  // --- The four relocation cases ---

  /** What placing piece `index`, taking `holes[0]`, must achieve. */
  ghost predicate PlacedOne(g: Geometry, places: map<nat, nat>, holes: seq<nat>, slots: seq<seq<byte>>, index: nat,
                            places': map<nat, nat>, slots': seq<seq<byte>>)
  {
    && holes != []
    && Placed(g, places', holes[1..])
    && Shaped(g, slots')
    && places'.Keys == places.Keys + {index}
    && Preserved(g, places, slots, places', slots')
    && OnlyStraysMove(places, places')
  }

  ghost predicate Ready(g: Geometry, places: map<nat, nat>, holes: seq<nat>, slots: seq<seq<byte>>, index: nat)
  {
    Placed(g, places, holes) && Shaped(g, slots) && index < g.numPieces && index !in places && holes != []
  }

  /** All positions but the last have room for any piece. */
  lemma {:induction false} Lengths(g: Geometry)
    requires Fits(g)
    ensures forall p: nat :: p < g.numPieces ==> 0 < PieceLen(g, p) <= g.pieceSize
    ensures forall p: nat :: p < g.numPieces - 1 ==> PieceLen(g, p) == g.pieceSize
  {
    forall p: nat | p < g.numPieces
      ensures 0 < PieceLen(g, p) <= g.pieceSize
    {
      PieceLenPositive(g, p);
    }
  }

  /** A piece away from home is in a position of full length. */
  lemma {:induction false} StrayPositionIsFull(g: Geometry, places: map<nat, nat>, p: nat)
    requires Fits(g) && Fitting(g, places) && p in places
    requires p < g.numPieces && places[p] < g.numPieces && places[p] != p
    ensures PieceLen(g, places[p]) == g.pieceSize
  {
    Lengths(g);
  }

  lemma {:induction false} RestOfHoles(holes: seq<nat>)
    requires Ascending(holes) && holes != []
    ensures Ascending(holes[1..]) && SetOf(holes[1..]) == SetOf(holes) - {holes[0]}
    ensures holes[0] in SetOf(holes)
  {
    assert holes == [holes[0]] + holes[1..];
  }

  lemma {:induction false} PreservedTwice(g: Geometry, places: map<nat, nat>, slots: seq<seq<byte>>,
                                          places1: map<nat, nat>, slots1: seq<seq<byte>>,
                                          places2: map<nat, nat>, slots2: seq<seq<byte>>)
    requires Preserved(g, places, slots, places1, slots1) && Preserved(g, places1, slots1, places2, slots2)
    ensures Preserved(g, places, slots, places2, slots2)
  {
  }

  lemma {:induction false} PutPreserves(g: Geometry, places: map<nat, nat>, slots: seq<seq<byte>>, index: nat, h: nat)
    requires index !in places
    ensures Preserved(g, places, slots, places[index := h], slots)
  {
  }

  /** Filling a free position touches no piece. */
  lemma {:induction false} FillPreserves(g: Geometry, places: map<nat, nat>, free: set<nat>, slots: seq<seq<byte>>,
                                         h: nat, data: seq<byte>)
    requires Partition(g.numPieces, places, free) && Shaped(g, slots) && h in free
    ensures Preserved(g, places, slots, places, Over(slots, h, data)) && Shaped(g, Over(slots, h, data))
  {
  }

  lemma {:induction false} ReadyFrom(g: Geometry, places: map<nat, nat>, holes: seq<nat>, slots: seq<seq<byte>>,
                                     index: nat)
    requires Placed(g, places, holes) && Shaped(g, slots) && index < g.numPieces && index !in places
    ensures Ready(g, places, holes, slots, index)
  {
    UnplacedMeansHole(g.numPieces, places, SetOf(holes), index);
  }

  lemma {:induction false} ReadyParts(g: Geometry, places: map<nat, nat>, holes: seq<nat>, slots: seq<seq<byte>>,
                                      index: nat)
    requires Ready(g, places, holes, slots, index)
    ensures Placed(g, places, holes) && Fits(g) && Partition(g.numPieces, places, SetOf(holes)) && Ascending(holes)
    ensures Shaped(g, slots) && index < g.numPieces && index !in places && holes != []
  {
  }

  lemma {:induction false} PlacedOneFrom(g: Geometry, places: map<nat, nat>, holes: seq<nat>, slots: seq<seq<byte>>,
                                         index: nat,
                                         places1: map<nat, nat>, slots1: seq<seq<byte>>, free: set<nat>, h: nat)
    requires Ready(g, places, holes, slots, index)
    requires Partition(g.numPieces, places1, free) && h in free && free - {h} == SetOf(holes) - {holes[0]}
    requires Shaped(g, slots1) && Preserved(g, places, slots, places1, slots1) && places1.Keys == places.Keys
    requires HomeOrHole(places1[index := h], holes[1..]) && Fitting(g, places1[index := h])
    requires OnlyStraysMove(places, places1)
    ensures PlacedOne(g, places, holes, slots, index, places1[index := h], slots1)
  {
    hide Shaped, HomeOrHole, Fitting, Partition, Preserved;
    RestOfHoles(holes);
    Put(g.numPieces, places1, free, index, h);
    PutPreserves(g, places1, slots1, index, h);
    PreservedTwice(g, places, slots, places1, slots1, places1[index := h], slots1);
  }

  /** A stray `n` goes home to the hole `n`; `index` takes the position it leaves. */
  lemma {:induction false} StrayGoesHome(g: Geometry, places: map<nat, nat>, holes: seq<nat>, slots: seq<seq<byte>>,
                                         index: nat)
    requires Ready(g, places, holes, slots, index)
    requires holes[0] in places && (index == places[holes[0]] || index in holes[1..])
    ensures var n := holes[0];
      PlacedOne(g, places, holes, slots, index, places[n := n][index := places[n]],
                Over(slots, n, Start(slots, places[n], PieceLen(g, n))))
  {
    hide *;
    ReadyParts(g, places, holes, slots, index);
    HoleForUnplaced(g, places, holes, index);
    RestOfHoles(holes);
    var n, was := holes[0], places[holes[0]];
    StrayFits(g, places, holes, index);
    Move(g, places, SetOf(holes), slots, n, n, PieceLen(g, n));
    StraysAfter(places, n, n);
    assert was in SetOf(holes) - {n} + {was} && SetOf(holes) - {n} + {was} - {was} == SetOf(holes) - {n} by { NotAHole(holes, was); }
    PlacedOneFrom(g, places, holes, slots, index, places[n := n], Over(slots, n, Start(slots, was, PieceLen(g, n))),
                  SetOf(holes) - {n} + {was}, was);
  }

  lemma {:induction false} StrayFits(g: Geometry, places: map<nat, nat>, holes: seq<nat>, index: nat)
    requires Placed(g, places, holes) && index < g.numPieces && index !in places && holes != []
    requires holes[0] in places && (index == places[holes[0]] || index in holes[1..])
    ensures HomeOrHole(places[holes[0] := holes[0]][index := places[holes[0]]], holes[1..])
    ensures Fitting(g, places[holes[0] := holes[0]][index := places[holes[0]]])
  {
    Lengths(g);
    RestOfHoles(holes);
    HoleForUnplaced(g, places, holes, index);
    StrayPositionIsFull(g, places, holes[0]);
    hide PieceLen;
  }

  /** Moving a stray leaves those at home where they are. */
  lemma {:induction false} StraysAfter(places: map<nat, nat>, p: nat, h: nat)
    requires p in places && places[p] != p
    ensures OnlyStraysMove(places, places[p := h]) && places[p := h].Keys == places.Keys
  {
  }

  lemma {:induction false} NotAHole(holes: seq<nat>, v: nat)
    requires v !in holes
    ensures v !in SetOf(holes)
  {
  }

  /** A stray `n` goes home, the stray `p` that sits at `index` takes its position, and `index` goes home. */
  lemma {:induction false} TwoStraysMove(g: Geometry, places: map<nat, nat>, holes: seq<nat>, slots: seq<seq<byte>>,
                                         index: nat, p: nat)
    requires Ready(g, places, holes, slots, index)
    requires holes[0] in places && index != places[holes[0]] && index !in holes[1..]
    requires p in places[holes[0] := holes[0]] && places[holes[0] := holes[0]][p] == index
    ensures var n, slots1 := holes[0], Over(slots, holes[0], Start(slots, places[holes[0]], PieceLen(g, holes[0])));
      && PieceLen(g, index) == PieceLen(g, places[n]) == g.pieceSize
      && PlacedOne(g, places, holes, slots, index, places[n := n][index := index][p := places[n]],
                   Over(slots1, places[n], Start(slots1, index, g.pieceSize)))
  {
    hide *;
    ReadyParts(g, places, holes, slots, index);
    HoleForUnplaced(g, places, holes, index);
    RestOfHoles(holes);
    var n, was := holes[0], places[holes[0]];
    TwoStraysFit(g, places, holes, index, p);
    Move(g, places, SetOf(holes), slots, n, n, PieceLen(g, n));
    var free := SetOf(holes) - {n} + {was};
    var places1, slots1 := places[n := n], Over(slots, n, Start(slots, was, PieceLen(g, n)));
    Move(g, places1, free, slots1, p, was, g.pieceSize);
    var places2, slots2 := places1[p := was], Over(slots1, was, Start(slots1, index, g.pieceSize));
    PreservedTwice(g, places, slots, places1, slots1, places2, slots2);
    StraysTwice(places, n, n, p, was);
    assert places1[index := index][p := was] == places2[index := index];
    assert free - {was} + {index} - {index} == SetOf(holes) - {n} by { NotAHole(holes, was); NotAHole(holes, index); }
    PlacedOneFrom(g, places, holes, slots, index, places2, slots2, free - {was} + {index}, index);
  }

  lemma {:induction false} StraysTwice(places: map<nat, nat>, p: nat, h: nat, q: nat, k: nat)
    requires p in places && places[p] != p && q in places && places[q] != q
    ensures OnlyStraysMove(places, places[p := h][q := k]) && places[p := h][q := k].Keys == places.Keys
  {
  }

  lemma {:induction false} TwoStraysFit(g: Geometry, places: map<nat, nat>, holes: seq<nat>, index: nat, p: nat)
    requires Placed(g, places, holes) && index < g.numPieces && index !in places && holes != []
    requires holes[0] in places && index != places[holes[0]] && index !in holes[1..]
    requires p in places[holes[0] := holes[0]] && places[holes[0] := holes[0]][p] == index
    ensures var n := holes[0];
      && p != n && p != index && p in holes[1..] && p in places && n != places[n] && places[p] != p && index !in holes
      && 0 <= PieceLen(g, p) <= g.pieceSize
      && PieceLen(g, index) == PieceLen(g, places[n]) == g.pieceSize
      && HomeOrHole(places[n := n][p := places[n]][index := index], holes[1..])
      && Fitting(g, places[n := n][p := places[n]][index := index])
  {
    Lengths(g);
    RestOfHoles(holes);
    hide PieceLen;
    StrayPositionIsFull(g, places, holes[0]);
    StrayPositionIsFull(g, places, p);
  }

  /** `index` takes the hole `n`, its own or not, whatever bytes are put there. */
  lemma {:induction false} TakeHole(g: Geometry, places: map<nat, nat>, holes: seq<nat>, slots: seq<seq<byte>>,
                                    index: nat, fill: seq<byte>)
    requires Ready(g, places, holes, slots, index)
    requires holes[0] !in places && index in holes
    ensures PlacedOne(g, places, holes, slots, index, places[index := holes[0]], Over(slots, holes[0], fill))
  {
    hide *;
    ReadyParts(g, places, holes, slots, index);
    RestOfHoles(holes);
    TakeHoleFits(g, places, holes, index);
    FillPreserves(g, places, SetOf(holes), slots, holes[0], fill);
    PlacedOneFrom(g, places, holes, slots, index, places, Over(slots, holes[0], fill), SetOf(holes), holes[0]);
  }

  lemma {:induction false} TakeHoleFits(g: Geometry, places: map<nat, nat>, holes: seq<nat>, index: nat)
    requires Placed(g, places, holes) && index < g.numPieces && index !in places
    requires holes != [] && holes[0] !in places && index in holes
    ensures HomeOrHole(places[index := holes[0]], holes[1..]) && Fitting(g, places[index := holes[0]])
    ensures OnlyStraysMove(places, places)
  {
    Lengths(g);
    RestOfHoles(holes);
    FirstHoleFits(g, places, holes, index);
    hide PieceLen;
    assert holes == [holes[0]] + holes[1..];
  }

  /** A hole that is nobody's home but perhaps `index`'s has room for any piece. */
  lemma {:induction false} FirstHoleFits(g: Geometry, places: map<nat, nat>, holes: seq<nat>, index: nat)
    requires Placed(g, places, holes) && index < g.numPieces && index !in places && holes != [] && holes[0] !in places
    ensures holes[0] in SetOf(holes) && holes[0] < g.numPieces
    ensures holes[0] != index ==> PieceLen(g, holes[0]) == g.pieceSize
  {
    Lengths(g);
    assert holes[0] in SetOf(holes);
    if holes[0] == g.numPieces - 1 && holes[0] != index {
      LastHoleIsOnly(g, places, holes, index);
    }
  }

  /** The stray `p` that sits at `index` moves to the hole `n`, and `index` goes home. */
  lemma {:induction false} OneStrayMoves(g: Geometry, places: map<nat, nat>, holes: seq<nat>, slots: seq<seq<byte>>,
                                         index: nat, p: nat)
    requires Ready(g, places, holes, slots, index)
    requires holes[0] !in places && index !in holes && p in places && places[p] == index
    ensures var n := holes[0];
      && PieceLen(g, index) == PieceLen(g, n) == g.pieceSize
      && PlacedOne(g, places, holes, slots, index, places[index := index][p := n],
                   Over(slots, n, Start(slots, index, PieceLen(g, n))))
  {
    hide *;
    ReadyParts(g, places, holes, slots, index);
    RestOfHoles(holes);
    var n := holes[0];
    OneStrayFits(g, places, holes, index, p);
    Move(g, places, SetOf(holes), slots, p, n, g.pieceSize);
    assert places[index := index][p := n] == places[p := n][index := index];
    StraysAfter(places, p, n);
    assert SetOf(holes) - {n} + {index} - {index} == SetOf(holes) - {n} by { NotAHole(holes, index); }
    PlacedOneFrom(g, places, holes, slots, index, places[p := n], Over(slots, n, Start(slots, index, g.pieceSize)),
                  SetOf(holes) - {n} + {index}, index);
  }

  lemma {:induction false} OneStrayFits(g: Geometry, places: map<nat, nat>, holes: seq<nat>, index: nat, p: nat)
    requires Placed(g, places, holes) && index < g.numPieces && index !in places && holes != []
    requires holes[0] !in places && index !in holes && p in places && places[p] == index
    ensures HomeOrHole(places[p := holes[0]][index := index], holes[1..])
    ensures Fitting(g, places[p := holes[0]][index := index])
    ensures holes[0] in SetOf(holes) && p != index && 0 <= PieceLen(g, p) <= g.pieceSize
    ensures PieceLen(g, index) == PieceLen(g, holes[0]) == g.pieceSize
  {
    Lengths(g);
    RestOfHoles(holes);
    FirstHoleFits(g, places, holes, index);
    StrayPositionIsFull(g, places, p);
    hide PieceLen;
  }

  /** What `holes.pop(0)` relies on. */
  lemma {:induction false} HoleForUnplaced(g: Geometry, places: map<nat, nat>, holes: seq<nat>, index: nat)
    requires Placed(g, places, holes) && index < g.numPieces && index !in places
    ensures holes != [] && holes[0] < g.numPieces && holes[0] !in holes[1..]
    ensures forall v :: v in holes <==> v == holes[0] || v in holes[1..]
    ensures holes[0] in places ==> places[holes[0]] != holes[0] && places[holes[0]] !in holes
    ensures holes[0] in places ==>
      places[holes[0]] < g.numPieces && PieceLen(g, holes[0]) <= PieceLen(g, places[holes[0]])
    ensures 0 < PieceLen(g, holes[0])
  {
    UnplacedMeansHole(g.numPieces, places, SetOf(holes), index);
    hide PieceLen, Occupied, HomeOrHole;
    assert holes != [];
    RestOfHoles(holes);
    assert holes == [holes[0]] + holes[1..];
    assert forall v :: v in holes <==> v in SetOf(holes);
    PieceLenPositive(g, holes[0]);
  }

  lemma {:induction false} PresentSets(n: nat, holes: seq<nat>)
    requires holes != []
    ensures Below(n) - SetOf(holes[1..]) <= Below(n) - SetOf(holes) + {holes[0]}
    ensures forall v: nat :: v < n && v !in holes ==> v in Below(n) - SetOf(holes)
  {
    assert holes == [holes[0]] + holes[1..];
  }

  /** What the searches for the piece at `index` rely on. */
  lemma {:induction false} PieceAtIndex(g: Geometry, places: map<nat, nat>, holes: seq<nat>, index: nat)
    requires Placed(g, places, holes) && index < g.numPieces && index !in places && index !in holes
    ensures Occupied(places, index)
    ensures holes != [] && holes[0] in places && places[holes[0]] != index ==>
      Occupied(places[holes[0] := holes[0]], index)
  {
    assert Occupied(places, index);
    var p :| p in places && places[p] == index;
    assert holes != [] && holes[0] in places && places[holes[0]] != index ==> places[holes[0] := holes[0]][p] == index;
  }

  lemma {:induction false} PlacedOneIsPlaced(g: Geometry, places: map<nat, nat>, holes: seq<nat>, slots: seq<seq<byte>>,
                                             index: nat,
                                             places': map<nat, nat>, slots': seq<seq<byte>>)
    requires PlacedOne(g, places, holes, slots, index, places', slots')
    ensures holes != [] && Placed(g, places', holes[1..])
  {
  }

  /** Writing inside the position of piece `index`, within its own length, changes its bytes alone. */
  lemma {:induction false} OwnWrite(g: Geometry, places: map<nat, nat>, holes: seq<nat>, slots: seq<seq<byte>>,
                                    index: nat, begin: nat, data: seq<byte>)
    requires Placed(g, places, holes) && Shaped(g, slots) && index in places && begin + |data| <= PieceLen(g, index)
    ensures places[index] < |slots| && begin + |data| <= |slots[places[index]]|
    ensures PieceLen(g, index) <= PieceLen(g, places[index])
    ensures |Content(g, places, slots, index)| == PieceLen(g, index)
    ensures var v := places[index];
      var slots' := slots[v := Splice(slots[v], begin, data)];
      && Content(g, places, slots', index) == Splice(Content(g, places, slots, index), begin, data)
      && forall p :: p in places && p != index ==> Content(g, places, slots', p) == Content(g, places, slots, p)
  {
    hide PieceLen;
    assert index < g.numPieces && places[index] < g.numPieces;
    assert |slots[places[index]]| == PieceLen(g, places[index]);
  }

  lemma {:induction false} SplicedPart(s: seq<byte>, pos: nat, data: seq<byte>)
    requires pos + |data| <= |s|
    ensures Splice(s, pos, data)[pos..pos + |data|] == data
  {
  }

  lemma {:induction false} PlacedAt(g: Geometry, places: map<nat, nat>, holes: seq<nat>, index: nat)
    requires Placed(g, places, holes) && index in places
    ensures index < g.numPieces && places[index] < g.numPieces && places[index] in Below(g.numPieces) - SetOf(holes)
    ensures 0 < PieceLen(g, index) <= PieceLen(g, places[index])
  {
    PieceLenPositive(g, index);
  }
}
