/** What the scan of the existing file in `StorageWrapper.__init__` keeps
    (wubi/src/bittorrent/StorageWrapper.py:42-84), on values: which piece each position is found to hold, which
    positions are free, and which hashes are still wanted by pieces that were not found at home. */
module Scan {
  import opened Bytes
  import opened Requests
  import opened Placement

  type Digest = seq<byte>

  /** SHA-1, of which nothing is used but that it is a function. */
  datatype Hash = Hash(digest: seq<byte> -> Digest) {
    function Of(s: seq<byte>): Digest { digest(s) }
  }

  /** A piece we have is placed, and its bytes hash as they should if they were ever checked;
      a piece taken on trust has never moved. */
  ghost predicate Hashed(g: Geometry, sha: Hash, hashes: seq<Digest>, have: seq<bool>, waschecked: seq<bool>,
                         places: map<nat, nat>, slots: seq<seq<byte>>)
  {
    && |have| == |waschecked| == |hashes| == g.numPieces
    && forall p :: 0 <= p < g.numPieces && have[p] ==>
         p in places && if waschecked[p] then sha.Of(Content(g, places, slots, p)) == hashes[p] else places[p] == p
  }

  /** After positions below `i`: those preallocated hold one piece each, the others are holes, and a piece that is
      not at home has a home that will be a hole. */
  ghost predicate ScanPlaces(g: Geometry, pre: seq<bool>, places: map<nat, nat>, holes: seq<nat>, i: nat)
  {
    && Fits(g) && |pre| == g.numPieces && i <= g.numPieces
    && (forall p :: p in places ==> p < g.numPieces && places[p] < i && pre[places[p]] && (places[p] == p || !pre[p]))
    && (forall p, q :: p in places && q in places && places[p] == places[q] ==> p == q)
    && (forall v {:trigger Occupied(places, v)} :: 0 <= v < i && pre[v] ==> Occupied(places, v))
    && Ascending(holes) && (forall v: nat :: v in holes <==> v < i && !pre[v])
    && Fitting(g, places)
  }

  lemma {:induction false} ScanAddHole(g: Geometry, pre: seq<bool>, places: map<nat, nat>, holes: seq<nat>, i: nat)
    requires ScanPlaces(g, pre, places, holes, i) && i < g.numPieces && !pre[i]
    ensures ScanPlaces(g, pre, places, holes + [i], i + 1)
  {
    assert forall k :: 0 <= k < |holes| ==> holes[k] in holes;
  }

  lemma {:induction false} ScanAddPiece(g: Geometry, pre: seq<bool>, places: map<nat, nat>, holes: seq<nat>, i: nat,
                                        p: nat)
    requires ScanPlaces(g, pre, places, holes, i) && i < g.numPieces && pre[i]
    requires p < g.numPieces && (p == i || (!pre[p] && p !in places)) && PieceLen(g, p) <= PieceLen(g, i)
    ensures p !in places
    ensures ScanPlaces(g, pre, places[p := i], holes, i + 1)
  {
    hide PieceLen, Ascending;
    var places' := places[p := i];
    forall v | 0 <= v < i + 1 && pre[v]
      ensures Occupied(places', v)
    {
      if v == i {
        assert places'[p] == v;
      } else {
        assert Occupied(places, v);
        var q :| q in places && places[q] == v;
        assert places'[q] == v;
      }
    }
  }

  /** The scan leaves the placement invariant. */
  lemma {:induction false} ScanDone(g: Geometry, pre: seq<bool>, places: map<nat, nat>, holes: seq<nat>)
    requires ScanPlaces(g, pre, places, holes, g.numPieces)
    ensures Placed(g, places, holes)
    ensures forall v :: v in Below(g.numPieces) - SetOf(holes) ==> pre[v]
  {
    hide PieceLen;
    forall v | 0 <= v < g.numPieces && v !in SetOf(holes)
      ensures Occupied(places, v)
    {
      assert pre[v];
    }
  }

  /** `targets`: for each hash the pieces without preallocated home that it would complete, each listed once. A listed
      piece is unplaced, unless it is a short last piece that was recognised by its own length. */
  ghost predicate Targets(g: Geometry, hashes: seq<Digest>, pre: seq<bool>, places: map<nat, nat>,
                          targets: map<Digest, seq<nat>>)
  {
    && |hashes| == |pre| == g.numPieces
    && (forall h, k :: h in targets && 0 <= k < |targets[h]| ==> ListedFor(g, hashes, pre, places, h, targets[h][k]))
    && (forall h, k, m :: h in targets && 0 <= k < m < |targets[h]| ==> targets[h][k] != targets[h][m])
    && (forall j {:trigger Listed(hashes, targets, j)} :: 0 <= j < g.numPieces && !pre[j] && j !in places ==>
          Listed(hashes, targets, j))
  }

  ghost predicate ListedFor(g: Geometry, hashes: seq<Digest>, pre: seq<bool>, places: map<nat, nat>, h: Digest, j: nat)
  {
    && j < |hashes| == |pre| && !pre[j] && hashes[j] == h
    && (j in places ==> j == g.numPieces - 1 && PieceLen(g, j) < g.pieceSize)
  }

  ghost predicate Listed(hashes: seq<Digest>, targets: map<Digest, seq<nat>>, j: nat)
  {
    j < |hashes| && hashes[j] in targets && j in targets[hashes[j]]
  }

  /** Placing a piece at its own preallocated home leaves the lists right. */
  lemma {:induction false} TargetsHome(g: Geometry, hashes: seq<Digest>, pre: seq<bool>, places: map<nat, nat>,
                                       targets: map<Digest, seq<nat>>, i: nat)
    requires Targets(g, hashes, pre, places, targets) && i < g.numPieces && pre[i]
    ensures Targets(g, hashes, pre, places[i := i], targets)
  {
  }

  /** The piece popped for position `i` is unplaced, and the lists stay right. */
  lemma {:induction false} TargetsPop(g: Geometry, hashes: seq<Digest>, pre: seq<bool>, places: map<nat, nat>,
                                      targets: map<Digest, seq<nat>>,
                                      h: Digest, i: nat)
    requires Fits(g) && Targets(g, hashes, pre, places, targets) && h in targets
    requires targets[h] != [] && i < g.numPieces && pre[i]
    requires PieceLen(g, i) == PieceLen(g, targets[h][|targets[h]| - 1])
    ensures var j := targets[h][|targets[h]| - 1];
      && j < g.numPieces && !pre[j] && hashes[j] == h && j !in places
      && Targets(g, hashes, pre, places[j := i], targets[h := targets[h][..|targets[h]| - 1]])
  {
    var list := targets[h];
    var j := list[|list| - 1];
    var targets' := targets[h := list[..|list| - 1]];
    assert ListedFor(g, hashes, pre, places, h, j);
    Lengths(g);
    hide PieceLen;
    forall q | 0 <= q < g.numPieces && !pre[q] && q !in places[j := i]
      ensures Listed(hashes, targets', q)
    {
      assert Listed(hashes, targets, q);
      if hashes[q] == h {
        assert list == list[..|list| - 1] + [j];
      }
    }
  }

  /** If the last piece was not the one popped for a position that starts with its bytes, it is a short one. */
  lemma {:induction false} TargetsLast(g: Geometry, hashes: seq<Digest>, pre: seq<bool>, places: map<nat, nat>,
                                       targets: map<Digest, seq<nat>>, i: nat)
    requires Fits(g) && Targets(g, hashes, pre, places, targets) && i < g.numPieces
    requires g.numPieces - 1 !in places && !pre[g.numPieces - 1]
    requires var h := hashes[g.numPieces - 1];
      PieceLen(g, g.numPieces - 1) == g.pieceSize ==>
        !(h in targets && targets[h] != [] && PieceLen(g, i) == PieceLen(g, targets[h][|targets[h]| - 1]))
    ensures Targets(g, hashes, pre, places[g.numPieces - 1 := i], targets)
  {
    var last := g.numPieces - 1;
    assert Listed(hashes, targets, last);
    Lengths(g);
    hide PieceLen;
    var list := targets[hashes[last]];
    assert ListedFor(g, hashes, pre, places, hashes[last], list[|list| - 1]);
  }

  /** `targets.setdefault(hashes[i], []).append(i)`. */
  function Appended(targets: map<Digest, seq<nat>>, h: Digest, i: nat): map<Digest, seq<nat>>
  {
    targets[h := (if h in targets then targets[h] else []) + [i]]
  }

  /** The lists after pieces below `i`. */
  ghost predicate TargetsBelow(hashes: seq<Digest>, pre: seq<bool>, targets: map<Digest, seq<nat>>, i: nat)
  {
    && i <= |hashes| == |pre|
    && (forall h, k :: h in targets && 0 <= k < |targets[h]| ==>
          targets[h][k] < i && !pre[targets[h][k]] && hashes[targets[h][k]] == h)
    && (forall h, k, m :: h in targets && 0 <= k < m < |targets[h]| ==> targets[h][k] != targets[h][m])
    && (forall j {:trigger Listed(hashes, targets, j)} :: 0 <= j < i && !pre[j] ==> Listed(hashes, targets, j))
  }

  lemma {:induction false} AppendedEntries(hashes: seq<Digest>, pre: seq<bool>, targets: map<Digest, seq<nat>>, i: nat)
    requires TargetsBelow(hashes, pre, targets, i) && i < |hashes| && !pre[i]
    ensures var targets' := Appended(targets, hashes[i], i);
      && (forall h, k :: h in targets' && 0 <= k < |targets'[h]| ==>
            targets'[h][k] < i + 1 && !pre[targets'[h][k]] && hashes[targets'[h][k]] == h)
      && (forall h, k, m :: h in targets' && 0 <= k < m < |targets'[h]| ==> targets'[h][k] != targets'[h][m])
  {
    hide Listed;
  }

  lemma {:induction false} TargetsAppend(hashes: seq<Digest>, pre: seq<bool>, targets: map<Digest, seq<nat>>, i: nat)
    requires TargetsBelow(hashes, pre, targets, i) && i < |hashes|
    ensures TargetsBelow(hashes, pre, if pre[i] then targets else Appended(targets, hashes[i], i), i + 1)
  {
    if !pre[i] {
      var targets' := Appended(targets, hashes[i], i);
      AppendedEntries(hashes, pre, targets, i);
      forall j | 0 <= j < i + 1 && !pre[j]
        ensures Listed(hashes, targets', j)
      {
        if j == i {
          assert targets'[hashes[i]][|targets'[hashes[i]]| - 1] == i;
        } else {
          assert Listed(hashes, targets, j);
        }
      }
      hide Listed, Appended;
    }
  }

  lemma {:induction false} TargetsReady(g: Geometry, hashes: seq<Digest>, pre: seq<bool>,
                                        targets: map<Digest, seq<nat>>)
    requires |hashes| == g.numPieces && TargetsBelow(hashes, pre, targets, g.numPieces)
    ensures Targets(g, hashes, pre, map[], targets)
  {
    hide PieceLen;
  }

  lemma {:induction false} NothingPending(have: seq<bool>)
    ensures forall i :: 0 <= i < |ScanInactive(have)| ==> !ScanInactive(have)[i].Pending?
  {
  }

  /** The books of a scan: a piece is complete or untouched. */
  function ScanInactive(have: seq<bool>): (u: seq<Unrequested>)
    ensures |u| == |have|
  {
    seq(|have|, p requires 0 <= p < |have| => if have[p] then Complete else Untouched)
  }

  lemma {:induction false} HashedSizes(g: Geometry, sha: Hash, hashes: seq<Digest>, have: seq<bool>,
                                       waschecked: seq<bool>,
                                       places: map<nat, nat>, slots: seq<seq<byte>>)
    requires Hashed(g, sha, hashes, have, waschecked, places, slots)
    ensures |have| == |waschecked| == |hashes| == g.numPieces
  {
  }

  /** What the scan works from: the torrent, which positions are preallocated, and the bytes found there. */
  datatype Setting = Setting(g: Geometry, sha: Hash, hashes: seq<Digest>, check: bool, pre: seq<bool>,
                             slots: seq<seq<byte>>)

  datatype Progress = Progress(targets: map<Digest, seq<nat>>, places: map<nat, nat>, holes: seq<nat>, have: seq<bool>,
                               waschecked: seq<bool>)

  /** The whole of position `i` hashes to `s`. */
  ghost function SlotHash(u: Setting, i: nat): Digest
  {
    u.sha.Of(Start(u.slots, i, PieceLen(u.g, i)))
  }

  /** Everything the scan of the positions below `i` keeps. */
  ghost predicate ScanOk(u: Setting, x: Progress, i: nat)
  {
    && Shaped(u.g, u.slots)
    && ScanPlaces(u.g, u.pre, x.places, x.holes, i)
    && Targets(u.g, u.hashes, u.pre, x.places, x.targets)
    && Hashed(u.g, u.sha, u.hashes, x.have, x.waschecked, x.places, u.slots)
    && (forall p :: p in x.places && x.places[p] != p ==> x.have[p])
    && (forall p :: 0 <= p < u.g.numPieces ==> x.waschecked[p] == u.check)
    && Recognised(u, x, i)
    && Searched(u, x, i)
  }

  /** Position `k` was hashed and nothing was recognised there. */
  ghost predicate Unknown(u: Setting, x: Progress, k: nat)
  {
    u.check && k < |u.pre| && u.pre[k] && k in x.places && x.places[k] == k && k < |x.have| && !x.have[k]
  }

  /** Piece `p`, whose home was not preallocated, was not found. */
  ghost predicate Missing(u: Setting, x: Progress, p: nat)
  {
    p < |u.pre| && !u.pre[p] && p < |x.have| && !x.have[p]
  }

  /** What sits at position `k` is not piece `p`. Should the hash of a whole piece be that of a shorter last piece, the
      search goes by the latter. */
  ghost predicate NoMatch(u: Setting, k: nat, p: nat)
  {
    var last := u.g.numPieces - 1;
    && p < |u.hashes| == u.g.numPieces
    && (PieceLen(u.g, p) == PieceLen(u.g, k) && (PieceLen(u.g, last) == PieceLen(u.g, p) || u.hashes[p] != u.hashes[last]) ==>
          SlotHash(u, k) != u.hashes[p])
    && (p == last ==> u.sha.Of(Start(u.slots, k, PieceLen(u.g, last))) != u.hashes[last])
  }

  /** No piece that is missing sits at a position where nothing was recognised. */
  ghost predicate Searched(u: Setting, x: Progress, i: nat)
  {
    forall k: nat, p: nat :: k < i && Unknown(u, x, k) && Missing(u, x, p) ==> NoMatch(u, k, p)
  }

  /** What is recognised stays so, and what is still missing is not at a position just given up. */
  lemma {:induction false} SearchedStep(u: Setting, x: Progress, x': Progress, i: nat)
    requires Searched(u, x, i) && |x'.have| == |x.have|
    requires forall j :: 0 <= j < |x.have| && x.have[j] ==> x'.have[j]
    requires forall k: nat :: k < i && Unknown(u, x', k) ==> k in x.places && x.places[k] == k
    requires forall p: nat :: Unknown(u, x', i) && Missing(u, x', p) ==> NoMatch(u, i, p)
    ensures Searched(u, x', i + 1)
  {
    hide NoMatch;
    forall k: nat, p: nat | k < i + 1 && Unknown(u, x', k) && Missing(u, x', p)
      ensures NoMatch(u, k, p)
    {
      assert Missing(u, x, p);
      if k < i {
        assert Unknown(u, x, k);
      }
    }
  }

  lemma {:induction false} SearchedHole(u: Setting, x: Progress, i: nat)
    requires Searched(u, x, i) && i < |u.pre| && !u.pre[i]
    ensures Searched(u, x.(holes := x.holes + [i]), i + 1)
  {
    hide NoMatch, Searched;
    SearchedStep(u, x, x.(holes := x.holes + [i]), i);
  }

  lemma {:induction false} SearchedGot(u: Setting, x: Progress, i: nat, p: nat, x': Progress)
    requires Searched(u, x, i) && ScanPlaces(u.g, u.pre, x.places, x.holes, i) && p < |x.have|
    requires x'.places == x.places[p := i] && x'.have == x.have[p := true]
    ensures Searched(u, x', i + 1)
  {
    hide NoMatch, Searched;
    SearchedStep(u, x, x', i);
  }

  lemma {:induction false} SearchedUnknown(u: Setting, x: Progress, i: nat)
    requires Searched(u, x, i) && Given(u, x, i)
    requires Fits(u.g) && ScanPlaces(u.g, u.pre, x.places, x.holes, i) && i < u.g.numPieces && u.pre[i]
    requires Targets(u.g, u.hashes, u.pre, x.places, x.targets)
    requires forall p :: p in x.places && x.places[p] != p ==> p < |x.have| && x.have[p]
    ensures Searched(u, x.(places := x.places[i := i]), i + 1)
  {
    var x' := x.(places := x.places[i := i]);
    forall p: nat | Missing(u, x', p)
      ensures NoMatch(u, i, p)
    {
      NotHere(u, x, i, p);
    }
    hide NoMatch, Searched, Given;
    SearchedStep(u, x, x', i);
  }

  /** Neither the lists nor the last piece give a piece for position `i`. */
  ghost predicate Given(u: Setting, x: Progress, i: nat)
  {
    var s, last := SlotHash(u, i), u.g.numPieces - 1;
    && |u.hashes| == |u.pre| == |x.have| == u.g.numPieces > 0
    && !(s in x.targets && x.targets[s] != [] && PieceLen(u.g, i) == PieceLen(u.g, x.targets[s][|x.targets[s]| - 1]))
    && !(!x.have[last] && u.sha.Of(Start(u.slots, i, PieceLen(u.g, last))) == u.hashes[last] && (i == last || !u.pre[last]))
  }

  lemma {:induction false} NotHere(u: Setting, x: Progress, i: nat, p: nat)
    requires Given(u, x, i) && Missing(u, x, p) && Fits(u.g) && i < u.g.numPieces && u.pre[i]
    requires ScanPlaces(u.g, u.pre, x.places, x.holes, i) && Targets(u.g, u.hashes, u.pre, x.places, x.targets)
    requires forall p :: p in x.places && x.places[p] != p ==> p < |x.have| && x.have[p]
    ensures NoMatch(u, i, p)
  {
    Lengths(u.g);
    var s, last := SlotHash(u, i), u.g.numPieces - 1;
    assert p !in x.places;
    assert Listed(u.hashes, x.targets, p);
    if SlotHash(u, i) == u.hashes[p] {
      var list := x.targets[s];
      assert ListedFor(u.g, u.hashes, u.pre, x.places, s, list[|list| - 1]);
    }
    hide SlotHash, Start, Listed;
  }

  /** Every preallocated piece found in its place is one we have; without hashing, every preallocated piece is. */
  ghost predicate Recognised(u: Setting, x: Progress, i: nat)
  {
    forall k: nat :: k < i && k < |x.have| && k < |u.hashes| && k < |u.pre| && u.pre[k] && (u.check ==> SlotHash(u, k) == u.hashes[k]) ==>
      x.have[k] && k in x.places && x.places[k] == k
  }

  lemma {:induction false} ScanSizes(u: Setting, x: Progress, i: nat)
    requires ScanOk(u, x, i)
    ensures |u.hashes| == |x.have| == |x.waschecked| == |u.pre| == u.g.numPieces
  {
    hide ScanPlaces, Hashed, Recognised, Searched, Shaped;
    HashedSizes(u.g, u.sha, u.hashes, x.have, x.waschecked, x.places, u.slots);
  }

  lemma {:induction false} WholeSlot(g: Geometry, slots: seq<seq<byte>>, i: nat, m: int)
    requires Shaped(g, slots) && i < g.numPieces && 0 <= m <= PieceLen(g, i)
    ensures i < |slots| && m <= |slots[i]| == PieceLen(g, i)
    ensures Start(slots, i, m) + slots[i][m..m + (PieceLen(g, i) - m)] == Start(slots, i, PieceLen(g, i))
  {
  }

  lemma {:induction false} ScanHole(u: Setting, x: Progress, i: nat)
    requires ScanOk(u, x, i) && i < |u.pre| && !u.pre[i]
    ensures ScanOk(u, x.(holes := x.holes + [i]), i + 1)
  {
    hide ScanPlaces, Targets, Hashed, SlotHash, Searched;
    SearchedHole(u, x, i);
    ScanPre(u.g, u.pre, x.places, x.holes, i);
    ScanAddHole(u.g, u.pre, x.places, x.holes, i);
  }

  lemma {:induction false} HashedPlacing(u: Setting, x: Progress, i: nat, p: nat)
    requires Hashed(u.g, u.sha, u.hashes, x.have, x.waschecked, x.places, u.slots)
    requires p < u.g.numPieces && p !in x.places
    requires if u.check then u.sha.Of(Start(u.slots, i, PieceLen(u.g, p))) == u.hashes[p] else p == i
    ensures |x.have| == |x.waschecked| == u.g.numPieces && !x.have[p]
    ensures Hashed(u.g, u.sha, u.hashes, x.have[p := true], x.waschecked[p := u.check], x.places[p := i], u.slots)
  {
    hide PieceLen, Start;
  }

  /** Piece `p` is recognised at position `i`. */
  lemma {:induction false} ScanGot(u: Setting, x: Progress, i: nat, p: nat, targets: map<Digest, seq<nat>>)
    requires ScanOk(u, x, i)
    requires i < u.g.numPieces && u.pre[i] && p < u.g.numPieces && (p == i || (!u.pre[p] && p !in x.places))
    requires PieceLen(u.g, p) <= PieceLen(u.g, i)
    requires if u.check then u.sha.Of(Start(u.slots, i, PieceLen(u.g, p))) == u.hashes[p] else p == i
    requires p != i ==> SlotHash(u, i) != u.hashes[i] && u.check
    requires Targets(u.g, u.hashes, u.pre, x.places[p := i], targets)
    ensures |x.have| == |x.waschecked| == u.g.numPieces && !x.have[p]
    ensures ScanOk(u, x.(places := x.places[p := i], have := x.have[p := true], waschecked := x.waschecked[p := u.check]).(targets := targets), i + 1)
  {
    hide ScanPlaces, Targets, Start, PieceLen, Hashed, Fitting, Shaped, Recognised, Searched, SlotHash;
    ScanPre(u.g, u.pre, x.places, x.holes, i);
    HashedSizes(u.g, u.sha, u.hashes, x.have, x.waschecked, x.places, u.slots);
    ScanAddPiece(u.g, u.pre, x.places, x.holes, i, p);
    HashedPlacing(u, x, i, p);
    var x' := x.(places := x.places[p := i], have := x.have[p := true], waschecked := x.waschecked[p := u.check]);
    RecognisedGot(u, x, i, p, x'.(targets := targets));
    SearchedGot(u, x, i, p, x'.(targets := targets));
  }

  lemma {:induction false} ScanPre(g: Geometry, pre: seq<bool>, places: map<nat, nat>, holes: seq<nat>, i: nat)
    requires ScanPlaces(g, pre, places, holes, i)
    ensures |pre| == g.numPieces && Fits(g) && forall p :: p in places ==> p < g.numPieces
  {
  }

  lemma {:induction false} RecognisedGot(u: Setting, x: Progress, i: nat, p: nat, x': Progress)
    requires Recognised(u, x, i) && i < |u.pre| && p < |u.pre|
    requires u.pre[i] && (p == i || !u.pre[p]) && i < |u.hashes| && p < |x.have|
    requires x'.places == x.places[p := i] && x'.have == x.have[p := true]
    requires p != i ==> SlotHash(u, i) != u.hashes[i] && u.check
    ensures Recognised(u, x', i + 1)
  {
    hide SlotHash;
  }

  lemma {:induction false} ScanHome(u: Setting, x: Progress, i: nat)
    requires ScanOk(u, x, i) && i < |u.pre| && u.pre[i] && i < |u.hashes|
    requires u.check ==> SlotHash(u, i) == u.hashes[i]
    ensures |x.have| == |x.waschecked| == |u.pre| && !x.have[i]
    ensures ScanOk(u, x.(places := x.places[i := i], have := x.have[i := true],
                         waschecked := x.waschecked[i := u.check]), i + 1)
  {
    hide PieceLen, Start;
    TargetsHome(u.g, u.hashes, u.pre, x.places, x.targets, i);
    ScanGot(u, x, i, i, x.targets);
  }

  lemma {:induction false} ScanPop(u: Setting, x: Progress, i: nat, s: Digest)
    requires ScanOk(u, x, i) && i < |u.pre| && u.pre[i] && i < |u.hashes| && u.check
    requires s == SlotHash(u, i) && s != u.hashes[i]
    requires s in x.targets && x.targets[s] != [] && PieceLen(u.g, i) == PieceLen(u.g, x.targets[s][|x.targets[s]| - 1])
    ensures var list := x.targets[s];
      var j := list[|list| - 1];
      && j < |x.have| == |x.waschecked| && !x.have[j]
      && ScanOk(u, x.(places := x.places[j := i], have := x.have[j := true], waschecked := x.waschecked[j := u.check])
                      .(targets := x.targets[s := list[..|list| - 1]]), i + 1)
  {
    hide PieceLen, Start;
    TargetsPop(u.g, u.hashes, u.pre, x.places, x.targets, s, i);
    ScanGot(u, x, i, x.targets[s][|x.targets[s]| - 1], x.targets[s := x.targets[s][..|x.targets[s]| - 1]]);
  }

  /** The third branch: only ever taken for a short last piece that sits at another position. */
  lemma {:induction false} ScanLast(u: Setting, x: Progress, i: nat, s: Digest)
    requires ScanOk(u, x, i) && i < |u.pre| && u.pre[i] && i < |u.hashes| && u.check
    requires s == SlotHash(u, i) && s != u.hashes[i]
    requires !(s in x.targets && x.targets[s] != [] && PieceLen(u.g, i) == PieceLen(u.g, x.targets[s][|x.targets[s]| - 1]))
    requires var last := u.g.numPieces - 1;
      && |x.have| == |u.pre| == |u.hashes| == u.g.numPieces && !x.have[last]
      && u.sha.Of(Start(u.slots, i, PieceLen(u.g, last))) == u.hashes[last] && (i == last || !u.pre[last])
    ensures var last := u.g.numPieces - 1;
      i != last && |x.waschecked| == |x.have| &&
      ScanOk(u, x.(places := x.places[last := i], have := x.have[last := true],
                   waschecked := x.waschecked[last := u.check]), i + 1)
  {
    var last: nat := u.g.numPieces - 1;
    Lengths(u.g);
    hide PieceLen, Start;
    assert i != last;
    assert last !in x.places;
    assert PieceLen(u.g, last) == u.g.pieceSize ==> PieceLen(u.g, i) == PieceLen(u.g, last) && s == u.hashes[last];
    TargetsLast(u.g, u.hashes, u.pre, x.places, x.targets, i);
    ScanGot(u, x, i, last, x.targets);
  }

  lemma {:induction false} HashedUnknown(u: Setting, x: Progress, i: nat)
    requires Hashed(u.g, u.sha, u.hashes, x.have, x.waschecked, x.places, u.slots) && i !in x.places
    ensures Hashed(u.g, u.sha, u.hashes, x.have, x.waschecked, x.places[i := i], u.slots)
  {
    hide PieceLen, Start;
  }

  lemma {:induction false} ScanUnknown(u: Setting, x: Progress, i: nat)
    requires ScanOk(u, x, i) && i < |u.pre| && u.pre[i] && i < |u.hashes| && u.check && SlotHash(u, i) != u.hashes[i]
    requires Given(u, x, i)
    ensures ScanOk(u, x.(places := x.places[i := i]), i + 1)
  {
    hide ScanPlaces, Targets, PieceLen, SlotHash, Shaped, Hashed, Searched, Given;
    ScanPre(u.g, u.pre, x.places, x.holes, i);
    ScanSizes(u, x, i);
    SearchedUnknown(u, x, i);
    ScanAddPiece(u.g, u.pre, x.places, x.holes, i, i);
    TargetsHome(u.g, u.hashes, u.pre, x.places, x.targets, i);
    HashedUnknown(u, x, i);
  }

  lemma {:induction false} GivenUp(u: Setting, x: Progress, i: nat)
    requires |u.hashes| == |u.pre| == |x.have| == u.g.numPieces && i < u.g.numPieces
    requires var s, last := SlotHash(u, i), u.g.numPieces - 1;
      && !(s in x.targets && x.targets[s] != [] && PieceLen(u.g, i) == PieceLen(u.g, x.targets[s][|x.targets[s]| - 1]))
      && !(!x.have[last] && u.sha.Of(Start(u.slots, i, PieceLen(u.g, last))) == u.hashes[last] && (i == last || !u.pre[last]))
    ensures Given(u, x, i)
  {
  }

  /** The branches of the loop on a hashed position: which piece, if any (-1), sits there. `s` is the hash of all of
      position `i`, `sp` that of as many of its bytes as the last piece has. */
  method Recognise(g: Geometry, hashes: seq<Digest>, targets0: map<Digest, seq<nat>>, have: seq<bool>, lastPre: bool,
                   i: nat, sp: Digest, s: Digest,
                   ghost u: Setting, ghost x: Progress)
    returns (piece: int, targets: map<Digest, seq<nat>>)
    requires ScanOk(u, x, i) && i < g.numPieces && i < |u.pre| && u.pre[i] && u.check
    requires u.g == g && u.hashes == hashes && x.targets == targets0 && x.have == have && lastPre == u.pre[|u.pre| - 1]
    requires s == SlotHash(u, i) && sp == u.sha.Of(Start(u.slots, i, PieceLen(g, g.numPieces - 1)))
    ensures -1 <= piece < g.numPieces == |have| == |x.waschecked| && (piece >= 0 ==> !have[piece])
    ensures piece >= 0 ==>
      ScanOk(u, x.(targets := targets, places := x.places[piece := i], have := have[piece := true],
                   waschecked := x.waschecked[piece := true]), i + 1)
    ensures piece < 0 ==> ScanOk(u, x.(targets := targets, places := x.places[i := i]), i + 1)
  {
    hide *;
    ScanSizes(u, x, i);
    targets := targets0;
    var last := |hashes| - 1;
    if s == hashes[i] {
      ScanHome(u, x, i);
      piece := i;
    } else if s in targets && targets[s] != [] && PieceLen(g, i) == PieceLen(g, targets[s][|targets[s]| - 1]) {
      var list := targets[s];
      ScanPop(u, x, i, s);
      targets := targets[s := list[..|list| - 1]];
      piece := list[|list| - 1];
    } else if !have[last] && sp == hashes[last] && (i == last || !lastPre) {
      ScanLast(u, x, i, s);
      piece := last;
    } else {
      GivenUp(u, x, i);
      ScanUnknown(u, x, i);
      piece := -1;
    }
  }
}
