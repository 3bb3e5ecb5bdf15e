/** Which bytes of each piece are still to be asked for: the request half of
    wubi/src/bittorrent/StorageWrapper.py, on values, so that both the storage
    wrapper and the downloader can be stated over it. */
module Requests {

  /** (begin, length) within a piece. */
  type Slice = (nat, nat)

  datatype Request = Request(index: nat, begin: nat, length: nat)

  function At(index: nat, s: Slice): Request { Request(index, s.0, s.1) }

  datatype Geometry = Geometry(numPieces: nat, pieceSize: nat, total: nat, requestSize: nat)

  /** What the constructor's two checks leave: the last piece is nonempty and no longer than the others. */
  ghost predicate Fits(g: Geometry)
  {
    && g.requestSize > 0
    && g.pieceSize * (g.numPieces - 1) < g.total <= g.pieceSize * g.numPieces
  }

  function PieceLen(g: Geometry, i: int): int
  {
    if i < g.numPieces - 1 then g.pieceSize else g.total - i * g.pieceSize
  }

  lemma {:induction false} PieceLenPositive(g: Geometry, i: nat)
    requires Fits(g) && i < g.numPieces
    ensures 0 < PieceLen(g, i) <= g.pieceSize
  {
    assert g.pieceSize * g.numPieces == g.pieceSize * (g.numPieces - 1) + g.pieceSize;
    if i == g.numPieces - 1 {
      assert i * g.pieceSize == g.pieceSize * (g.numPieces - 1);
    }
  }

  /** An entry of `inactive_requests`: 1, a list, or None. */
  datatype Unrequested = Untouched | Pending(slices: seq<Slice>) | Complete

  datatype Ledger = Ledger(inactive: seq<Unrequested>, numactive: seq<int>, amountInactive: int, endgame: bool)

  /** Truth of an entry: `do_I_have_requests`. */
  predicate HasRequests(l: Ledger, i: nat)
  {
    i < |l.inactive| &&
    match l.inactive[i]
    case Untouched => true
    case Pending(slices) => slices != []
    case Complete => false
  }

  /** The list that `_make_inactive` builds, from offset `x` on. */
  function Cut(length: nat, requestSize: nat, x: nat): (slices: seq<Slice>)
    requires requestSize > 0 && x <= length
    decreases length - x
  {
    if x + requestSize < length then [(x, requestSize)] + Cut(length, requestSize, x + requestSize)
    else [(x, length - x)]
  }

  /** The slices run from `from` to `to` without gap or overlap, each nonempty and at most `most` long. */
  ghost predicate Covers(slices: seq<Slice>, from: nat, to: nat, most: nat)
    decreases |slices|
  {
    if slices == [] then from == to
    else slices[0].0 == from && 0 < slices[0].1 <= most && Covers(slices[1..], from + slices[0].1, to, most)
  }

  lemma {:induction false} CutCovers(length: nat, requestSize: nat, x: nat)
    requires requestSize > 0 && x < length
    ensures Covers(Cut(length, requestSize, x), x, length, requestSize)
    ensures TotalLength(Cut(length, requestSize, x)) == length - x
    decreases length - x
  {
    if x + requestSize < length {
      CutCovers(length, requestSize, x + requestSize);
      TotalLengthJoin([(x, requestSize)], Cut(length, requestSize, x + requestSize));
    }
  }

  lemma {:induction false} CutIs(length: nat, requestSize: nat, x: nat)
    requires requestSize > 0 && x <= length
    ensures x + requestSize < length ==>
      Cut(length, requestSize, x) == [(x, requestSize)] + Cut(length, requestSize, x + requestSize)
    ensures x + requestSize >= length ==> Cut(length, requestSize, x) == [(x, length - x)]
  {
  }

  /** All slices but the last are of the request size exactly, one after the other, and the last takes the rest. */
  ghost predicate CutAt(s: seq<Slice>, length: nat, requestSize: nat, x: nat)
  {
    && |s| > 0 && (|s| - 1) * requestSize < length - x <= |s| * requestSize
    && forall k :: 0 <= k < |s| ==>
         s[k] == (x + k * requestSize, if k < |s| - 1 then requestSize else length - x - k * requestSize)
  }

  lemma {:induction false} CutExactly(length: nat, requestSize: nat, x: nat)
    requires requestSize > 0 && x < length
    ensures CutAt(Cut(length, requestSize, x), length, requestSize, x)
    decreases length - x
  {
    hide *;
    CutIs(length, requestSize, x);
    if x + requestSize < length {
      CutExactly(length, requestSize, x + requestSize);
      CutMore(Cut(length, requestSize, x + requestSize), length, requestSize, x);
    } else {
      CutOnce(length, requestSize, x);
    }
  }

  lemma {:induction false} CutOnce(length: nat, requestSize: nat, x: nat)
    requires x < length <= x + requestSize
    ensures CutAt([(x, length - x)], length, requestSize, x)
  {
  }

  lemma {:induction false} CutMore(rest: seq<Slice>, length: nat, requestSize: nat, x: nat)
    requires CutAt(rest, length, requestSize, x + requestSize)
    ensures CutAt([(x, requestSize)] + rest, length, requestSize, x)
  {
    var s := [(x, requestSize)] + rest;
    OneMoreTimes(|rest|, requestSize);
    OneMoreTimes(|rest| - 1, requestSize);
    forall k | 0 <= k < |s|
      ensures s[k] == (x + k * requestSize, if k < |s| - 1 then requestSize else length - x - k * requestSize)
    {
      OneMoreTimes(k - 1, requestSize);
      if k > 0 {
        assert s[k] == rest[k - 1];
      }
    }
  }

  lemma {:induction false} OneMoreTimes(k: int, n: int)
    ensures (k + 1) * n == k * n + n
  {
  }

  function TotalLength(slices: seq<Slice>): nat
  {
    if slices == [] then 0 else TotalLength(slices[..|slices| - 1]) + slices[|slices| - 1].1
  }

  lemma {:induction false} TotalLengthJoin(a: seq<Slice>, b: seq<Slice>)
    ensures TotalLength(a + b) == TotalLength(a) + TotalLength(b)
    decreases |b|
  {
    if b == [] {
      assert a + b == a;
    } else {
      TotalLengthJoin(a, b[..|b| - 1]);
      assert (a + b)[..|a + b| - 1] == a + b[..|b| - 1];
    }
  }

  /** Slices that cover a stretch are distinct and lie inside it. */
  lemma {:induction false} CoversInside(slices: seq<Slice>, from: nat, to: nat, most: nat, s: Slice)
    requires Covers(slices, from, to, most)
    ensures from <= to
    ensures multiset(slices)[s] <= 1
    ensures s in slices ==> from <= s.0 && 0 < s.1 && s.0 + s.1 <= to
    decreases |slices|
  {
    if slices != [] {
      CoversInside(slices[1..], from + slices[0].1, to, most, s);
      assert slices == [slices[0]] + slices[1..];
    }
  }

  function Tile(g: Geometry, i: nat): (slices: seq<Slice>)
    requires Fits(g) && i < g.numPieces
  {
    PieceLenPositive(g, i);
    Cut(PieceLen(g, i), g.requestSize, 0)
  }

  lemma {:induction false} TileSlice(g: Geometry, i: nat, s: Slice)
    requires Fits(g) && i < g.numPieces
    ensures multiset(Tile(g, i))[s] <= 1
    ensures s in Tile(g, i) ==> 0 < s.1 && s.0 + s.1 <= PieceLen(g, i)
    ensures TotalLength(Tile(g, i)) == PieceLen(g, i) > 0
  {
    PieceLenPositive(g, i);
    CutCovers(PieceLen(g, i), g.requestSize, 0);
    CoversInside(Tile(g, i), 0, PieceLen(g, i), g.requestSize, s);
  }

  /** The requests of a piece: as many as its length takes, at multiples of the request size, each of that size but for
      the last. */
  lemma {:induction false} TileExactly(g: Geometry, i: nat)
    requires Fits(g) && i < g.numPieces
    ensures var s, length := Tile(g, i), PieceLen(g, i);
      && |s| > 0 && (|s| - 1) * g.requestSize < length <= |s| * g.requestSize
      && forall k :: 0 <= k < |s| ==>
           s[k] == (k * g.requestSize, if k < |s| - 1 then g.requestSize else length - k * g.requestSize)
  {
    PieceLenPositive(g, i);
    CutExactly(PieceLen(g, i), g.requestSize, 0);
    TileIs(g, i);
    hide Cut, Tile, PieceLen;
  }

  lemma {:induction false} TileIs(g: Geometry, i: nat)
    requires Fits(g) && i < g.numPieces
    ensures 0 < PieceLen(g, i) && Tile(g, i) == Cut(PieceLen(g, i), g.requestSize, 0)
  {
    PieceLenPositive(g, i);
  }

  predicate Less(a: Slice, b: Slice) { a.0 < b.0 || (a.0 == b.0 && a.1 < b.1) }

  /** Python's `min` on pairs. */
  function Least(slices: seq<Slice>): (s: Slice)
    requires slices != []
    ensures s in slices && forall t :: t in slices ==> !Less(t, s)
  {
    if |slices| == 1 then slices[0]
    else
      var t := Least(slices[1..]);
      assert slices == [slices[0]] + slices[1..];
      if Less(t, slices[0]) then t else slices[0]
  }

  /** The block that `new_request` hands out is the one that begins first of those left. */
  lemma {:induction false} NewRequestFirst(g: Geometry, l: Ledger, i: nat, t: Slice)
    requires Sized(g, l) && i < g.numPieces && Opened(g, l.inactive[i], i) != [] && t in Opened(g, l.inactive[i], i)
    ensures NewRequest(g, l, i).1 in Opened(g, l.inactive[i], i) && NewRequest(g, l, i).1.0 <= t.0
  {
    hide Tile;
  }

  /** `list.remove`: the first occurrence goes. */
  function Removed<T(==)>(s: seq<T>, x: T): (r: seq<T>)
    requires x in s
    ensures multiset(r) == multiset(s) - multiset{x}
    ensures |r| == |s| - 1
    ensures multiset(s) == multiset(r) + multiset{x}
  {
    assert s == [s[0]] + s[1..];
    if s[0] == x then s[1..] else [s[0]] + Removed(s[1..], x)
  }

  lemma {:induction false} TotalLengthRemoved(slices: seq<Slice>, s: Slice)
    requires s in slices
    ensures TotalLength(Removed(slices, s)) == TotalLength(slices) - s.1
    decreases |slices|
  {
    assert slices == [slices[0]] + slices[1..];
    TotalLengthJoin([slices[0]], slices[1..]);
    if slices[0] != s {
      TotalLengthRemoved(slices[1..], s);
      TotalLengthJoin([slices[0]], Removed(slices[1..], s));
    }
  }

  /** The entry as a list, cut now if it was untouched. */
  function Opened(g: Geometry, u: Unrequested, i: nat): seq<Slice>
    requires Fits(g) && i < g.numPieces
  {
    match u
    case Untouched => Tile(g, i)
    case Pending(slices) => slices
    case Complete => []
  }

  ghost predicate Sized(g: Geometry, l: Ledger)
  {
    Fits(g) && |l.inactive| == g.numPieces && |l.numactive| == g.numPieces
  }

  /** `new_request`. */
  function NewRequest(g: Geometry, l: Ledger, i: nat): (r: (Ledger, Slice))
    requires Sized(g, l) && i < g.numPieces && Opened(g, l.inactive[i], i) != []
  {
    var slices := Opened(g, l.inactive[i], i);
    var s := Least(slices);
    var amount := l.amountInactive - s.1;
    (Ledger(l.inactive[i := Pending(Removed(slices, s))],
            l.numactive[i := l.numactive[i] + 1],
            amount,
            l.endgame || amount == 0), s)
  }

  /** `request_lost`. */
  function RequestLost(g: Geometry, l: Ledger, i: nat, s: Slice): Ledger
    requires Sized(g, l) && i < g.numPieces && l.inactive[i].Pending?
  {
    Ledger(l.inactive[i := Pending(l.inactive[i].slices + [s])],
           l.numactive[i := l.numactive[i] - 1],
           l.amountInactive + s.1,
           l.endgame)
  }

  /** The last outstanding block of the piece is the one arriving now. */
  predicate LastBlock(l: Ledger, i: nat)
  {
    i < |l.numactive| && !HasRequests(l, i) && l.numactive[i] == 1
  }

  /** The accounting of `_piece_came_in`; `good` is what the hash of the piece says, if it is looked at. */
  function Arrived(g: Geometry, l: Ledger, i: nat, good: bool): Ledger
  {
    if i >= |l.inactive| || i >= |l.numactive| then l else
    var numactive := l.numactive[i := l.numactive[i] - 1];
    if !LastBlock(l, i) then l.(numactive := numactive)
    else if good then l.(inactive := l.inactive[i := Complete], numactive := numactive)
    else l.(inactive := l.inactive[i := Untouched], numactive := numactive,
            amountInactive := l.amountInactive + PieceLen(g, i))
  }

  /** Bytes of piece `i` that nobody was asked for. */
  function Unasked(g: Geometry, u: Unrequested, i: nat): int
  {
    match u
    case Untouched => PieceLen(g, i)
    case Pending(slices) => TotalLength(slices)
    case Complete => 0
  }

  function SumUnasked(g: Geometry, inactive: seq<Unrequested>): int
  {
    if inactive == [] then 0
    else SumUnasked(g, inactive[..|inactive| - 1]) + Unasked(g, inactive[|inactive| - 1], |inactive| - 1)
  }

  lemma {:induction false} SumUnaskedUpdate(g: Geometry, inactive: seq<Unrequested>, i: nat, u: Unrequested)
    requires i < |inactive|
    ensures SumUnasked(g, inactive[i := u]) == SumUnasked(g, inactive) - Unasked(g, inactive[i], i) + Unasked(g, u, i)
    decreases |inactive|
  {
    var n := |inactive| - 1;
    if i < n {
      SumUnaskedUpdate(g, inactive[..n], i, u);
      assert inactive[i := u][..n] == inactive[..n][i := u];
    } else {
      assert inactive[i := u][..n] == inactive[..n];
    }
  }

  /** How many of `out` are for piece `i`. */
  function CountFor(out: seq<Request>, i: nat): nat
  {
    if out == [] then 0
    else CountFor(out[..|out| - 1], i) + if out[|out| - 1].index == i then 1 else 0
  }

  lemma {:induction false} CountForJoin(a: seq<Request>, b: seq<Request>, i: nat)
    ensures CountFor(a + b, i) == CountFor(a, i) + CountFor(b, i)
    decreases |b|
  {
    if b == [] {
      assert a + b == a;
    } else {
      CountForJoin(a, b[..|b| - 1], i);
      assert (a + b)[..|a + b| - 1] == a + b[..|b| - 1];
    }
  }

  lemma {:induction false} WithoutAt<T>(s: seq<T>, k: nat)
    requires k < |s|
    ensures multiset(s[..k] + s[k + 1..]) == multiset(s) - multiset{s[k]}
  {
    assert s == s[..k] + [s[k]] + s[k + 1..];
  }

  lemma {:induction false} CountForPermuted(a: seq<Request>, b: seq<Request>, i: nat)
    requires multiset(a) == multiset(b)
    ensures CountFor(a, i) == CountFor(b, i)
    decreases |a|
  {
    if a == [] {
      assert |multiset(b)| == 0;
    } else {
      var n := |a| - 1;
      assert a[n] in multiset(b);
      var k :| 0 <= k < |b| && b[k] == a[n];
      WithoutAt(a, n);
      WithoutAt(b, k);
      assert a[..n] + a[n + 1..] == a[..n];
      CountForPermuted(a[..n], b[..k] + b[k + 1..], i);
      CountForSplit(b, k, i);
    }
  }

  lemma {:induction false} CountForSplit(b: seq<Request>, k: nat, i: nat)
    requires k < |b|
    ensures CountFor(b, i) == CountFor(b[..k] + b[k + 1..], i) + if b[k].index == i then 1 else 0
  {
    assert b == b[..k + 1] + b[k + 1..] && b[..k + 1][..k] == b[..k];
    CountForJoin(b[..k + 1], b[k + 1..], i);
    CountForJoin(b[..k], b[k + 1..], i);
  }

  lemma {:induction false} CountForZero(out: seq<Request>, i: nat)
    requires CountFor(out, i) == 0
    ensures forall r :: r in out ==> r.index != i
    decreases |out|
  {
    if out != [] {
      CountForZero(out[..|out| - 1], i);
      assert out == out[..|out| - 1] + [out[|out| - 1]];
    }
  }

  /** Every slice of a piece that is cut is in exactly one place: still unrequested, outstanding, or received. */
  ghost predicate PieceBalanced(g: Geometry, l: Ledger, i: nat, out: multiset<Request>, received: set<Request>)
    requires Sized(g, l) && i < g.numPieces
  {
    match l.inactive[i]
    case Pending(slices) =>
      forall s: Slice :: multiset(slices)[s] + out[At(i, s)] + (if At(i, s) in received then 1 else 0) == multiset(Tile(g, i))[s]
    case _ =>
      forall s: Slice :: out[At(i, s)] == 0 && At(i, s) !in received
  }

  /** The books agree with `out`, the requests that somebody was asked for and that have not come in, and with
      `received`, the blocks already written in the current attempt at each piece. */
  ghost predicate Balanced(g: Geometry, l: Ledger, out: seq<Request>, received: set<Request>)
  {
    && Sized(g, l)
    && (forall i :: 0 <= i < g.numPieces ==> PieceBalanced(g, l, i, multiset(out), received))
    && (forall i :: 0 <= i < g.numPieces ==> l.numactive[i] == CountFor(out, i))
    && (forall r :: r in out ==> r.index < g.numPieces)
    && l.amountInactive == SumUnasked(g, l.inactive)
  }

  /** An outstanding request is a slice of a piece that is being asked for, and is outstanding once. */
  lemma {:induction false} OutstandingOnce(g: Geometry, l: Ledger, out: seq<Request>, received: set<Request>,
                                           r: Request)
    requires Balanced(g, l, out, received) && r in out
    ensures Sized(g, l) && r.index < g.numPieces && l.inactive[r.index].Pending?
    ensures multiset(out)[r] == 1 && r !in received
    ensures (r.begin, r.length) in Tile(g, r.index)
    ensures 0 < r.length && r.begin + r.length <= PieceLen(g, r.index)
    ensures l.numactive[r.index] > 0
  {
    var s: Slice := (r.begin, r.length);
    assert r == At(r.index, s) && multiset(out)[r] > 0;
    assert PieceBalanced(g, l, r.index, multiset(out), received);
    TileSlice(g, r.index, s);
    if CountFor(out, r.index) == 0 {
      CountForZero(out, r.index);
    }
  }

  /** No bytes left to ask for exactly when no piece has a request to give. */
  lemma {:induction false} NothingUnasked(g: Geometry, l: Ledger, out: seq<Request>, received: set<Request>)
    requires Balanced(g, l, out, received)
    ensures l.amountInactive >= 0
    ensures l.amountInactive == 0 <==> forall i :: 0 <= i < g.numPieces ==> !HasRequests(l, i)
  {
    SumUnaskedZero(g, l, out, received, g.numPieces);
    assert l.inactive[..g.numPieces] == l.inactive;
  }

  lemma {:induction false} UnaskedZero(g: Geometry, l: Ledger, i: nat, out: multiset<Request>, received: set<Request>)
    requires Sized(g, l) && i < g.numPieces && PieceBalanced(g, l, i, out, received)
    ensures Unasked(g, l.inactive[i], i) >= 0
    ensures Unasked(g, l.inactive[i], i) == 0 <==> !HasRequests(l, i)
  {
    hide Tile;
    PieceLenPositive(g, i);
    if l.inactive[i].Pending? && l.inactive[i].slices != [] {
      var slices := l.inactive[i].slices;
      var s := slices[|slices| - 1];
      assert s in slices && multiset(slices)[s] > 0;
      assert s in multiset(Tile(g, i));
      TileSlice(g, i, s);
    }
  }

  lemma {:induction false} SumUnaskedZero(g: Geometry, l: Ledger, out: seq<Request>, received: set<Request>, n: nat)
    requires Balanced(g, l, out, received) && n <= g.numPieces
    ensures SumUnasked(g, l.inactive[..n]) >= 0
    ensures SumUnasked(g, l.inactive[..n]) == 0 <==> forall i :: 0 <= i < n ==> !HasRequests(l, i)
  {
    hide HasRequests, PieceBalanced, Unasked;
    if n > 0 {
      SumUnaskedZero(g, l, out, received, n - 1);
      assert l.inactive[..n][..n - 1] == l.inactive[..n - 1];
      UnaskedZero(g, l, n - 1, multiset(out), received);
    }
  }

  lemma {:induction false} NewRequestBalanced(g: Geometry, l: Ledger, out: seq<Request>, received: set<Request>, i: nat,
                                              out': seq<Request>)
    requires Balanced(g, l, out, received) && i < g.numPieces && HasRequests(l, i)
    ensures Opened(g, l.inactive[i], i) != []
    ensures var (l', s) := NewRequest(g, l, i);
      && multiset(out)[At(i, s)] == 0 && At(i, s) !in received && s in Tile(g, i)
      && (multiset(out') == multiset(out) + multiset{At(i, s)} ==> Balanced(g, l', out', received))
  {
    hide *;
    BalancedParts(g, l, out, received);
    OpenedNonempty(g, l, i);
    var (l', s) := NewRequest(g, l, i);
    NewRequestPiece(g, l, i, multiset(out), multiset(out'), received);
    NewRequestSum(g, l, i);
    if multiset(out') == multiset(out) + multiset{At(i, s)} {
      AtIs(i, s);
      CountsAfterAdding(out, At(i, s), out');
      PiecesElsewhere(g, l, l', i, out, out', received, received);
      BalancedFrom(g, l', out', received);
    }
  }

  lemma {:induction false} AtIs(i: nat, s: Slice)
    ensures At(i, s) == Request(i, s.0, s.1)
  {
  }

  ghost predicate SameComplete(l: Ledger, l': Ledger)
  {
    |l'.inactive| == |l.inactive| && forall p :: 0 <= p < |l.inactive| ==> (l'.inactive[p].Complete? <==> l.inactive[p].Complete?)
  }

  lemma {:induction false} SameCompleteIs(l: Ledger, l': Ledger)
    requires SameComplete(l, l')
    ensures |l'.inactive| == |l.inactive| && forall p :: 0 <= p < |l.inactive| ==> (l'.inactive[p].Complete? <==> l.inactive[p].Complete?)
  {
  }

  /** Handing out or taking back a request completes no piece and uncompletes none. */
  lemma {:induction false} CompleteKept(g: Geometry, l: Ledger, i: nat)
    requires Sized(g, l) && i < g.numPieces
    ensures Opened(g, l.inactive[i], i) != [] ==> SameComplete(l, NewRequest(g, l, i).0)
    ensures l.inactive[i].Pending? ==> forall s :: SameComplete(l, RequestLost(g, l, i, s))
  {
    hide Tile, Least, Removed;
  }

  lemma {:induction false} NewRequestSum(g: Geometry, l: Ledger, i: nat)
    requires Sized(g, l) && i < g.numPieces
    requires Opened(g, l.inactive[i], i) != [] && l.amountInactive == SumUnasked(g, l.inactive)
    ensures var (l', s) := NewRequest(g, l, i);
      && Sized(g, l') && l'.numactive == l.numactive[i := l.numactive[i] + 1]
      && l'.inactive == l.inactive[i := l'.inactive[i]]
      && l'.amountInactive == SumUnasked(g, l'.inactive)
  {
    var (l', s) := NewRequest(g, l, i);
    TotalLengthRemoved(Opened(g, l.inactive[i], i), s);
    TileSlice(g, i, s);
    SumUnaskedUpdate(g, l.inactive, i, l'.inactive[i]);
    hide SumUnasked, TotalLength, PieceLen, Tile, Least, Removed;
  }

  lemma {:induction false} OpenedNonempty(g: Geometry, l: Ledger, i: nat)
    requires Sized(g, l) && i < g.numPieces && HasRequests(l, i)
    ensures Opened(g, l.inactive[i], i) != []
  {
  }

  lemma {:induction false} NewRequestPiece(g: Geometry, l: Ledger, i: nat, out: multiset<Request>,
                                           out': multiset<Request>, received: set<Request>)
    requires Sized(g, l) && i < g.numPieces && HasRequests(l, i) && PieceBalanced(g, l, i, out, received)
    ensures Opened(g, l.inactive[i], i) != []
    ensures var (l', s) := NewRequest(g, l, i);
      && out[At(i, s)] == 0 && At(i, s) !in received && s in Tile(g, i)
      && (out' == out + multiset{At(i, s)} ==> PieceBalanced(g, l', i, out', received))
  {
    var slices := Opened(g, l.inactive[i], i);
    var (l', s) := NewRequest(g, l, i);
    OpenedBalanced(g, l, i, out, received);
    TileSlice(g, i, s);
    assert multiset(slices)[s] > 0;
    assert s in multiset(Tile(g, i));
    assert l'.inactive[i] == Pending(Removed(slices, s));
    hide *;
    if out' == out + multiset{At(i, s)} {
      TakenBalanced(i, slices, s, Removed(slices, s), out, out');
      PendingBalanced(g, l', i, Removed(slices, s), out', received);
    }
  }

  /** Cut or not, an open piece is balanced in the same sense. */
  lemma {:induction false} OpenedBalanced(g: Geometry, l: Ledger, i: nat, out: multiset<Request>,
                                          received: set<Request>)
    requires Sized(g, l) && i < g.numPieces && HasRequests(l, i) && PieceBalanced(g, l, i, out, received)
    ensures Opened(g, l.inactive[i], i) != []
    ensures forall s: Slice ::
      multiset(Opened(g, l.inactive[i], i))[s] + out[At(i, s)] + (if At(i, s) in received then 1 else 0) == multiset(Tile(g, i))[s]
  {
    hide Tile;
    OpenedNonempty(g, l, i);
  }

  lemma {:induction false} PendingBalanced(g: Geometry, l: Ledger, i: nat, slices: seq<Slice>, out: multiset<Request>,
                                           received: set<Request>)
    requires Sized(g, l) && i < g.numPieces && l.inactive[i] == Pending(slices)
    requires forall s: Slice ::
      multiset(slices)[s] + out[At(i, s)] + (if At(i, s) in received then 1 else 0) == multiset(Tile(g, i))[s]
    ensures PieceBalanced(g, l, i, out, received)
  {
  }

  lemma {:induction false} TakenBalanced(i: nat, slices: seq<Slice>, s: Slice, left: seq<Slice>, out: multiset<Request>,
                                         out': multiset<Request>)
    requires multiset(slices) == multiset(left) + multiset{s} && out' == out + multiset{At(i, s)}
    ensures forall t: Slice :: multiset(left)[t] + out'[At(i, t)] == multiset(slices)[t] + out[At(i, t)]
  {
    forall t: Slice
      ensures At(i, t) == At(i, s) <==> t == s
    {
    }
  }

  lemma {:induction false} RequestLostBalanced(g: Geometry, l: Ledger, out: seq<Request>, received: set<Request>,
                                               r: Request, out': seq<Request>)
    requires Balanced(g, l, out, received) && r in out && multiset(out) == multiset(out') + multiset{r}
    ensures r.index < g.numPieces && l.inactive[r.index].Pending?
    ensures Balanced(g, RequestLost(g, l, r.index, (r.begin, r.length)), out', received)
  {
    hide TotalLength, SumUnasked, CountFor, Tile, PieceBalanced;
    OutstandingOnce(g, l, out, received, r);
    var i, s: Slice := r.index, (r.begin, r.length);
    var l' := RequestLost(g, l, i, s);
    assert Unasked(g, l'.inactive[i], i) == Unasked(g, l.inactive[i], i) + s.1 by { TotalLengthSnoc(l.inactive[i].slices, s); }
    SumUnaskedUpdate(g, l.inactive, i, l'.inactive[i]);
    CountsAfterAdding(out', r, out);
    PiecesElsewhere(g, l, l', i, out, out', received, received);
    RequestLostPiece(g, l, multiset(out), multiset(out'), received, r);
  }

  lemma {:induction false} TotalLengthSnoc(slices: seq<Slice>, s: Slice)
    ensures TotalLength(slices + [s]) == TotalLength(slices) + s.1
  {
    assert (slices + [s])[..|slices|] == slices;
  }

  lemma {:induction false} RequestLostPiece(g: Geometry, l: Ledger, out: multiset<Request>, out': multiset<Request>,
                                            received: set<Request>, r: Request)
    requires Sized(g, l) && r.index < g.numPieces && PieceBalanced(g, l, r.index, out, received)
    requires l.inactive[r.index].Pending? && out == out' + multiset{r}
    ensures PieceBalanced(g, RequestLost(g, l, r.index, (r.begin, r.length)), r.index, out', received)
  {
    var slices, s: Slice := l.inactive[r.index].slices, (r.begin, r.length);
    assert multiset(slices + [s]) == multiset(slices) + multiset{s};
    forall t: Slice ensures At(r.index, t) == r <==> t == s {}
  }

  /** The received blocks of the current attempts, once `r` has come in. */
  ghost function ReceivedAfter(l: Ledger, r: Request, received: set<Request>): set<Request>
  {
    if LastBlock(l, r.index) then set q | q in received && q.index != r.index else received + {r}
  }

  lemma {:induction false} ArrivedBalanced(g: Geometry, l: Ledger, out: seq<Request>, received: set<Request>,
                                           r: Request, good: bool,
                                           out': seq<Request>)
    requires Balanced(g, l, out, received) && r in out && multiset(out) == multiset(out') + multiset{r}
    ensures r.index < g.numPieces
    ensures Balanced(g, Arrived(g, l, r.index, good), out', ReceivedAfter(l, r, received))
    ensures LastBlock(l, r.index) ==> forall s :: s in Tile(g, r.index) ==> At(r.index, s) in received + {r}
  {
    hide *;
    OutstandingOnce(g, l, out, received, r);
    BalancedParts(g, l, out, received);
    var i := r.index;
    var l', received' := Arrived(g, l, i, good), ReceivedAfter(l, r, received);
    CountsAfterAdding(out', r, out);
    ArrivedSum(g, l, i, good);
    LastIsAlone(l, i, out', CountFor(out, i));
    ArrivedPiece(g, l, out, out', received, r, good);
    ReceivedElsewhere(l, r, received);
    PiecesElsewhere(g, l, l', i, out, out', received, received');
    BalancedFrom(g, l', out', received');
  }

  /** A piece is judged when a block comes in exactly if all its other blocks have come in. */
  lemma {:induction false} LastBlockExactly(g: Geometry, l: Ledger, out: seq<Request>, received: set<Request>, r: Request)
    requires Balanced(g, l, out, received) && r in out
    ensures Fits(g) && r.index < g.numPieces
    ensures LastBlock(l, r.index) <==> forall s :: s in Tile(g, r.index) ==> At(r.index, s) == r || At(r.index, s) in received
  {
    hide *;
    OutstandingOnce(g, l, out, received, r);
    BalancedParts(g, l, out, received);
    var i := r.index;
    SplitOut(out, r);
    var k :| 0 <= k < |out| && out[k] == r;
    var out' := out[..k] + out[k + 1..];
    WithoutAt(out, k);
    CountForSplit(out, k, i);
    assert multiset(out) == multiset(out') + multiset{r};
    if LastBlock(l, i) {
      ArrivedBalanced(g, l, out, received, r, true, out');
    }
    if forall s :: s in Tile(g, i) ==> At(i, s) == r || At(i, s) in received {
      NothingElse(g, l, i, multiset(out), received, r);
      NoneFor(out', i, multiset(out), r);
      LastBlockIs(l, i);
    }
  }

  lemma {:induction false} SplitOut(out: seq<Request>, r: Request)
    requires r in out
    ensures exists k :: 0 <= k < |out| && out[k] == r
  {
  }

  lemma {:induction false} LastBlockIs(l: Ledger, i: nat)
    ensures LastBlock(l, i) <==> i < |l.numactive| && !HasRequests(l, i) && l.numactive[i] == 1
  {
  }

  /** With all other blocks of the piece received nothing of it is left to give, and nothing else of it is outstanding. */
  lemma {:induction false} NothingElse(g: Geometry, l: Ledger, i: nat, out: multiset<Request>, received: set<Request>,
                                       r: Request)
    requires Sized(g, l) && i < g.numPieces && PieceBalanced(g, l, i, out, received) && l.inactive[i].Pending?
    requires r.index == i && out[r] == 1
    requires forall s :: s in Tile(g, i) ==> At(i, s) == r || At(i, s) in received
    ensures !HasRequests(l, i) && forall q: Request :: q.index == i && q != r ==> out[q] == 0
  {
    var slices := l.inactive[i].slices;
    forall s: Slice
      ensures multiset(slices)[s] == 0
      ensures At(i, s) != r ==> out[At(i, s)] == 0
    {
      TileSlice(g, i, s);
      hide Tile;
      assert s in Tile(g, i) <==> multiset(Tile(g, i))[s] > 0;
    }
    assert forall s :: s in slices ==> multiset(slices)[s] > 0;
    FirstIsIn(slices);
    forall q: Request | q.index == i && q != r
      ensures out[q] == 0
    {
      assert q == At(i, (q.begin, q.length));
    }
  }

  lemma {:induction false} FirstIsIn(slices: seq<Slice>)
    ensures slices == [] || slices[0] in slices
  {
  }

  lemma {:induction false} NoneFor(out': seq<Request>, i: nat, out: multiset<Request>, r: Request)
    requires out == multiset(out') + multiset{r} && out[r] == 1 && r.index == i
    requires forall q: Request :: q.index == i && q != r ==> out[q] == 0
    ensures CountFor(out', i) == 0
    decreases |out'|
  {
    assert out[r] == multiset(out')[r] + 1;
    assert forall q :: q in out' ==> multiset(out')[q] > 0 && out[q] > 0;
    CountForNone(out', i);
  }

  lemma {:induction false} CountForNone(out: seq<Request>, i: nat)
    requires forall q :: q in out ==> q.index != i
    ensures CountFor(out, i) == 0
    decreases |out|
  {
    if out != [] {
      CountForNone(out[..|out| - 1], i);
    }
  }

  lemma {:induction false} ReceivedElsewhere(l: Ledger, r: Request, received: set<Request>)
    ensures forall q: Request :: q.index != r.index ==> (q in ReceivedAfter(l, r, received) <==> q in received)
  {
  }

  lemma {:induction false} LastIsAlone(l: Ledger, i: nat, out': seq<Request>, n: int)
    requires i < |l.numactive| && l.numactive[i] == n == CountFor(out', i) + 1
    ensures LastBlock(l, i) ==> forall q :: q in out' ==> q.index != i
  {
    if CountFor(out', i) == 0 {
      CountForZero(out', i);
    }
  }

  /** What an arrival does to the sums. */
  lemma {:induction false} ArrivedSum(g: Geometry, l: Ledger, i: nat, good: bool)
    requires Sized(g, l) && i < g.numPieces && l.inactive[i].Pending? && l.amountInactive == SumUnasked(g, l.inactive)
    ensures var l' := Arrived(g, l, i, good);
      && Sized(g, l') && l'.numactive == l.numactive[i := l.numactive[i] - 1]
      && l'.inactive == l.inactive[i := l'.inactive[i]]
      && l'.amountInactive == SumUnasked(g, l'.inactive)
  {
    var l' := Arrived(g, l, i, good);
    SumUnaskedUpdate(g, l.inactive, i, l'.inactive[i]);
    assert l.inactive[i := l.inactive[i]] == l.inactive;
    assert TotalLength([]) == 0;
    hide SumUnasked, TotalLength, PieceLen;
  }

  lemma {:induction false} BalancedParts(g: Geometry, l: Ledger, out: seq<Request>, received: set<Request>)
    requires Balanced(g, l, out, received)
    ensures Sized(g, l) && Fits(g) && |l.inactive| == |l.numactive| == g.numPieces
    ensures forall i :: 0 <= i < g.numPieces ==> PieceBalanced(g, l, i, multiset(out), received)
    ensures forall i :: 0 <= i < g.numPieces ==> l.numactive[i] == CountFor(out, i)
    ensures forall r :: r in out ==> r.index < g.numPieces
    ensures l.amountInactive == SumUnasked(g, l.inactive)
  {
  }

  lemma {:induction false} BalancedFrom(g: Geometry, l: Ledger, out: seq<Request>, received: set<Request>)
    requires Sized(g, l) && l.amountInactive == SumUnasked(g, l.inactive)
    requires forall i :: 0 <= i < g.numPieces ==> PieceBalanced(g, l, i, multiset(out), received)
    requires forall i :: 0 <= i < g.numPieces ==> l.numactive[i] == CountFor(out, i)
    requires forall r :: r in out ==> r.index < g.numPieces
    ensures Balanced(g, l, out, received)
  {
  }

  lemma {:induction false} SizedParts(g: Geometry, l: Ledger)
    requires Sized(g, l)
    ensures Fits(g) && |l.inactive| == |l.numactive| == g.numPieces
  {
  }

  lemma {:induction false} RequestLostIs(g: Geometry, l: Ledger, i: nat, s: Slice)
    requires Sized(g, l) && i < g.numPieces && l.inactive[i].Pending?
    ensures RequestLost(g, l, i, s) == Ledger(l.inactive[i := Pending(l.inactive[i].slices + [s])], l.numactive[i := l.numactive[i] - 1],
                                              l.amountInactive + s.1, l.endgame)
  {
  }

  lemma {:induction false} LastBlockNow(g: Geometry, l: Ledger, l': Ledger, i: nat)
    requires Sized(g, l) && i < g.numPieces && l' == l.(numactive := l.numactive[i := l.numactive[i] - 1])
    ensures |l'.inactive| == |l'.numactive| == g.numPieces
    ensures LastBlock(l, i) <==> !HasRequests(l', i) && l'.numactive[i] == 0
  {
  }

  lemma {:induction false} ArrivedLast(g: Geometry, l: Ledger, i: nat, good: bool)
    requires Sized(g, l) && i < g.numPieces && LastBlock(l, i)
    ensures Arrived(g, l, i, good) == Ledger(l.inactive[i := if good then Complete else Untouched], l.numactive[i := l.numactive[i] - 1],
                                             l.amountInactive + if good then 0 else PieceLen(g, i), l.endgame)
  {
  }

  lemma {:induction false} ArrivedNotLast(g: Geometry, l: Ledger, i: nat)
    requires Sized(g, l) && i < g.numPieces && !LastBlock(l, i)
    ensures Arrived(g, l, i, true) == Ledger(l.inactive, l.numactive[i := l.numactive[i] - 1], l.amountInactive,
                                             l.endgame)
  {
  }

  /** A piece is complete exactly when it was, or its last block just came in and it hashed well. */
  lemma {:induction false} ArrivedComplete(g: Geometry, l: Ledger, i: nat, good: bool)
    requires Sized(g, l) && i < g.numPieces && l.inactive[i].Pending?
    ensures Sized(g, Arrived(g, l, i, good))
    ensures forall p :: 0 <= p < g.numPieces ==>
      (Arrived(g, l, i, good).inactive[p].Complete? <==> if p == i then LastBlock(l, i) && good else l.inactive[p].Complete?)
  {
  }

  lemma {:induction false} ArrivedPiece(g: Geometry, l: Ledger, out: seq<Request>, out': seq<Request>,
                                        received: set<Request>, r: Request, good: bool)
    requires Sized(g, l) && r.index < g.numPieces && PieceBalanced(g, l, r.index, multiset(out), received)
    requires l.inactive[r.index].Pending? && multiset(out) == multiset(out') + multiset{r}
    requires LastBlock(l, r.index) ==> forall q :: q in out' ==> q.index != r.index
    ensures PieceBalanced(g, Arrived(g, l, r.index, good), r.index, multiset(out'), ReceivedAfter(l, r, received))
    ensures LastBlock(l, r.index) ==> forall s :: s in Tile(g, r.index) ==> At(r.index, s) in received + {r}
  {
    hide Tile;
    var i := r.index;
    assert r == At(i, (r.begin, r.length));
    forall t: Slice
      ensures multiset(out)[At(i, t)] == multiset(out')[At(i, t)] + if At(i, t) == r then 1 else 0
    {
    }
    if LastBlock(l, i) {
      forall s: Slice
        ensures multiset(out')[At(i, s)] == 0
        ensures s in Tile(g, i) ==> At(i, s) in received + {r}
      {
        assert At(i, s) !in out';
        assert s in Tile(g, i) ==> multiset(Tile(g, i))[s] > 0;
      }
    } else {
      TileSlice(g, i, (r.begin, r.length));
    }
  }

  lemma {:induction false} CountsAfterAdding(out: seq<Request>, r: Request, out': seq<Request>)
    requires multiset(out') == multiset(out) + multiset{r}
    ensures forall i: nat :: CountFor(out', i) == CountFor(out, i) + if r.index == i then 1 else 0
    ensures forall q :: q in out' <==> q == r || q in out
  {
    forall i: nat
      ensures CountFor(out', i) == CountFor(out, i) + if r.index == i then 1 else 0
    {
      CountForPermuted(out', out + [r], i);
      assert (out + [r])[..|out|] == out;
    }
    assert forall q :: q in out' <==> q in multiset(out');
  }

  /** Changing piece `i` alone leaves the balance of the other pieces. */
  lemma {:induction false} PiecesElsewhere(g: Geometry, l: Ledger, l': Ledger, i: nat, out: seq<Request>,
                                           out': seq<Request>,
                                           received: set<Request>, received': set<Request>)
    requires Balanced(g, l, out, received) && Sized(g, l') && i < g.numPieces
    requires l'.inactive == l.inactive[i := l'.inactive[i]]
    requires forall r: Request :: r.index != i ==>
      multiset(out')[r] == multiset(out)[r] && (r in received' <==> r in received)
    ensures forall j :: 0 <= j < g.numPieces && j != i ==> PieceBalanced(g, l', j, multiset(out'), received')
  {
    forall j | 0 <= j < g.numPieces && j != i
      ensures PieceBalanced(g, l', j, multiset(out'), received')
    {
      assert PieceBalanced(g, l, j, multiset(out), received);
    }
  }
}
