/** What the events of wubi/src/bittorrent/Downloader.py keep of the state of all peers, on values. Each lemma is about
    one event, or one part of an event: giving blocks back and waking those who can take them, a choke, an announced
    piece, a bitfield, a block that came in, a bad piece, and the start. */
module SwarmEvents {
  import opened Wrappers
  import opened Bytes
  import opened Requests
  import opened Picker
  import opened Swarm

  // --- Counting the pieces of a peer that comes or goes ---

  lemma {:induction false} HaveCountBound(downloads: seq<Peer>, i: nat)
    ensures HaveCount(downloads, i) <= |downloads|
    decreases |downloads|
  {
    if downloads != [] {
      HaveCountBound(downloads[..|downloads| - 1], i);
    }
  }

  /** The counts of `downloads`, with the pieces of `p` from `lo` up to `hi` counted once more. */
  ghost predicate CountsPlus(books: Ledger, downloads: seq<Peer>, p: Peer, lo: nat, hi: nat, num: Counts)
  {
    && |num| == |books.inactive|
    && forall j :: 0 <= j < |num| ==>
         num[j] == if books.inactive[j].Complete? then None else Some(HaveCount(downloads, j) + if lo <= j < hi && Has(p, j) then 1 else 0)
  }

  lemma {:induction false} PlusNone(books: Ledger, downloads: seq<Peer>, p: Peer, i: nat, num: Counts)
    ensures CountsPlus(books, downloads, p, i, i, num) <==> CountsAgree(books, downloads, num)
  {
  }

  lemma {:induction false} PlusAll(books: Ledger, downloads: seq<Peer>, k: nat, p: Peer, n: nat, num: Counts)
    requires k < |downloads| && |books.inactive| == n && |p.have| == n && forall j: nat :: !Has(downloads[k], j)
    requires CountsPlus(books, downloads, p, 0, n, num)
    ensures CountsAgree(books, downloads[k := p], num)
  {
    hide Has, HaveCount;
    forall j | 0 <= j < |num|
      ensures num[j] == if books.inactive[j].Complete? then None else Some(HaveCount(downloads[k := p], j))
    {
      HaveCountUpdate(downloads, k, p, j);
    }
  }

  lemma {:induction false} PlusWhole(books: Ledger, downloads: seq<Peer>, k: nat, num: Counts)
    requires k < |downloads| && CountsAgree(books, downloads, num)
    ensures CountsPlus(books, downloads[..k] + downloads[k + 1..], downloads[k], 0, |num|, num)
  {
    hide Has, HaveCount;
    forall j | 0 <= j < |num|
      ensures HaveCount(downloads, j) == HaveCount(downloads[..k] + downloads[k + 1..], j) + if Has(downloads[k], j) then 1 else 0
    {
      HaveCountWithout(downloads, k, j);
    }
  }

  /** Counting piece `i` of a peer that joins. */
  lemma {:induction false} PlusUp(books: Ledger, downloads: seq<Peer>, p: Peer, i: nat, num: Counts)
    requires CountsPlus(books, downloads, p, 0, i, num) && i < |num|
    ensures CountsPlus(books, downloads, p, 0, i + 1, if Has(p, i) then CountUp(num, i) else num)
    ensures Has(p, i) && CountUp(num, i)[i].Some? ==> CountUp(num, i)[i].value == HaveCount(downloads, i) + 1
  {
    hide Has, HaveCount;
  }

  /** Uncounting piece `i` of a peer that leaves. */
  lemma {:induction false} PlusDown(books: Ledger, downloads: seq<Peer>, p: Peer, i: nat, n: nat, num: Counts)
    requires CountsPlus(books, downloads, p, i, n, num) && i < n == |num|
    ensures Has(p, i) ==> num[i] != Some(0)
    ensures CountsPlus(books, downloads, p, i + 1, n, if Has(p, i) then CountDown(num, i) else num)
  {
    hide Has, HaveCount;
  }

  lemma {:induction false} HasIs(p: Peer, i: nat)
    ensures Has(p, i) <==> i < |p.have| && p.have[i]
  {
  }

  lemma {:induction false} CountUpSize(num: Counts, i: nat)
    ensures |CountUp(num, i)| == |num|
  {
  }

  lemma {:induction false} CountDownSize(num: Counts, i: nat)
    ensures |CountDown(num, i)| == |num|
  {
  }

  // --- The parts of the state when a peer changes ---

  lemma {:induction false} SwarmFrom(numPieces: nat, backlog: nat, books: Ledger, downloads: seq<Peer>, num: Counts)
    requires |books.inactive| == numPieces && 0 < backlog && |downloads| < BEST_START
    requires forall k :: 0 <= k < |downloads| ==> PeerOk(numPieces, backlog, downloads[k])
    requires CountsAgree(books, downloads, num)
    ensures SwarmOk(numPieces, backlog, books, downloads, num)
  {
  }

  lemma {:induction false} NewPeerOk(numPieces: nat, backlog: nat, books: Ledger)
    ensures PeerOk(numPieces, backlog, NewPeer(numPieces))
    ensures Settled(books, NewPeer(numPieces)) && Served(books, backlog, [], NewPeer(numPieces))
    ensures NewPeer(numPieces).active == [] && forall i: nat :: !Has(NewPeer(numPieces), i)
  {
    assert NewPeer(numPieces).active == [];
  }

  lemma {:induction false} AllWith(numPieces: nat, backlog: nat, books: Ledger, downloads: seq<Peer>, p: Peer,
                                   late: set<nat>)
    ensures (forall k :: 0 <= k < |downloads| ==> PeerOk(numPieces, backlog, downloads[k])) && PeerOk(numPieces, backlog, p) ==>
      forall k :: 0 <= k < |downloads + [p]| ==> PeerOk(numPieces, backlog, (downloads + [p])[k])
    ensures AllSettled(books, downloads) && Settled(books, p) ==> AllSettled(books, downloads + [p])
    ensures AllServed(books, backlog, [], downloads, late) && Served(books, backlog, [], p) ==>
      AllServed(books, backlog, [], downloads + [p], late)
  {
    hide PeerOk, Settled, Served;
  }

  lemma {:induction false} AgreeWith(books: Ledger, downloads: seq<Peer>, num: Counts, p: Peer)
    requires CountsAgree(books, downloads, num) && forall i: nat :: !Has(p, i)
    ensures CountsAgree(books, downloads + [p], num)
  {
    hide Has, HaveCount;
    forall i: nat
      ensures HaveCount(downloads + [p], i) == HaveCount(downloads, i)
    {
      HaveCountSnoc(downloads, p, i);
    }
  }

  /** The same peers when peer `k` is gone. */
  function Shifted(late: set<nat>, k: nat): (shifted: set<nat>)
    ensures forall j :: j in shifted <==> (if j < k then j else j + 1) in late
  {
    (set j | j in late && j < k) + (set j | j in late && j > k :: (j - 1) as nat)
  }

  lemma {:induction false} AllWithout(numPieces: nat, backlog: nat, books: Ledger, downloads: seq<Peer>,
                                      all: seq<Request>, k: nat, late: set<nat>)
    requires k < |downloads|
    ensures var rest := downloads[..k] + downloads[k + 1..];
      && |rest| == |downloads| - 1
      && ((forall j :: 0 <= j < |downloads| ==>
            PeerOk(numPieces, backlog, downloads[j])) ==> forall j :: 0 <= j < |rest| ==> PeerOk(numPieces, backlog, rest[j]))
      && (AllSettled(books, downloads) ==> AllSettled(books, rest))
      && (AllServed(books, backlog, [], downloads, late) ==> AllServed(books, backlog, [], rest, Shifted(late, k)))
      && (AllAmong(downloads, all) ==> AllAmong(rest, all))
  {
    hide PeerOk, Settled, Served, Among;
    var rest := downloads[..k] + downloads[k + 1..];
    assert forall j :: 0 <= j < |rest| ==> rest[j] == downloads[if j < k then j else j + 1];
  }

  lemma {:induction false} SettledAre(books: Ledger, downloads: seq<Peer>)
    requires AllSettled(books, downloads)
    ensures AllHopeful(books, [], downloads) && forall j :: 0 <= j < |downloads| ==> Idle(downloads[j]) && Hopeful(books, [], downloads[j])
  {
    hide Hopeful, Idle;
    assert forall j :: 0 <= j < |downloads| ==> Settled(books, downloads[j]);
  }

  lemma {:induction false} AllAre(books: Ledger, backlog: nat, downloads: seq<Peer>, late: set<nat>)
    ensures AllSettled(books, downloads) <==> forall j :: 0 <= j < |downloads| ==> Settled(books, downloads[j])
    ensures AllServed(books, backlog, [], downloads, late) <==>
      forall j :: 0 <= j < |downloads| && j !in late ==> Served(books, backlog, [], downloads[j])
  {
  }

  lemma {:induction false} SettledFrom(books: Ledger, downloads: seq<Peer>)
    requires AllHopeful(books, [], downloads) && forall j :: 0 <= j < |downloads| ==> Idle(downloads[j])
    ensures AllSettled(books, downloads)
  {
    hide Hopeful, Idle;
  }

  lemma {:induction false} HopefulMore(books: Ledger, dropped: seq<Request>, downloads: seq<Peer>)
    requires AllHopeful(books, [], downloads)
    ensures AllHopeful(books, dropped, downloads)
  {
    forall k | 0 <= k < |downloads|
      ensures Hopeful(books, dropped, downloads[k])
    {
      assert Hopeful(books, [], downloads[k]);
    }
  }

  /** A peer that chokes us while all was well. */
  lemma {:induction false} PeerChokes(numPieces: nat, backlog: nat, books: Ledger, p: Peer)
    requires PeerOk(numPieces, backlog, p) && p.gotAnything && !p.choked && 0 < backlog
    ensures var q := p.(choked := true, active := []);
      && PeerOk(numPieces, backlog, q)
      && (Idle(p) ==> Hopeful(books, p.active, q) && Idle(q) && (p.active == [] ==> !q.interested))
      && (Idle(p) && Served(books, backlog, [], p) ==> Served(books, backlog, [], q))
  {
    var q := p.(choked := true, active := []);
    assert forall i: nat :: Want(books, q, i) ==> Want(books, p, i);
    if p.active != [] {
      assert p.active[0] in p.active && Has(q, p.active[0].index);
    }
  }

  lemma {:induction false} AllUpdate(numPieces: nat, backlog: nat, books: Ledger, dropped: seq<Request>,
                                     downloads: seq<Peer>, k: nat, p: Peer, late: set<nat>)
    requires k < |downloads|
    ensures AllHopeful(books, dropped, downloads) && Hopeful(books, dropped, p) ==>
      AllHopeful(books, dropped, downloads[k := p])
    ensures AllServed(books, backlog, [], downloads, late) && (k in late || Served(books, backlog, [], p)) ==>
      AllServed(books, backlog, [], downloads[k := p], late)
    ensures AllSettled(books, downloads) && Settled(books, p) ==> AllSettled(books, downloads[k := p])
  {
    hide Hopeful, Served, Settled;
  }

  /** `_request_more` of an unchoked peer `k` settles everybody if the others were, and serves everybody if the others
      were and `k` was but for what it is offered. */
  lemma {:induction false} MoreSettles(books: Ledger, books': Ledger, backlog: nat, indices: Option<seq<nat>>,
                                       downloads: seq<Peer>, downloads': seq<Peer>, k: nat, late: set<nat>)
    requires More(books, books', backlog, indices, downloads, downloads', k) && !downloads[k].choked
    requires forall j :: 0 <= j < |downloads| && downloads[j].active != [] ==> !downloads[j].choked
    ensures (forall j :: 0 <= j < |downloads| && j != k ==> Settled(books, downloads[j])) ==>
      AllSettled(books', downloads')
    ensures (forall j :: 0 <= j < |downloads| && j != k && j !in late ==> Served(books, backlog, [], downloads[j])) ==>
      (k in late || indices.None? || Served(books, backlog, indices.value, downloads[k])) ==>
        AllServed(books', backlog, [], downloads', late)
  {
    hide More, Served, Hopeful, Idle;
    MoreKeeps(books, books', backlog, indices, downloads, downloads', k);
  }

  lemma {:induction false} AmongSnoc(downloads: seq<Peer>, p: Peer, all: seq<Request>)
    requires p.active == []
    ensures AllAmong(downloads, all) ==> AllAmong(downloads + [p], all)
  {
  }

  lemma {:induction false} AmongLess(downloads: seq<Peer>, k: nat, p: Peer, all: seq<Request>)
    requires k < |downloads| && AllAmong(downloads, all) && forall r :: r in p.active ==> r in downloads[k].active
    ensures AllAmong(downloads[k := p], all)
  {
    assert Among(downloads[k].active, all);
  }

  lemma {:induction false} AlertedSame(books: Ledger, lost: seq<nat>, downloads: seq<Peer>, downloads': seq<Peer>)
    requires |downloads'| == |downloads| && forall j :: 0 <= j < |downloads| ==> Alerted(books, lost, downloads[j], downloads'[j])
    ensures forall j :: 0 <= j < |downloads| ==>
      downloads'[j].active == downloads[j].active && downloads'[j].choked == downloads[j].choked
    ensures forall j :: 0 <= j < |downloads| ==> Standing(downloads'[j]) == Standing(downloads[j])
  {
    hide Want;
    assert forall j :: 0 <= j < |downloads| ==> Alerted(books, lost, downloads[j], downloads'[j]);
  }

  lemma {:induction false} AmongSameIf(downloads: seq<Peer>, downloads': seq<Peer>, all: seq<Request>)
    requires |downloads'| == |downloads| && forall k :: 0 <= k < |downloads| ==> downloads'[k].active == downloads[k].active
    ensures AllAmong(downloads, all) ==> AllAmong(downloads', all)
  {
    if AllAmong(downloads, all) {
      AmongSame(downloads, downloads', all);
    }
  }

  lemma {:induction false} CountsMarked(books: Ledger, downloads: seq<Peer>, k: nat, q: Peer, p: Peer, num: Counts)
    requires k < |downloads| && p.have == q.have && CountsAgree(books, downloads[k := q], num)
    ensures CountsAgree(books, downloads[k := p], num)
  {
    hide Has, HaveCount;
    var a, b := downloads[k := p], downloads[k := q];
    forall i: nat
      ensures HaveCount(a, i) == HaveCount(b, i)
    {
      HaveCountSame(a, b, i);
    }
  }

  // --- A block comes in ---

  lemma {:induction false} ArrivedRequests(g: Geometry, l: Ledger, i: nat, good: bool)
    requires Sized(g, l) && i < g.numPieces && l.inactive[i].Pending?
    ensures var l' := Arrived(g, l, i, good);
      && l'.endgame == l.endgame && |l'.inactive| == |l.inactive|
      && (good || !LastBlock(l, i) ==>
            l'.amountInactive == l.amountInactive && forall j: nat :: HasRequests(l', j) <==> HasRequests(l, j))
      && (!good && LastBlock(l, i) ==>
            Reopened(l, l', [i]) && forall j: nat :: HasRequests(l', j) ==> j == i || HasRequests(l, j))
      && (!(good && LastBlock(l, i)) ==> SameComplete(l, l'))
      && (good && LastBlock(l, i) ==> l'.inactive == l.inactive[i := Complete])
  {
    hide PieceLen;
    var l' := Arrived(g, l, i, good);
    assert forall j: nat :: j != i ==> (HasRequests(l', j) <==> HasRequests(l, j));
  }

  lemma {:induction false} CountedOpen(numPieces: nat, backlog: nat, books: Ledger, downloads: seq<Peer>, num: Counts,
                                       i: nat)
    requires SwarmOk(numPieces, backlog, books, downloads, num) && i < numPieces
    ensures i < |num| && i < |books.inactive| && (num[i].Some? <==> !books.inactive[i].Complete?)
    ensures num[i].Some? ==> num[i].value <= |downloads|
  {
    HaveCountBound(downloads, i);
  }

  /** Completing piece `i` in the books and in the picker. */
  lemma {:induction false} SwarmDone(numPieces: nat, backlog: nat, books: Ledger, books': Ledger, downloads: seq<Peer>,
                                     num: Counts, i: nat)
    requires SwarmOk(numPieces, backlog, books, downloads, num) && i < |books.inactive|
    requires books'.inactive == books.inactive[i := Complete]
    ensures SwarmOk(numPieces, backlog, books', downloads, Done(num, i))
  {
    hide PeerOk, HaveCount;
  }

  /** The same requests can be given as before: everybody is as settled and as served. */
  lemma {:induction false} SameRequests(books: Ledger, books': Ledger, backlog: nat, p: Peer)
    requires forall j: nat :: HasRequests(books', j) <==> HasRequests(books, j)
    ensures Settled(books, p) ==> Settled(books', p)
    ensures Served(books, backlog, [], p) ==> Served(books', backlog, [], p)
    ensures Hopeful(books, [], p) ==> Hopeful(books', [], p)
  {
    if Hopeful(books, [], p) && p.choked && p.interested {
      var i: nat :| Want(books, p, i);
      assert Want(books', p, i);
    }
    if Served(books, backlog, [], p) {
      assert forall i: nat :: Want(books', p, i) ==> Want(books, p, i);
    }
  }

  lemma {:induction false} AllSameRequests(books: Ledger, books': Ledger, backlog: nat, downloads: seq<Peer>,
                                           late: set<nat>)
    requires forall j: nat :: HasRequests(books', j) <==> HasRequests(books, j)
    ensures AllSettled(books, downloads) ==> AllSettled(books', downloads)
    ensures AllServed(books, backlog, [], downloads, late) ==> AllServed(books', backlog, [], downloads, late)
  {
    hide Settled, Served, Hopeful;
    forall k | 0 <= k < |downloads|
      ensures Settled(books, downloads[k]) ==> Settled(books', downloads[k])
      ensures Served(books, backlog, [], downloads[k]) ==> Served(books', backlog, [], downloads[k])
    {
      SameRequests(books, books', backlog, downloads[k]);
    }
  }

  /** An unchoked peer is never marked in vain by being choked. */
  lemma {:induction false} UnchokedHopeful(books: Ledger, lost: seq<Request>, p: Peer)
    requires !p.choked
    ensures Hopeful(books, lost, p)
  {
  }

  lemma {:induction false} EasedIs(books: Ledger, books': Ledger)
    ensures Eased(books, books') <==>
      |books'.inactive| == |books.inactive| && forall i: nat :: HasRequests(books', i) ==> HasRequests(books, i)
  {
  }

  lemma {:induction false} SameCompleteTransitive(a: Ledger, b: Ledger, c: Ledger)
    requires SameComplete(a, b) && SameComplete(b, c)
    ensures SameComplete(a, c)
  {
  }

  lemma {:induction false} NewRequestLess(g: Geometry, l: Ledger, i: nat)
    requires Sized(g, l) && i < g.numPieces && Opened(g, l.inactive[i], i) != [] && NewRequest(g, l, i).1 in Tile(g, i)
    ensures NewRequest(g, l, i).0.amountInactive < l.amountInactive
  {
    TileSlice(g, i, NewRequest(g, l, i).1);
  }

  lemma {:induction false} OpenPending(l: Ledger, i: nat)
    requires i < |l.inactive| && !l.inactive[i].Complete? && !HasRequests(l, i)
    ensures l.inactive[i].Pending?
  {
  }

  /** A piece that turned out bad is untouched again, with none of its blocks received. */
  lemma {:induction false} AfterBad(g: Geometry, l: Ledger, r: Request, received: set<Request>)
    requires Sized(g, l) && r.index < g.numPieces && LastBlock(l, r.index)
    ensures var l' := Arrived(g, l, r.index, false);
      r.index < |l'.inactive| && !l'.inactive[r.index].Complete? && HasRequests(l', r.index)
    ensures forall q :: q in ReceivedAfter(l, r, received) ==> q.index != r.index
  {
  }

  lemma {:induction false} OnlyReopened(books: Ledger, books': Ledger, i: nat)
    requires Reopened(books, books', [i]) && forall j: nat :: j < |books.inactive| ==> !HasRequests(books, j)
    ensures forall j: nat :: HasRequests(books', j) <==> j == i
  {
    assert forall j: nat :: HasRequests(books, j) ==> j < |books.inactive|;
  }

  /** After a block of peer `k` came in, with no request to give that was not there before. */
  lemma {:induction false} OthersAfter(books: Ledger, books': Ledger, backlog: nat, downloads: seq<Peer>, k: nat,
                                       downloads': seq<Peer>, late: set<nat>)
    requires k < |downloads| == |downloads'| && forall j: nat :: HasRequests(books', j) <==> HasRequests(books, j)
    requires downloads' == downloads[k := downloads'[k]]
    ensures AllSettled(books, downloads) ==>
      forall j :: 0 <= j < |downloads'| && j != k ==> Settled(books', downloads'[j])
    ensures AllServed(books, backlog, [], downloads, late) ==>
      forall j :: 0 <= j < |downloads'| && j != k && j !in late ==> Served(books', backlog, [], downloads'[j])
  {
    hide Settled, Served, Hopeful;
    AllSameRequests(books, books', backlog, downloads, late);
    assert forall j :: 0 <= j < |downloads'| && j != k ==> downloads'[j] == downloads[j];
  }

  /** After the last block of a piece of peer `k` came in and the piece turned out bad. */
  lemma {:induction false} HopefulAfter(books: Ledger, books': Ledger, backlog: nat, downloads: seq<Peer>, k: nat,
                                        p: Peer, i: nat)
    requires k < |downloads| && !p.choked && AllSettled(books, downloads) && Reopened(books, books', [i])
    ensures AllHopeful(books', [], downloads[k := p])
  {
    SettledAre(books, downloads);
    UnchokedHopeful(books, [], p);
    AllUpdate(0, backlog, books, [], downloads, k, p, {});
    ReopenedStill(books, books', backlog, [i], [], downloads[k := p], {});
  }

  /** A piece that is cut, with nothing unrequested and nothing received, is outstanding in full. */
  lemma {:induction false} AllAskedAgain(g: Geometry, l: Ledger, out: seq<Request>, received: set<Request>, i: nat,
                                         s: Slice)
    requires Balanced(g, l, out, received) && i < g.numPieces && l.inactive[i].Pending? && !HasRequests(l, i)
    requires s in Tile(g, i) && At(i, s) !in received
    ensures At(i, s) in out
  {
    hide Tile;
    assert PieceBalanced(g, l, i, multiset(out), received);
    assert multiset(Tile(g, i))[s] > 0;
    assert multiset(out)[At(i, s)] > 0;
  }

  ghost predicate AmongBut(p: Peer, all: seq<Request>, r: Request, done: bool)
  {
    Among(p.active, if done then all else all + [r])
  }

  /** In endgame, once `r` has come in, those in `done` are no longer asked for it. */
  ghost predicate DroppedBy(downloads: seq<Peer>, all: seq<Request>, r: Request, done: set<nat>)
  {
    forall j :: 0 <= j < |downloads| ==> AmongBut(downloads[j], all, r, j in done)
  }

  lemma {:induction false} DroppedStart(downloads: seq<Peer>, all: seq<Request>, r: Request, k: nat, p: Peer)
    requires k < |downloads| && AllAmong(downloads, all) && Distinct(all) && r in all && Distinct(downloads[k].active)
    requires r in downloads[k].active && p.active == Removed(downloads[k].active, r)
    ensures DroppedBy(downloads[k := p], Removed(all, r), r, {k})
  {
    DistinctRemoved(all, r);
    DistinctRemoved(downloads[k].active, r);
    var after := downloads[k := p];
    forall j | 0 <= j < |after|
      ensures AmongBut(after[j], Removed(all, r), r, j in {k})
    {
      assert Among(downloads[j].active, all);
    }
  }

  lemma {:induction false} DroppedEnd(downloads: seq<Peer>, all: seq<Request>, r: Request, done: set<nat>)
    requires DroppedBy(downloads, all, r, done) && forall j :: 0 <= j < |downloads| ==> j in done
    ensures AllAmong(downloads, all)
  {
  }

  /** If `r` is asked for again, what everybody is asked for is outstanding. */
  lemma {:induction false} DroppedAgain(downloads: seq<Peer>, all: seq<Request>, r: Request, done: set<nat>,
                                        all': seq<Request>)
    requires DroppedBy(downloads, all, r, done) && all <= all' && r in all'
    ensures AllAmong(downloads, all')
  {
    forall j | 0 <= j < |downloads|
      ensures Among(downloads[j].active, all')
    {
      assert AmongBut(downloads[j], all, r, j in done);
      assert forall q :: q in all ==> q in all';
    }
  }

  /** A peer is done with `r` when its list is what it was without `r`, filled up from `all`. */
  lemma {:induction false} DroppedStep(downloads: seq<Peer>, all: seq<Request>, r: Request, done: set<nat>, j: nat,
                                       q: Peer, p: Peer, backlog: nat)
    requires DroppedBy(downloads, all, r, done) && j < |downloads| && Distinct(downloads[j].active)
    requires Distinct(all) && r !in all
    requires q.active == if r in downloads[j].active then Removed(downloads[j].active, r) else downloads[j].active
    requires p == q || Fixed(all, backlog, q, p)
    ensures DroppedBy(downloads[j := p], all, r, done + {j})
  {
    assert AmongBut(downloads[j], all, r, j in done);
    if r in downloads[j].active {
      DistinctRemoved(downloads[j].active, r);
    }
    assert Among(q.active, all);
    hide Fixed, Distinct;
    if p != q {
      FixedActive(all, backlog, q, p);
    }
  }

  lemma {:induction false} AmongIs(active: seq<Request>, all: seq<Request>)
    ensures Among(active, all) <==> forall r :: r in active ==> r in all
  {
  }

  lemma {:induction false} AllAmongIs(downloads: seq<Peer>, all: seq<Request>)
    ensures AllAmong(downloads, all) <==> forall k :: 0 <= k < |downloads| ==> Among(downloads[k].active, all)
  {
  }

  /** The only copy of `r` among distinct requests is taken out. */
  lemma {:induction false} DistinctRemoved(all: seq<Request>, r: Request)
    requires Distinct(all) && r in all
    ensures Distinct(Removed(all, r)) && r !in Removed(all, r)
    ensures forall q :: q in all <==> q == r || q in Removed(all, r)
  {
    var left := Removed(all, r);
    assert multiset(all)[r] == 1 && r !in multiset(left);
    forall q: Request
      ensures multiset(left)[q] <= 1
      ensures q in all <==> q == r || q in left
    {
      assert multiset(all)[q] <= 1;
      assert q in left <==> q in multiset(left);
      assert q in all <==> q in multiset(all);
    }
  }

  lemma {:induction false} RemovedOutstanding(out: seq<Request>, all: seq<Request>, r: Request)
    requires multiset(out) == multiset(all) && r in all
    ensures r in out && multiset(Removed(out, r)) == multiset(Removed(all, r))
  {
    assert r in multiset(out);
  }

  /** Taking the answered request off its peer's list. */
  lemma {:induction false} SharedAnswered(out: seq<Request>, downloads: seq<Peer>, k: nat, p: Peer, r: Request)
    requires k < |downloads| && r in downloads[k].active && p.active == Removed(downloads[k].active, r)
    requires multiset(out) == multiset(Flatten(downloads))
    ensures r in out && multiset(Removed(out, r)) == multiset(Flatten(downloads[k := p]))
  {
    hide Flatten, Removed;
    FlattenUpdate(downloads, k, p);
    FlattenMember(downloads, k, r);
    assert r in multiset(out);
    RemovedSize(out, r);
    RemovedSize(downloads[k].active, r);
    var f, f', a, a' := multiset(Flatten(downloads)), multiset(Flatten(downloads[k := p])), multiset(downloads[k].active), multiset(p.active);
    assert f' + a == f + a' && a == a' + multiset{r};
    OneLess(f, f', a', r);
    assert multiset(Removed(out, r)) == f - multiset{r};
  }

  lemma {:induction false} RemovedSize(s: seq<Request>, r: Request)
    requires r in s
    ensures multiset(Removed(s, r)) == multiset(s) - multiset{r} && multiset(s) == multiset(Removed(s, r)) + multiset{r}
  {
  }

  lemma {:induction false} OneLess<T>(f: multiset<T>, f': multiset<T>, a': multiset<T>, r: T)
    requires f' + (a' + multiset{r}) == f + a'
    ensures f' == f - multiset{r}
  {
    forall q: T
      ensures f'[q] == (f - multiset{r})[q]
    {
      assert (f' + (a' + multiset{r}))[q] == (f + a')[q];
    }
  }

  /** A peer that gets a new piece. */
  lemma {:induction false} PeerGains(numPieces: nat, backlog: nat, books: Ledger, p: Peer, i: nat)
    requires PeerOk(numPieces, backlog, p) && p.gotAnything && i < |p.have|
    ensures var q := p.(have := p.have[i := true]);
      && PeerOk(numPieces, backlog, q)
      && (forall j: nat :: Has(q, j) <==> j == i || Has(p, j))
      && (Settled(books, p) ==> Settled(books, q))
      && (Served(books, backlog, [], p) ==> Served(books, backlog, [i], q))
      && (!HasRequests(books, i) && Served(books, backlog, [], p) ==> Served(books, backlog, [], q))
  {
    var q := p.(have := p.have[i := true]);
    assert forall j: nat :: Has(q, j) <==> j == i || Has(p, j);
    assert forall j: nat :: Want(books, q, j) ==> j == i || Want(books, p, j);
    if p.choked && p.interested && WantsSome(books, p) {
      var j: nat :| Want(books, p, j);
      assert Want(books, q, j);
    }
  }

  lemma {:induction false} GainCounted(numPieces: nat, backlog: nat, books: Ledger, downloads: seq<Peer>, num: Counts,
                                       k: nat, q: Peer, i: nat)
    requires SwarmOk(numPieces, backlog, books, downloads, num) && k < |downloads|
    requires i < numPieces && !Has(downloads[k], i)
    requires PeerOk(numPieces, backlog, q) && forall j: nat :: Has(q, j) <==> j == i || Has(downloads[k], j)
    ensures SwarmOk(numPieces, backlog, books, downloads[k := q], CountUp(num, i))
    ensures forall j :: 0 <= j < |num| && CountUp(num, i)[j].Some? ==> CountUp(num, i)[j].value <= |downloads|
  {
    hide PeerOk, HaveCount, Has;
    forall j: nat
      ensures HaveCount(downloads[k := q], j) == HaveCount(downloads, j) + if j == i then 1 else 0
      ensures HaveCount(downloads[k := q], j) <= |downloads|
    {
      HaveCountUpdate(downloads, k, q, j);
      HaveCountBound(downloads[k := q], j);
    }
  }

  /** Marking a choked peer that has something to give. */
  lemma {:induction false} PeerMarkedFor(numPieces: nat, backlog: nat, books: Ledger, p: Peer, i: nat)
    requires PeerOk(numPieces, backlog, p) && p.choked && Want(books, p, i)
    ensures var q := p.(interested := true);
      PeerOk(numPieces, backlog, q) && Settled(books, q) && Served(books, backlog, [], q)
  {
    PeerMarked(numPieces, backlog, p, true, p.example);
    assert Want(books, p.(interested := true), i);
  }

  lemma {:induction false} PeerHeard(numPieces: nat, backlog: nat, books: Ledger, p: Peer)
    requires PeerOk(numPieces, backlog, p)
    ensures var q := p.(gotAnything := true);
      && PeerOk(numPieces, backlog, q) && q.have == p.have && q.active == p.active
      && (Settled(books, p) ==> Settled(books, q)) && (Served(books, backlog, [], p) ==> Served(books, backlog, [], q))
  {
    var q := p.(gotAnything := true);
    assert forall i: nat :: Want(books, q, i) <==> Want(books, p, i);
    if WantsSome(books, p) {
      var i: nat :| Want(books, p, i);
      assert Want(books, q, i);
    }
  }

  /** A peer that unchokes us. */
  lemma {:induction false} PeerUnchokes(numPieces: nat, backlog: nat, books: Ledger, p: Peer)
    requires PeerOk(numPieces, backlog, p) && p.gotAnything && p.choked
    ensures var q := p.(choked := false);
      && PeerOk(numPieces, backlog, q) && q.active == []
      && (!p.interested ==> Settled(books, q) && (Served(books, backlog, [], p) ==> Served(books, backlog, [], q)))
  {
    var q := p.(choked := false);
    assert forall i: nat :: Want(books, q, i) ==> Want(books, p, i);
  }

  /** A peer whose first message says what it has. */
  lemma {:induction false} PeerTells(numPieces: nat, backlog: nat, books: Ledger, p: Peer, have: seq<bool>,
                                     interested: bool)
    requires PeerOk(numPieces, backlog, p) && !p.gotAnything && |have| == numPieces
    requires interested ==> exists i: nat :: i < |have| && have[i]
    ensures p.choked && !p.interested && p.active == [] && forall i: nat :: !Has(p, i)
    ensures PeerOk(numPieces, backlog, p.(have := have, interested := interested, gotAnything := true))
    ensures (interested <==> exists i: nat :: i < |have| && have[i] && HasRequests(books, i)) ==>
      (var q := p.(have := have, interested := interested, gotAnything := true); Settled(books, q) && Served(books, backlog, [], q))
  {
    var q := p.(have := have, interested := interested, gotAnything := true);
    if interested && exists i: nat :: i < |have| && have[i] && HasRequests(books, i) {
      var i: nat :| i < |have| && have[i] && HasRequests(books, i);
      assert Want(books, q, i);
    }
  }

  /** What is new was asked for pieces of the blocks `dropped`. */
  ghost predicate Regiven(dropped: seq<Request>, p: Peer, p': Peer)
  {
    forall r :: r in p'.active ==> r in p.active || exists q :: q in dropped && q.index == r.index
  }

  ghost predicate AllRegiven(dropped: seq<Request>, downloads: seq<Peer>, downloads': seq<Peer>)
  {
    |downloads'| == |downloads| && forall j :: 0 <= j < |downloads| ==> Regiven(dropped, downloads[j], downloads'[j])
  }

  /** Only pieces of the blocks `dropped` are in `lost`. */
  ghost predicate LostOf(lost: seq<nat>, dropped: seq<Request>)
  {
    forall i :: i in lost ==> exists r :: r in dropped && r.index == i
  }

  lemma {:induction false} LostOfNone(dropped: seq<Request>)
    ensures LostOf([], dropped)
  {
  }

  lemma {:induction false} LostOfMore(lost: seq<nat>, dropped: seq<Request>, r: Request)
    requires LostOf(lost, dropped) && r in dropped
    ensures LostOf(lost + [r.index], dropped)
  {
  }

  lemma {:induction false} RegivenNone(dropped: seq<Request>, downloads: seq<Peer>)
    ensures AllRegiven(dropped, downloads, downloads)
  {
  }

  /** The peer that chokes is asked for nothing more. */
  lemma {:induction false} RegivenAfter(dropped: seq<Request>, before: seq<Peer>, choked: seq<Peer>, downloads': seq<Peer>,
                                        k: nat)
    requires k < |before| == |choked| && choked == before[k := choked[k]] && choked[k].active == []
    requires AllRegiven(dropped, choked, downloads')
    ensures AllRegiven(dropped, before, downloads')
  {
    forall j | 0 <= j < |before|
      ensures Regiven(dropped, before[j], downloads'[j])
    {
      assert Regiven(dropped, choked[j], downloads'[j]);
    }
  }

  lemma {:induction false} RegivenFrom(dropped: seq<Request>, lost: seq<nat>, downloads: seq<Peer>, woken: seq<Peer>,
                                       downloads': seq<Peer>)
    requires AllOffered(lost, downloads, woken) && |downloads'| == |woken|
    requires forall j :: 0 <= j < |woken| ==> downloads'[j].active == woken[j].active
    requires LostOf(lost, dropped)
    ensures AllRegiven(dropped, downloads, downloads')
  {
    forall j | 0 <= j < |downloads|
      ensures Regiven(dropped, downloads[j], downloads'[j])
    {
      assert Offered(lost, downloads[j], woken[j]);
    }
  }

  /** A peer whose first message says what it has, in endgame. */
  lemma {:induction false} BusyTells(all: seq<Request>, backlog: nat, books: Ledger, p: Peer, have: seq<bool>,
                                     interested: bool)
    requires p.choked && forall i: nat :: !HasRequests(books, i)
    requires interested <==> exists r :: r in all && r.index < |have| && have[r.index]
    ensures Busy(all, backlog, p.(have := have, interested := interested, gotAnything := true))
  {
  }

  // --- After a bad piece ---

  /** The choked peers that could give the bad piece `i` and are not marked: nobody looks at them. */
  ghost function Overlooked(downloads: seq<Peer>, i: nat): (peers: set<nat>)
    ensures forall j: nat :: j in peers <==>
      j < |downloads| && downloads[j].choked && !downloads[j].interested && Has(downloads[j], i)
  {
    set j: nat | j < |downloads| && downloads[j].choked && !downloads[j].interested && Has(downloads[j], i)
  }

  /** Who is served before the unchoked peers are offered the bad piece `i` of peer `k`: the choked ones that are not
      overlooked for all pieces, the unchoked ones for all but that one. */
  lemma {:induction false} ReadyAfterBad(books: Ledger, books': Ledger, backlog: nat, downloads: seq<Peer>, k: nat,
                                         p: Peer, i: nat, late: set<nat>, ready: set<nat>)
    requires k < |downloads| && !p.choked && !downloads[k].choked
    requires AllServed(books, backlog, [], downloads, late) && Reopened(books, books', [i])
    requires forall j: nat :: j in ready <==> j < |downloads| && downloads[j].choked && j !in Overlooked(downloads, i)
    ensures Woken(books', backlog, [i], downloads[k := p], ready, late + {k} + Overlooked(downloads, i))
    ensures forall j :: 0 <= j < |downloads[k := p]| && j in ready ==> downloads[k := p][j].choked
  {
    var after := downloads[k := p];
    forall j | 0 <= j < |after| && j !in late + {k} + Overlooked(downloads, i)
      ensures Served(books', backlog, if j in ready then [] else [i], after[j])
    {
      assert after[j] == downloads[j] && Served(books, backlog, [], downloads[j]);
      assert forall m: nat :: Want(books', after[j], m) ==> Want(books, after[j], m) || m == i;
      assert j in ready ==> after[j].interested || !Has(after[j], i);
    }
  }

  lemma {:induction false} ServedAfterBad(books: Ledger, backlog: nat, i: nat, downloads: seq<Peer>, done: set<nat>,
                                          late: set<nat>)
    requires Woken(books, backlog, [i], downloads, done, late)
    requires forall j :: 0 <= j < |downloads| && j !in late ==> j in done
    ensures AllServed(books, backlog, [], downloads, late)
  {
  }

  /** A peer that was overlooked is left unserved, without a mark, exactly as long as the bad piece has a request to
      give. */
  lemma {:induction false} OverlookedExactly(books: Ledger, books': Ledger, backlog: nat, p: Peer, p': Peer, i: nat)
    requires Served(books, backlog, [], p) && p.choked && !p.interested && Has(p, i)
    requires Offered([i], p, p') && Standing(p') == Standing(p)
    requires forall m: nat :: HasRequests(books', m) ==> m == i || HasRequests(books, m)
    ensures !p'.interested && (Served(books', backlog, [], p') <==> !HasRequests(books', i))
  {
    assert p'.have == p.have && p'.choked;
    assert Want(books', p', i) <==> HasRequests(books', i);
    assert forall m: nat :: Want(books', p', m) ==> m == i || Want(books, p, m);
  }

  /** That is so of all that were overlooked. */
  ghost predicate OverlookedLeft(books': Ledger, backlog: nat, downloads: seq<Peer>, downloads': seq<Peer>, i: nat,
                                 late: set<nat>)
  {
    forall j :: j in Overlooked(downloads, i) && j !in late ==>
      j < |downloads'| && !downloads'[j].interested
      && (Served(books', backlog, [], downloads'[j]) <==> !HasRequests(books', i))
  }

  lemma {:induction false} OverlookedAll(books: Ledger, reopened: Ledger, books': Ledger, backlog: nat,
                                         downloads: seq<Peer>, downloads': seq<Peer>, i: nat, late: set<nat>)
    requires Reopened(books, reopened, [i]) && Eased(reopened, books') && AllOffered([i], downloads, downloads')
    requires AllServed(books, backlog, [], downloads, late)
    requires forall j :: 0 <= j < |downloads| ==> Standing(downloads'[j]) == Standing(downloads[j])
    ensures OverlookedLeft(books', backlog, downloads, downloads', i, late)
  {
    hide Served, Offered, HasRequests, Has, Standing;
    forall j | j in Overlooked(downloads, i) && j !in late
      ensures !downloads'[j].interested && (Served(books', backlog, [], downloads'[j]) <==> !HasRequests(books', i))
    {
      assert Offered([i], downloads[j], downloads'[j]);
      OverlookedExactly(books, books', backlog, downloads[j], downloads'[j], i);
    }
  }

  /** The sender of a block is asked for one less before anything is offered. */
  lemma {:induction false} OfferedFrom(lost: seq<nat>, before: seq<Peer>, mid: seq<Peer>, after: seq<Peer>, k: nat)
    requires k < |before| == |mid| && mid == before[k := mid[k]] && !before[k].choked
    requires (forall r :: r in mid[k].active ==> r in before[k].active) && AllOffered(lost, mid, after)
    ensures AllOffered(lost, before, after)
  {
    forall j | 0 <= j < |before|
      ensures Offered(lost, before[j], after[j])
    {
      assert Offered(lost, mid[j], after[j]);
    }
  }

  lemma {:induction false} LateMore(books: Ledger, backlog: nat, downloads: seq<Peer>, late: set<nat>, late': set<nat>)
    requires late <= late'
    ensures AllServed(books, backlog, [], downloads, late) ==> AllServed(books, backlog, [], downloads, late')
  {
  }

  lemma {:induction false} ChokedSame(downloads: seq<Peer>, downloads': seq<Peer>)
    requires |downloads'| == |downloads|
    requires forall j :: 0 <= j < |downloads| ==> Standing(downloads'[j]) == Standing(downloads[j])
    ensures forall j :: 0 <= j < |downloads| ==> downloads'[j].choked == downloads[j].choked
  {
  }

  // --- The start ---

  lemma {:induction false} UncountedIs(n: nat)
    ensures 1 <= BEST_START && forall j :: 0 <= j < n ==> Uncounted(n)[j] == Some(0)
  {
  }

  lemma {:induction false} DoneIs(num: Counts, i: nat)
    requires i < |num|
    ensures Done(num, i) == num[i := None]
  {
  }

  lemma {:induction false} NobodyCounts(books: Ledger, num: Counts)
    requires |num| == |books.inactive| && forall j :: 0 <= j < |num| ==> num[j] == if books.inactive[j].Complete? then None else Some(0)
    ensures CountsAgree(books, [], num)
  {
  }

  // --- Reading the invariant ---

  lemma {:induction false} OnePlace(g: Geometry, l: Ledger, i: nat, out: multiset<Request>, received: set<Request>,
                                    s: Slice)
    requires Sized(g, l) && i < g.numPieces && PieceBalanced(g, l, i, out, received)
    ensures Fits(g) && i < |l.inactive|
    ensures l.inactive[i].Pending? && s in Tile(g, i) ==>
      multiset(l.inactive[i].slices)[s] + out[At(i, s)] + (if At(i, s) in received then 1 else 0) == 1
    ensures l.inactive[i].Pending? && s !in Tile(g, i) ==>
      s !in l.inactive[i].slices && At(i, s) !in out && At(i, s) !in received
    ensures !l.inactive[i].Pending? ==> At(i, s) !in out && At(i, s) !in received
  {
    TileSlice(g, i, s);
    hide Tile;
    assert s in Tile(g, i) <==> multiset(Tile(g, i))[s] > 0;
  }

  lemma {:induction false} ServedIs(books: Ledger, backlog: nat, p: Peer)
    requires Served(books, backlog, [], p)
    ensures WantsSome(books, p) ==> if p.choked then p.interested else |p.active| >= backlog
    ensures Hopeful(books, [], p) && p.choked && p.interested ==> WantsSome(books, p)
  {
  }

  lemma {:induction false} CountsAre(books: Ledger, downloads: seq<Peer>, num: Counts)
    requires CountsAgree(books, downloads, num)
    ensures |num| == |books.inactive|
    ensures forall i :: 0 <= i < |num| ==>
      num[i] == if books.inactive[i].Complete? then None else Some(HaveCount(downloads, i))
  {
  }
}
