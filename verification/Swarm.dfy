/** The peers of a download and what is asked of each, on values: the state that wubi/src/bittorrent/Downloader.py moves
    about. What a change of one peer means for the sums over all of them, and for who is interesting, is said here;
    which changes an event makes is not. */
module Swarm {
  import opened Wrappers
  import opened Bytes
  import opened Requests
  import opened Picker

  /** A `SingleDownload`, with the `got_anything` flag of its connection. */
  datatype Peer = Peer(choked: bool, interested: bool, active: seq<Request>, have: seq<bool>, example: Option<nat>,
                       gotAnything: bool)

  function NewPeer(numPieces: nat): Peer
  {
    Peer(true, false, [], seq(numPieces, _ => false), None, false)
  }

  lemma {:induction false} NewPeerIs(numPieces: nat)
    ensures NewPeer(numPieces) == Peer(true, false, [], seq(numPieces, _ => false), None, false)
  {
  }

  /** What only the peer itself changes, by what it says. */
  function Standing(p: Peer): (bool, seq<bool>, bool) { (p.choked, p.have, p.gotAnything) }

  lemma {:induction false} StandingIs(p: Peer, q: Peer)
    ensures Standing(p) == Standing(q) <==> p.choked == q.choked && p.have == q.have && p.gotAnything == q.gotAnything
  {
  }

  predicate Has(p: Peer, i: nat) { i < |p.have| && p.have[i] }

  /** `have.numfalse == 0`. */
  predicate IsSeed(p: Peer) { forall i :: 0 <= i < |p.have| ==> p.have[i] }

  /** `_want`. */
  predicate Want(books: Ledger, p: Peer, i: nat) { Has(p, i) && HasRequests(books, i) }

  ghost predicate WantsSome(books: Ledger, p: Peer)
  {
    exists i: nat :: Want(books, p, i)
  }

  ghost predicate Distinct(s: seq<Request>)
  {
    forall r: Request :: multiset(s)[r] <= 1
  }

  /** Between events, for every peer: no more requests than the backlog, each once, only of pieces the peer has, and
      none unless the peer is unchoked and interesting. Before any message the peer is as it was made. */
  ghost predicate PeerOk(numPieces: nat, backlog: nat, p: Peer)
  {
    && |p.have| == numPieces
    && Distinct(p.active) && |p.active| <= backlog
    && (p.active != [] ==> p.interested && !p.choked)
    && (forall r :: r in p.active ==> Has(p, r.index))
    && (p.example.Some? ==> Has(p, p.example.value))
    && (!p.gotAnything ==> p.choked && !p.interested && forall i :: 0 <= i < |p.have| ==> !p.have[i])
  }

  ghost predicate PeersOk(numPieces: nat, backlog: nat, downloads: seq<Peer>)
  {
    forall k :: 0 <= k < |downloads| ==> PeerOk(numPieces, backlog, downloads[k])
  }

  /** All active requests of all peers. */
  function Flatten(downloads: seq<Peer>): seq<Request>
  {
    if downloads == [] then [] else Flatten(downloads[..|downloads| - 1]) + downloads[|downloads| - 1].active
  }

  lemma {:induction false} FlattenLast(downloads: seq<Peer>)
    requires downloads != []
    ensures multiset(Flatten(downloads)) == multiset(Flatten(downloads[..|downloads| - 1])) + multiset(downloads[|downloads| - 1].active)
  {
  }

  lemma {:induction false} FlattenUpdate(downloads: seq<Peer>, k: nat, p: Peer)
    requires k < |downloads|
    ensures multiset(Flatten(downloads[k := p])) + multiset(downloads[k].active) == multiset(Flatten(downloads)) + multiset(p.active)
    decreases |downloads|
  {
    hide Flatten;
    var n := |downloads| - 1;
    var front, after := downloads[..n], downloads[k := p];
    FlattenLast(downloads);
    FlattenLast(after);
    if k < n {
      FlattenUpdate(front, k, p);
      assert after[..n] == front[k := p] && after[n] == downloads[n] && front[k] == downloads[k];
      var last, was, now := multiset(downloads[n].active), multiset(Flatten(front)), multiset(Flatten(front[k := p]));
      assert multiset(Flatten(downloads)) == was + last && multiset(Flatten(after)) == now + last;
      assert now + multiset(front[k].active) == was + multiset(p.active);
      Carry(last, was, now, multiset(front[k].active), multiset(p.active));
    } else {
      assert after[..n] == front && |after| == n + 1 && after[n] == p && downloads[k] == downloads[n];
      assert multiset(Flatten(after)) == multiset(Flatten(front)) + multiset(p.active);
      assert multiset(Flatten(downloads)) == multiset(Flatten(front)) + multiset(downloads[n].active);
      Exchange(multiset(Flatten(front)), multiset(downloads[n].active), multiset(p.active),
               multiset(Flatten(downloads)), multiset(Flatten(after)));
    }
  }

  lemma {:induction false} Carry<T>(last: multiset<T>, was: multiset<T>, now: multiset<T>, a: multiset<T>,
                                    b: multiset<T>)
    requires now + a == was + b
    ensures now + last + a == was + last + b
  {
    assert now + last + a == now + a + last;
  }

  lemma {:induction false} Exchange<T>(f: multiset<T>, a: multiset<T>, b: multiset<T>, x: multiset<T>, y: multiset<T>)
    requires x == f + a && y == f + b
    ensures y + a == x + b
  {
  }

  lemma {:induction false} FlattenWithout(downloads: seq<Peer>, k: nat)
    requires k < |downloads|
    ensures multiset(Flatten(downloads[..k] + downloads[k + 1..])) + multiset(downloads[k].active) == multiset(Flatten(downloads))
    decreases |downloads|
  {
    hide Flatten;
    var n := |downloads| - 1;
    var front, rest := downloads[..n], downloads[..k] + downloads[k + 1..];
    FlattenLast(downloads);
    if k < n {
      FlattenWithout(front, k);
      FlattenLast(rest);
      assert rest[..n - 1] == front[..k] + front[k + 1..];
    } else {
      assert rest == front;
    }
  }

  lemma {:induction false} FlattenSnoc(downloads: seq<Peer>, p: Peer)
    ensures Flatten(downloads + [p]) == Flatten(downloads) + p.active
  {
    assert (downloads + [p])[..|downloads|] == downloads;
  }

  lemma {:induction false} FlattenMember(downloads: seq<Peer>, k: nat, r: Request)
    requires k < |downloads| && r in downloads[k].active
    ensures r in Flatten(downloads)
    decreases |downloads|
  {
    if k < |downloads| - 1 {
      FlattenMember(downloads[..|downloads| - 1], k, r);
    }
  }

  /** How many peers have piece `i`. */
  function HaveCount(downloads: seq<Peer>, i: nat): nat
  {
    if downloads == [] then 0 else HaveCount(downloads[..|downloads| - 1], i) + if Has(downloads[|downloads| - 1], i) then 1 else 0
  }

  lemma {:induction false} HaveCountLast(downloads: seq<Peer>, i: nat)
    requires downloads != []
    ensures var n := |downloads| - 1;
      HaveCount(downloads, i) == HaveCount(downloads[..n], i) + if Has(downloads[n], i) then 1 else 0
  {
  }

  lemma {:induction false} HaveCountUpdate(downloads: seq<Peer>, k: nat, p: Peer, i: nat)
    requires k < |downloads|
    ensures HaveCount(downloads[k := p], i) + (if Has(downloads[k], i) then 1 else 0)
         == HaveCount(downloads, i) + if Has(p, i) then 1 else 0
    decreases |downloads|
  {
    hide *;
    var n := |downloads| - 1;
    HaveCountLast(downloads, i);
    HaveCountLast(downloads[k := p], i);
    if k < n {
      HaveCountUpdate(downloads[..n], k, p, i);
      assert downloads[k := p][..n] == downloads[..n][k := p];
    } else {
      assert downloads[k := p][..n] == downloads[..n];
    }
  }

  lemma {:induction false} HaveCountWithout(downloads: seq<Peer>, k: nat, i: nat)
    requires k < |downloads|
    ensures HaveCount(downloads[..k] + downloads[k + 1..], i) + (if Has(downloads[k], i) then 1 else 0) == HaveCount(downloads, i)
    decreases |downloads|
  {
    hide *;
    var n, rest := |downloads| - 1, downloads[..k] + downloads[k + 1..];
    HaveCountLast(downloads, i);
    if k < n {
      HaveCountLast(rest, i);
      HaveCountWithout(downloads[..n], k, i);
      WithoutFront(downloads, k);
    } else {
      assert rest == downloads[..n];
    }
  }

  lemma {:induction false} WithoutFront(downloads: seq<Peer>, k: nat)
    requires k < |downloads| - 1
    ensures var n, rest := |downloads| - 1, downloads[..k] + downloads[k + 1..];
      && |rest| == n && rest[..n - 1] == downloads[..n][..k] + downloads[..n][k + 1..] && rest[n - 1] == downloads[n]
      && downloads[..n][k] == downloads[k]
  {
  }

  lemma {:induction false} HaveCountSnoc(downloads: seq<Peer>, p: Peer, i: nat)
    ensures HaveCount(downloads + [p], i) == HaveCount(downloads, i) + if Has(p, i) then 1 else 0
  {
    assert (downloads + [p])[..|downloads|] == downloads;
  }

  lemma {:induction false} HaveCountPositive(downloads: seq<Peer>, k: nat, i: nat)
    requires k < |downloads| && Has(downloads[k], i)
    ensures HaveCount(downloads, i) > 0
    decreases |downloads|
  {
    if k < |downloads| - 1 {
      HaveCountPositive(downloads[..|downloads| - 1], k, i);
    }
  }

  lemma {:induction false} HaveCountSame(downloads: seq<Peer>, downloads': seq<Peer>, i: nat)
    requires |downloads'| == |downloads| && forall k :: 0 <= k < |downloads| ==> downloads'[k].have == downloads[k].have
    ensures HaveCount(downloads', i) == HaveCount(downloads, i)
    decreases |downloads|
  {
    if downloads != [] {
      var n := |downloads| - 1;
      HaveCountSame(downloads[..n], downloads'[..n], i);
    }
  }

  /** The picker counts each incomplete piece as often as connected peers have it, and no complete one. */
  ghost predicate CountsAgree(books: Ledger, downloads: seq<Peer>, num: Counts)
  {
    && |num| == |books.inactive|
    && forall i :: 0 <= i < |num| ==>
         num[i] == if books.inactive[i].Complete? then None else Some(HaveCount(downloads, i))
  }

  // --- Endgame ---

  /** What `fix_download_endgame` may add: requests still outstanding that the peer can answer and is not yet asked. */
  function Wanted(all: seq<Request>, p: Peer): seq<Request>
  {
    if all == [] then []
    else
      var front, a := Wanted(all[..|all| - 1], p), all[|all| - 1];
      if Has(p, a.index) && a !in p.active then front + [a] else front
  }

  lemma {:induction false} WantedIs(all: seq<Request>, p: Peer)
    ensures forall r :: r in Wanted(all, p) <==> r in all && Has(p, r.index) && r !in p.active
    ensures forall r: Request :: multiset(Wanted(all, p))[r] <= multiset(all)[r]
    decreases |all|
  {
    if all != [] {
      var front, a := all[..|all| - 1], all[|all| - 1];
      WantedIs(front, p);
      assert all == front + [a];
    }
  }

  /** The possible outcomes of `fix_download_endgame` (the wanted requests are shuffled before they are cut to fit). */
  ghost predicate Fixed(all: seq<Request>, backlog: nat, p: Peer, p': Peer)
  {
    var want := Wanted(all, p);
    if p.interested && p.active == [] && want == [] then p' == p.(interested := false)
    else if p.choked then p' == p.(interested := p.interested || want != [])
    else
      && p' == p.(interested := p.interested || want != [], active := p'.active)
      && p.active <= p'.active
      && multiset(p'.active[|p.active|..]) <= multiset(want)
      && |p'.active| == Min(backlog, |p.active| + |want|)
  }

  lemma {:induction false} FixedActive(all: seq<Request>, backlog: nat, p: Peer, p': Peer)
    requires Fixed(all, backlog, p, p') && Distinct(p.active) && Distinct(all)
    ensures Distinct(p'.active)
    ensures forall r :: r in p'.active ==> r in p.active || (r in all && Has(p, r.index))
    ensures p'.active == p.active || (!p.choked && p'.interested && p'.active != [])
  {
    WantedIs(all, p);
    if p'.active != p.active {
      var added := p'.active[|p.active|..];
      assert p'.active == p.active + added;
      forall r: Request
        ensures multiset(p'.active)[r] <= 1
        ensures r in p'.active ==> r in p.active || (r in all && Has(p, r.index))
      {
        assert r in added ==> multiset(added)[r] > 0 && r in multiset(Wanted(all, p));
        assert r in p.active <==> multiset(p.active)[r] > 0;
      }
    }
  }

  lemma {:induction false} HeadIn<T>(s: seq<T>)
    ensures s == [] || s[0] in s
  {
  }

  lemma {:induction false} FixedOk(numPieces: nat, all: seq<Request>, backlog: nat, p: Peer, p': Peer)
    requires Fixed(all, backlog, p, p') && PeerOk(numPieces, backlog, p) && Distinct(all)
    ensures PeerOk(numPieces, backlog, p')
    ensures forall r :: r in p'.active ==> r in p.active || r in all
    ensures p'.have == p.have && p'.choked == p.choked && p'.gotAnything == p.gotAnything && Standing(p') == Standing(p)
  {
    hide Distinct, Wanted;
    FixedActive(all, backlog, p, p');
    if !p.gotAnything {
      WantedIs(all, p);
      assert forall r: Request :: !Has(p, r.index);
      HeadIn(Wanted(all, p));
    }
  }

  ghost predicate Among(active: seq<Request>, all: seq<Request>)
  {
    forall r :: r in active ==> r in all
  }

  ghost predicate AllAmong(downloads: seq<Peer>, all: seq<Request>)
  {
    forall k :: 0 <= k < |downloads| ==> Among(downloads[k].active, all)
  }

  // --- Keeping the peers at work in endgame ---

  ghost predicate CanGive(all: seq<Request>, p: Peer)
  {
    exists r :: r in all && Has(p, r.index)
  }

  /** Between events, in endgame, where `all` is outstanding: an unchoked peer is asked for as much as the backlog allows
      or for all of it that it can give, and marked only if it is asked for something; a choked one is marked exactly
      if it can give some of it. */
  ghost predicate Busy(all: seq<Request>, backlog: nat, p: Peer)
  {
    if p.choked then p.interested <==> CanGive(all, p)
    else
      && (p.active == [] ==> !p.interested)
      && (|p.active| >= backlog || forall r :: r in all && Has(p, r.index) ==> r in p.active)
  }

  ghost predicate AllBusy(all: seq<Request>, backlog: nat, downloads: seq<Peer>)
  {
    forall k :: 0 <= k < |downloads| ==> Busy(all, backlog, downloads[k])
  }

  lemma {:induction false} AllBusyIs(all: seq<Request>, backlog: nat, downloads: seq<Peer>)
    ensures AllBusy(all, backlog, downloads) <==> forall k :: 0 <= k < |downloads| ==> Busy(all, backlog, downloads[k])
  {
  }

  lemma {:induction false} BusyIs(all: seq<Request>, backlog: nat, p: Peer)
    requires Busy(all, backlog, p)
    ensures p.choked ==> (p.interested <==> exists r :: r in all && Has(p, r.index))
    ensures !p.choked ==>
      && (p.active == [] ==> !p.interested)
      && (|p.active| >= backlog || forall r :: r in all && Has(p, r.index) ==> r in p.active)
  {
  }

  /** `fix_download_endgame` leaves its peer at work. */
  lemma {:induction false} FixedBusy(numPieces: nat, all: seq<Request>, backlog: nat, p: Peer, p': Peer)
    requires Fixed(all, backlog, p, p') && PeerOk(numPieces, backlog, p) && 0 < backlog
    ensures Busy(all, backlog, p') && p.active <= p'.active
  {
    hide Distinct, Wanted;
    var want := Wanted(all, p);
    WantedIs(all, p);
    HeadIn(want);
    if p.choked {
      assert p.active == [];
      assert CanGive(all, p) ==> want != [];
      assert want != [] ==> Has(p, want[0].index);
      assert p'.have == p.have;
    } else if !(p.interested && p.active == [] && want == []) {
      var added := p'.active[|p.active|..];
      assert p'.active == p.active + added;
      if |p'.active| < backlog {
        SameSizeSame(added, want);
      }
    }
  }

  lemma {:induction false} SameSizeSame<T>(a: seq<T>, b: seq<T>)
    requires multiset(a) <= multiset(b) && |a| == |b|
    ensures forall x :: x in b ==> x in a
  {
    var rest := multiset(b) - multiset(a);
    assert multiset(b) == multiset(a) + rest;
    assert |rest| == 0;
    assert rest == multiset{};
    assert forall x :: x in b <==> x in multiset(b);
  }

  /** A peer that has the block no more on its list, or never needed it, is as busy when it came in. */
  lemma {:induction false} BusyLess(all: seq<Request>, all': seq<Request>, backlog: nat, p: Peer)
    requires Busy(all, backlog, p) && (!p.choked || !p.interested) && forall r :: r in all' ==> r in all
    ensures Busy(all', backlog, p)
  {
  }

  lemma {:induction false} BusyFull(all: seq<Request>, backlog: nat, p: Peer)
    requires !p.choked && 0 < backlog <= |p.active|
    ensures Busy(all, backlog, p)
  {
  }

  lemma {:induction false} BusyChokes(numPieces: nat, all: seq<Request>, backlog: nat, p: Peer)
    requires Busy(all, backlog, p) && PeerOk(numPieces, backlog, p) && !p.choked && Among(p.active, all) && 0 < backlog
    ensures Busy(all, backlog, p.(choked := true, active := []))
  {
    hide Distinct;
    var q := p.(choked := true, active := []);
    if p.active != [] {
      HeadIn(p.active);
      assert p.active[0] in all && Has(q, p.active[0].index);
    }
    assert forall r: Request :: Has(q, r.index) == Has(p, r.index);
  }

  lemma {:induction false} BusyUnchokes(numPieces: nat, all: seq<Request>, backlog: nat, p: Peer)
    requires Busy(all, backlog, p) && PeerOk(numPieces, backlog, p) && p.choked && !p.interested
    ensures Busy(all, backlog, p.(choked := false))
  {
    hide Distinct;
    var q := p.(choked := false);
    assert forall r: Request :: Has(q, r.index) == Has(p, r.index);
  }

  /** With nothing outstanding what a peer has does not matter. */
  lemma {:induction false} BusyWithNothing(backlog: nat, p: Peer, have: seq<bool>, gotAnything: bool)
    requires Busy([], backlog, p)
    ensures Busy([], backlog, p.(have := have, gotAnything := gotAnything))
  {
  }

  lemma {:induction false} BusyHeard(all: seq<Request>, backlog: nat, p: Peer)
    requires Busy(all, backlog, p)
    ensures Busy(all, backlog, p.(gotAnything := true))
  {
    var q := p.(gotAnything := true);
    assert forall r: Request :: Has(q, r.index) == Has(p, r.index);
  }

  lemma {:induction false} BusyNew(all: seq<Request>, backlog: nat, numPieces: nat)
    ensures Busy(all, backlog, NewPeer(numPieces))
  {
  }

  lemma {:induction false} BusyUpdate(all: seq<Request>, backlog: nat, downloads: seq<Peer>, k: nat, p: Peer)
    requires k < |downloads| && Busy(all, backlog, p)
    requires forall j :: 0 <= j < |downloads| && j != k ==> Busy(all, backlog, downloads[j])
    ensures AllBusy(all, backlog, downloads[k := p])
  {
    hide Busy;
  }

  lemma {:induction false} BusyWith(all: seq<Request>, backlog: nat, downloads: seq<Peer>, p: Peer)
    requires AllBusy(all, backlog, downloads) && Busy(all, backlog, p)
    ensures AllBusy(all, backlog, downloads + [p])
  {
    hide Busy;
  }

  lemma {:induction false} BusyWithout(all: seq<Request>, backlog: nat, downloads: seq<Peer>, k: nat)
    requires k < |downloads| && AllBusy(all, backlog, downloads)
    ensures AllBusy(all, backlog, downloads[..k] + downloads[k + 1..])
  {
    hide Busy;
  }

  /** With nothing unrequested, nobody is alerted. */
  lemma {:induction false} AlertedNone(books: Ledger, lost: seq<nat>, downloads: seq<Peer>, downloads': seq<Peer>)
    requires |downloads'| == |downloads| && forall i: nat :: !HasRequests(books, i)
    requires forall j :: 0 <= j < |downloads| ==> Alerted(books, lost, downloads[j], downloads'[j])
    ensures downloads' == downloads
  {
    hide HasRequests;
    forall j | 0 <= j < |downloads|
      ensures downloads'[j] == downloads[j]
    {
      assert Alerted(books, lost, downloads[j], downloads'[j]);
    }
  }

  /** Every piece that is cut into requests is under way, and none that is complete. */
  ghost predicate Begun(books: Ledger, started: seq<nat>)
  {
    && (forall i: nat :: i < |books.inactive| && books.inactive[i].Pending? ==> i in started)
    && (forall i :: i in started ==> i < |books.inactive| && !books.inactive[i].Complete?)
  }

  lemma {:induction false} BegunIs(books: Ledger, started: seq<nat>)
    ensures Begun(books, started) <==>
      && (forall i: nat :: i < |books.inactive| && books.inactive[i].Pending? ==> i in started)
      && (forall i :: i in started ==> i < |books.inactive| && !books.inactive[i].Complete?)
  {
  }

  lemma {:induction false} BegunMore(g: Geometry, books: Ledger, started: seq<nat>, i: nat, started': seq<nat>)
    requires Begun(books, started) && Sized(g, books) && i < g.numPieces && Opened(g, books.inactive[i], i) != []
    requires started' == if i in started then started else started + [i]
    ensures Begun(NewRequest(g, books, i).0, started')
  {
    hide Tile;
  }

  lemma {:induction false} BegunLost(g: Geometry, books: Ledger, started: seq<nat>, i: nat, s: Slice)
    requires Begun(books, started) && Sized(g, books) && i < g.numPieces && books.inactive[i].Pending?
    ensures Begun(RequestLost(g, books, i, s), started)
  {
  }

  lemma {:induction false} BegunArrived(g: Geometry, books: Ledger, started: seq<nat>, i: nat, good: bool)
    requires Begun(books, started) && Sized(g, books) && i < g.numPieces && books.inactive[i].Pending?
    ensures i in started
    ensures !(good && LastBlock(books, i)) ==> Begun(Arrived(g, books, i, good), started)
    ensures good && LastBlock(books, i) && NoDuplicates(started) ==>
      Begun(Arrived(g, books, i, good), Without(started, i))
  {
    hide PieceLen, LastBlock;
    if NoDuplicates(started) {
      WithoutIs(started, i);
    }
  }

  // --- Which blocks are asked for ---

  /** What `new_request` makes of the books, and the request. */
  ghost function Handed(g: Geometry, books: Ledger, i: nat): (Ledger, Request)
  {
    if Sized(g, books) && i < g.numPieces && Opened(g, books.inactive[i], i) != [] then
      var (after, s) := NewRequest(g, books, i);
      (after, At(i, s))
    else (books, Request(i, 0, 0))
  }

  ghost predicate FirstWanted(books: Ledger, p: Peer, s: seq<nat>, x: nat)
  {
    exists k :: 0 <= k < |s| && s[k] == x && forall j :: 0 <= j < k ==> !Want(books, p, s[j])
  }

  /** What the picker may choose for a peer: of the wanted pieces under way a least common one; if there is none, past
      the cutoff a least common one of all, the first such of its bucket, and before it the first of the scrambled
      order. A piece is as common as the number of connected peers that have it. */
  ghost predicate Picked(books: Ledger, downloads: seq<Peer>, order: Order, p: Peer, i: nat)
  {
    var pool := if IsSeed(p) then order.seedstarted else order.started;
    && Want(books, p, i)
    && if exists s :: s in pool && Want(books, p, s) then
         i in pool && forall s :: s in pool && Want(books, p, s) ==> HaveCount(downloads, i) <= HaveCount(downloads, s)
       else if order.past then
         && (forall s: nat :: Want(books, p, s) ==> HaveCount(downloads, i) <= HaveCount(downloads, s))
         && HaveCount(downloads, i) < |order.interests|
         && FirstWanted(books, p, order.interests[HaveCount(downloads, i)], i)
       else FirstWanted(books, p, order.scrambled, i)
  }

  /** What `_request_more` may choose: of `indices` the first wanted one, or what the picker may choose. */
  ghost predicate Chosen(books: Ledger, downloads: seq<Peer>, order: Order, indices: Option<seq<nat>>, p: Peer, i: nat)
  {
    if indices.None? then Picked(books, downloads, order, p, i)
    else Want(books, p, i) && FirstWanted(books, p, indices.value, i)
  }

  /** The books after the requests `taken`, one after the other. */
  ghost function BooksAfter(g: Geometry, books: Ledger, taken: seq<Request>): Ledger
  {
    if taken == [] then books else Handed(g, BooksAfter(g, books, taken[..|taken| - 1]), taken[|taken| - 1].index).0
  }

  /** What the choice goes by after them. */
  ghost function OrderAfter(order: Order, seed: bool, taken: seq<Request>): Order
  {
    if taken == [] then order
    else Noted(OrderAfter(order, seed, taken[..|taken| - 1]), taken[|taken| - 1].index, seed)
  }

  /** Each request in turn is for the least block left of a piece that may be chosen at that moment. */
  ghost predicate Rightly(g: Geometry, books: Ledger, downloads: seq<Peer>, order: Order, indices: Option<seq<nat>>,
                          p: Peer, taken: seq<Request>)
    decreases |taken|
  {
    taken == [] ||
    var front, r := taken[..|taken| - 1], taken[|taken| - 1];
    && Rightly(g, books, downloads, order, indices, p, front)
    && Chosen(BooksAfter(g, books, front), downloads, OrderAfter(order, IsSeed(p), front), indices, p, r.index)
    && r == Handed(g, BooksAfter(g, books, front), r.index).1
  }

  lemma {:induction false} RightlyStart(g: Geometry, books: Ledger, downloads: seq<Peer>, order: Order,
                                        indices: Option<seq<nat>>, p: Peer)
    ensures Rightly(g, books, downloads, order, indices, p, [])
    ensures BooksAfter(g, books, []) == books && OrderAfter(order, IsSeed(p), []) == order
  {
  }

  lemma {:induction false} RightlyMore(g: Geometry, books: Ledger, downloads: seq<Peer>, order: Order,
                                       indices: Option<seq<nat>>, p: Peer, taken: seq<Request>, r: Request)
    requires Rightly(g, books, downloads, order, indices, p, taken)
    requires var b := BooksAfter(g, books, taken);
      Chosen(b, downloads, OrderAfter(order, IsSeed(p), taken), indices, p, r.index) && r == Handed(g, b, r.index).1
    ensures Rightly(g, books, downloads, order, indices, p, taken + [r])
    ensures BooksAfter(g, books, taken + [r]) == Handed(g, BooksAfter(g, books, taken), r.index).0
    ensures OrderAfter(order, IsSeed(p), taken + [r]) == Noted(OrderAfter(order, IsSeed(p), taken), r.index, IsSeed(p))
  {
    hide Chosen, Handed, Noted;
    assert (taken + [r])[..|taken + [r]| - 1] == taken;
  }

  lemma {:induction false} HandedIs(g: Geometry, books: Ledger, i: nat)
    requires Sized(g, books) && i < g.numPieces && Opened(g, books.inactive[i], i) != []
    ensures var (after, s) := NewRequest(g, books, i);
      Handed(g, books, i) == (after, At(i, s)) && Handed(g, books, i).1.index == i
  {
  }

  /** What the picker answers is what it may choose. */
  lemma {:induction false} PickedFrom(numPieces: nat, backlog: nat, books: Ledger, downloads: seq<Peer>, num: Counts,
                                      order: Order, k: nat, want: nat -> bool, i: nat)
    requires SwarmOk(numPieces, backlog, books, downloads, num) && k < |downloads| && i < |num|
    requires (forall j: nat :: want(j) <==> Want(books, downloads[k], j)) && want(i)
    requires forall j: nat :: want(j) ==> j < |num| && num[j].Some? && num[j] != Some(0)
    requires var pool := if IsSeed(downloads[k]) then order.seedstarted else order.started;
      if exists j :: j in pool && want(j) then
        i in pool && forall j :: j in pool && want(j) ==> num[i].value <= num[j].value
      else if order.past then
        && num[i].value < |order.interests| && First(order.interests[num[i].value], want, i)
        && forall j: nat :: want(j) && num[j].value > 0 ==> num[i].value <= num[j].value
      else First(order.scrambled, want, i)
    ensures Picked(books, downloads, order, downloads[k], i)
  {
    hide Want, HaveCount, PeersOk, IsSeed;
    forall j: nat | want(j)
      ensures num[j] == Some(HaveCount(downloads, j))
    {
    }
    forall s: seq<nat> | First(s, want, i)
      ensures FirstWanted(books, downloads[k], s, i)
    {
      FirstIsWanted(books, downloads[k], s, want, i);
    }
  }

  lemma {:induction false} PickedIs(books: Ledger, downloads: seq<Peer>, order: Order, p: Peer, i: nat)
    requires Picked(books, downloads, order, p, i)
    ensures Want(books, p, i)
  {
  }

  lemma {:induction false} FirstIsWanted(books: Ledger, p: Peer, s: seq<nat>, want: nat -> bool, x: nat)
    requires First(s, want, x) && forall j: nat :: want(j) <==> Want(books, p, j)
    ensures FirstWanted(books, p, s, x)
  {
  }

  lemma {:induction false} ChosenPicked(books: Ledger, downloads: seq<Peer>, order: Order, p: Peer, i: nat)
    requires Picked(books, downloads, order, p, i)
    ensures Chosen(books, downloads, order, None, p, i)
  {
  }

  lemma {:induction false} ChosenFirst(books: Ledger, downloads: seq<Peer>, order: Order, s: seq<nat>, p: Peer, m: nat)
    requires m < |s| && Want(books, p, s[m]) && forall j :: 0 <= j < m ==> !Want(books, p, s[j])
    ensures Chosen(books, downloads, order, Some(s), p, s[m])
  {
  }

  lemma {:induction false} ChosenIs(books: Ledger, downloads: seq<Peer>, order: Order, indices: Option<seq<nat>>, p: Peer,
                                    i: nat)
    requires Chosen(books, downloads, order, indices, p, i)
    ensures Want(books, p, i) && (indices.Some? ==> i in indices.value)
  {
  }

  /** Choosing goes by what peers have, and by nothing else of them. */
  lemma {:induction false} ChosenSame(books: Ledger, downloads: seq<Peer>, downloads': seq<Peer>, order: Order,
                                      indices: Option<seq<nat>>, p: Peer, p': Peer, i: nat)
    requires |downloads'| == |downloads| && forall k :: 0 <= k < |downloads| ==> downloads'[k].have == downloads[k].have
    requires p'.have == p.have && Chosen(books, downloads, order, indices, p, i)
    ensures Chosen(books, downloads', order, indices, p', i)
  {
    hide HaveCount, HasRequests;
    forall j: nat
      ensures HaveCount(downloads', j) == HaveCount(downloads, j)
    {
      HaveCountSame(downloads, downloads', j);
    }
    assert IsSeed(p') == IsSeed(p);
    assert forall j: nat :: Want(books, p', j) == Want(books, p, j);
  }

  /** What a peer is newly asked for, from `books` to `books'`, is chosen so; when that was the last there is to ask for,
      endgame adds to it. */
  ghost predicate Asks(g: Geometry, books: Ledger, books': Ledger, downloads: seq<Peer>, order: Order,
                       indices: Option<seq<nat>>, p: Peer, p': Peer)
  {
    exists taken :: Rightly(g, books, downloads, order, indices, p, taken) && books' == BooksAfter(g, books, taken)
                    && p.active + taken <= p'.active && (!books'.endgame ==> p'.active == p.active + taken)
  }

  lemma {:induction false} AsksFrom(g: Geometry, books: Ledger, books': Ledger, downloads: seq<Peer>, order: Order,
                                    indices: Option<seq<nat>>, p: Peer, p': Peer, taken: seq<Request>)
    requires Rightly(g, books, downloads, order, indices, p, taken) && books' == BooksAfter(g, books, taken)
    requires p.active + taken <= p'.active && (!books'.endgame ==> p'.active == p.active + taken)
    ensures Asks(g, books, books', downloads, order, indices, p, p')
  {
  }

  lemma {:induction false} AsksNothing(g: Geometry, books: Ledger, downloads: seq<Peer>, order: Order,
                                       indices: Option<seq<nat>>, p: Peer)
    ensures Asks(g, books, books, downloads, order, indices, p, p)
  {
    RightlyStart(g, books, downloads, order, indices, p);
    assert p.active + [] == p.active;
  }

  /** Choosing goes by what peers have, and by nothing else of them. */
  lemma {:induction false} RightlySame(g: Geometry, books: Ledger, downloads: seq<Peer>, downloads': seq<Peer>,
                                       order: Order, indices: Option<seq<nat>>, p: Peer, p': Peer, taken: seq<Request>)
    requires |downloads'| == |downloads| && forall k :: 0 <= k < |downloads| ==> downloads'[k].have == downloads[k].have
    requires p'.have == p.have && Rightly(g, books, downloads, order, indices, p, taken)
    ensures Rightly(g, books, downloads', order, indices, p', taken)
    decreases |taken|
  {
    hide Chosen, Handed, Noted, BooksAfter, OrderAfter;
    if taken != [] {
      var front, r := taken[..|taken| - 1], taken[|taken| - 1];
      RightlySame(g, books, downloads, downloads', order, indices, p, p', front);
      SameSeed(p, p');
      ChosenSame(BooksAfter(g, books, front), downloads, downloads', OrderAfter(order, IsSeed(p), front), indices, p, p',
                 r.index);
    }
  }

  lemma {:induction false} AsksSame(g: Geometry, books: Ledger, books': Ledger, downloads: seq<Peer>,
                                    downloads': seq<Peer>, order: Order, indices: Option<seq<nat>>, p: Peer, q: Peer,
                                    p': Peer)
    requires |downloads'| == |downloads| && forall k :: 0 <= k < |downloads| ==> downloads'[k].have == downloads[k].have
    requires q.have == p.have && q.active == p.active && Asks(g, books, books', downloads, order, indices, p, p')
    ensures Asks(g, books, books', downloads', order, indices, q, p')
  {
    hide Rightly, BooksAfter;
    var taken :| Rightly(g, books, downloads, order, indices, p, taken) && books' == BooksAfter(g, books, taken)
                 && p.active + taken <= p'.active && (!books'.endgame ==> p'.active == p.active + taken);
    RightlySame(g, books, downloads, downloads', order, indices, p, q, taken);
  }

  /** Peer `k` is newly asked for blocks among `indices` only, and the others for nothing new. */
  ghost predicate OnlyAsked(indices: Option<seq<nat>>, downloads: seq<Peer>, downloads': seq<Peer>, k: nat)
  {
    && k < |downloads| == |downloads'| && OnlyFor(indices, downloads[k], downloads'[k])
    && forall j :: 0 <= j < |downloads| && j != k ==> downloads'[j].active == downloads[j].active
  }

  lemma {:induction false} MoreIsOnly(books: Ledger, books': Ledger, backlog: nat, indices: Option<seq<nat>>,
                                      downloads: seq<Peer>, downloads': seq<Peer>, k: nat)
    requires More(books, books', backlog, indices, downloads, downloads', k)
    ensures OnlyAsked(indices, downloads, downloads', k)
  {
    hide Eased, WantsSome, Want, OnlyFor;
    assert forall j :: 0 <= j < |downloads| && j != k ==> Rechecked(books, books', downloads[j], downloads'[j]);
  }

  lemma {:induction false} NobodyAsked(indices: Option<seq<nat>>, downloads: seq<Peer>, downloads': seq<Peer>, k: nat)
    requires k < |downloads| == |downloads'| && downloads' == downloads[k := downloads'[k]]
    requires downloads'[k].active == downloads[k].active
    ensures OnlyAsked(indices, downloads, downloads', k)
  {
  }

  lemma {:induction false} OnlyAskedSame(indices: Option<seq<nat>>, downloads: seq<Peer>, before: seq<Peer>,
                                         downloads': seq<Peer>, k: nat)
    requires OnlyAsked(indices, downloads, downloads', k) && |before| == |downloads|
    requires downloads == before[k := downloads[k]]
    requires downloads[k].active == before[k].active
    ensures OnlyAsked(indices, before, downloads', k)
  {
  }

  lemma {:induction false} SameHaves(downloads: seq<Peer>, downloads': seq<Peer>, k: nat)
    requires k < |downloads| == |downloads'| && downloads' == downloads[k := downloads'[k]]
    requires downloads'[k].have == downloads[k].have
    ensures forall j :: 0 <= j < |downloads| ==> downloads[j].have == downloads'[j].have
  {
  }

  lemma {:induction false} SameSeed(p: Peer, q: Peer)
    requires p.have == q.have
    ensures IsSeed(p) == IsSeed(q)
  {
  }

  // --- The state of all peers ---

  ghost predicate SwarmOk(numPieces: nat, backlog: nat, books: Ledger, downloads: seq<Peer>, num: Counts)
  {
    && |books.inactive| == numPieces && 0 < backlog && |downloads| < BEST_START
    && PeersOk(numPieces, backlog, downloads)
    && CountsAgree(books, downloads, num)
  }

  lemma {:induction false} SwarmParts(numPieces: nat, backlog: nat, books: Ledger, downloads: seq<Peer>, num: Counts)
    requires SwarmOk(numPieces, backlog, books, downloads, num)
    ensures |books.inactive| == |num| == numPieces && 0 < backlog && |downloads| < BEST_START
    ensures PeersOk(numPieces, backlog, downloads) && CountsAgree(books, downloads, num)
    ensures forall k :: 0 <= k < |downloads| ==> PeerOk(numPieces, backlog, downloads[k])
  {
  }

  /** One peer changed, but not what it has, and no piece was completed. */
  lemma {:induction false} SwarmUpdate(numPieces: nat, backlog: nat, books: Ledger, books': Ledger,
                                       downloads: seq<Peer>, num: Counts, k: nat, p: Peer)
    requires SwarmOk(numPieces, backlog, books, downloads, num) && SameComplete(books, books') && k < |downloads|
    requires PeerOk(numPieces, backlog, p) && p.have == downloads[k].have
    ensures SwarmOk(numPieces, backlog, books', downloads[k := p], num)
  {
    hide PeerOk, Has, HaveCount;
    forall i: nat
      ensures HaveCount(downloads[k := p], i) == HaveCount(downloads, i)
    {
      HaveCountSame(downloads, downloads[k := p], i);
    }
  }

  lemma {:induction false} SwarmBooks(numPieces: nat, backlog: nat, books: Ledger, books': Ledger, downloads: seq<Peer>,
                                      num: Counts)
    requires SwarmOk(numPieces, backlog, books, downloads, num) && SameComplete(books, books')
    ensures SwarmOk(numPieces, backlog, books', downloads, num)
  {
    hide PeerOk, HaveCount;
  }

  lemma {:induction false} PeerIs(numPieces: nat, backlog: nat, p: Peer)
    ensures PeerOk(numPieces, backlog, p) <==>
      && |p.have| == numPieces
      && Distinct(p.active) && |p.active| <= backlog
      && (p.active != [] ==> p.interested && !p.choked)
      && (forall r :: r in p.active ==> Has(p, r.index))
      && (p.example.Some? ==> Has(p, p.example.value))
      && (!p.gotAnything ==> p.choked && !p.interested && forall i :: 0 <= i < |p.have| ==> !p.have[i])
  {
  }

  /** Setting the marks of a peer that is asked for nothing, or setting the mark of one that has something. */
  lemma {:induction false} PeerMarked(numPieces: nat, backlog: nat, p: Peer, interested: bool, example: Option<nat>)
    requires PeerOk(numPieces, backlog, p)
    requires interested || p.active == [] || !p.interested
    requires interested ==> p.interested || exists i: nat :: Has(p, i)
    requires example.Some? ==> example == p.example || Has(p, example.value)
    ensures PeerOk(numPieces, backlog, p.(interested := interested, example := example))
  {
  }

  /** One more request for an unchoked peer. */
  lemma {:induction false} PeerAsked(numPieces: nat, backlog: nat, p: Peer, i: nat, r: Request)
    requires PeerOk(numPieces, backlog, p) && !p.choked && |p.active| < backlog
    requires Has(p, i) && r.index == i && r !in p.active
    ensures PeerOk(numPieces, backlog, p.(interested := true, example := Some(i), active := p.active + [r]))
  {
    forall q: Request
      ensures multiset(p.active + [r])[q] <= 1
    {
      assert multiset(p.active)[q] <= 1;
      assert r !in multiset(p.active);
    }
  }

  lemma {:induction false} PeerAnswered(numPieces: nat, backlog: nat, p: Peer, r: Request)
    requires PeerOk(numPieces, backlog, p) && r in p.active
    ensures p.interested && !p.choked
    ensures PeerOk(numPieces, backlog, p.(active := Removed(p.active, r)))
    ensures r !in Removed(p.active, r) && forall q :: q in Removed(p.active, r) ==> q in p.active
  {
    var left := Removed(p.active, r);
    forall q: Request
      ensures multiset(left)[q] <= 1 && (q in left ==> q in p.active)
    {
      assert multiset(p.active)[q] <= 1;
      assert q in left <==> q in multiset(left);
    }
    assert multiset(p.active)[r] == 1 && r !in multiset(left);
  }

  /** A request that is not outstanding is asked of nobody. */
  lemma {:induction false} NotAsked(out: seq<Request>, downloads: seq<Peer>, r: Request, k: nat)
    requires multiset(out) == multiset(Flatten(downloads)) && multiset(out)[r] == 0 && k < |downloads|
    ensures r !in downloads[k].active
  {
    assert r !in multiset(Flatten(downloads));
    assert r !in Flatten(downloads);
    if r in downloads[k].active {
      FlattenMember(downloads, k, r);
    }
  }

  // --- Keeping the peers at work ---

  /** Between events, before endgame, but for the pieces `lost`: a choked peer that has something to give is marked
      interesting, and an unchoked one is asked for as much as the backlog allows. */
  ghost predicate Served(books: Ledger, backlog: nat, lost: seq<nat>, p: Peer)
  {
    (if p.choked then p.interested else |p.active| >= backlog) || forall i: nat :: Want(books, p, i) ==> i in lost
  }

  /** No choked peer is marked interesting in vain, but for the pieces `lost`. */
  ghost predicate Hopeful(books: Ledger, lost: seq<Request>, p: Peer)
  {
    p.choked && p.interested ==> WantsSome(books, p) || exists r :: r in lost && Has(p, r.index)
  }

  /** No unchoked one is either. */
  ghost predicate Idle(p: Peer)
  {
    !p.choked && p.active == [] ==> !p.interested
  }

  ghost predicate Settled(books: Ledger, p: Peer)
  {
    Hopeful(books, [], p) && Idle(p)
  }

  /** Everybody is, but for those in `late`. */
  ghost predicate AllServed(books: Ledger, backlog: nat, lost: seq<nat>, downloads: seq<Peer>, late: set<nat>)
  {
    forall k :: 0 <= k < |downloads| && k !in late ==> Served(books, backlog, lost, downloads[k])
  }

  ghost predicate AllHopeful(books: Ledger, lost: seq<Request>, downloads: seq<Peer>)
  {
    forall k :: 0 <= k < |downloads| ==> Hopeful(books, lost, downloads[k])
  }

  ghost predicate AllSettled(books: Ledger, downloads: seq<Peer>)
  {
    forall k :: 0 <= k < |downloads| ==> Settled(books, downloads[k])
  }

  /** Requests only went: no piece has one to give that had none. */
  ghost predicate Eased(books: Ledger, books': Ledger)
  {
    |books'.inactive| == |books.inactive| && forall i: nat :: HasRequests(books', i) ==> HasRequests(books, i)
  }

  lemma {:induction false} EasedSelf(books: Ledger)
    ensures Eased(books, books)
  {
  }

  lemma {:induction false} MoreEases(books: Ledger, books': Ledger, backlog: nat, indices: Option<seq<nat>>,
                                     downloads: seq<Peer>, downloads': seq<Peer>, k: nat)
    requires More(books, books', backlog, indices, downloads, downloads', k)
    ensures Eased(books, books')
  {
  }

  lemma {:induction false} EasedTransitive(a: Ledger, b: Ledger, c: Ledger)
    requires Eased(a, b) && Eased(b, c)
    ensures Eased(a, c)
  {
  }

  /** What handing out requests, from `books` to `books'`, does to the peers that were not asked: an idle one that can
      no longer give anything loses the mark. */
  ghost predicate Rechecked(books: Ledger, books': Ledger, p: Peer, p': Peer)
  {
    && p' == p.(interested := p'.interested, example := p'.example)
    && (p'.interested ==> p.interested)
    && (p.interested && (p.active != [] || WantsSome(books', p)) ==> p'.interested)
    && (p'.interested && p.active == [] && WantsSome(books, p) ==> WantsSome(books', p))
    && (p'.example.Some? ==> p'.example == p.example || Has(p, p'.example.value))
  }

  lemma {:induction false} RecheckedOk(numPieces: nat, backlog: nat, books: Ledger, books': Ledger, p: Peer, p': Peer)
    requires Rechecked(books, books', p, p') && PeerOk(numPieces, backlog, p)
    ensures PeerOk(numPieces, backlog, p') && p'.have == p.have && p'.active == p.active && p'.choked == p.choked
  {
    hide WantsSome;
    PeerMarked(numPieces, backlog, p, p'.interested, p'.example);
  }

  lemma {:induction false} RecheckedServed(books: Ledger, books': Ledger, p: Peer, p': Peer, backlog: nat,
                                           lost: seq<nat>)
    requires Rechecked(books, books', p, p') && Eased(books, books') && Served(books, backlog, lost, p)
    ensures Served(books', backlog, lost, p')
  {
    if p.choked && p.interested && !p'.interested {
      assert !WantsSome(books', p);
      forall i: nat
        ensures !Want(books', p', i)
      {
        assert Want(books', p, i) == Want(books', p', i);
      }
    } else {
      assert forall i: nat :: Want(books', p', i) ==> Want(books, p, i);
    }
  }

  lemma {:induction false} RecheckedSettled(books: Ledger, books': Ledger, p: Peer, p': Peer)
    requires Rechecked(books, books', p, p') && (p.active != [] ==> !p.choked)
    ensures Hopeful(books, [], p) ==> Hopeful(books', [], p')
    ensures Idle(p) ==> Idle(p')
  {
    if Hopeful(books, [], p) && p'.choked && p'.interested {
      assert WantsSome(books', p);
      var i: nat :| Want(books', p, i);
      assert Want(books', p', i);
    }
  }

  /** What `_request_more` of peer `k` does before endgame. */
  ghost predicate More(books: Ledger, books': Ledger, backlog: nat, indices: Option<seq<nat>>, downloads: seq<Peer>,
                       downloads': seq<Peer>, k: nat)
  {
    && k < |downloads| == |downloads'| && Eased(books, books')
    && (forall j :: 0 <= j < |downloads| && j != k ==> Rechecked(books, books', downloads[j], downloads'[j]))
    && Topped(books', backlog, indices, downloads[k], downloads'[k])
  }

  /** What is new was asked for pieces among `indices` only. */
  ghost predicate OnlyFor(indices: Option<seq<nat>>, p: Peer, p': Peer)
  {
    indices.Some? ==> forall r :: r in p'.active ==> r in p.active || r.index in indices.value
  }

  /** Asked up to the backlog, or for all it has to give among `indices`. */
  ghost predicate Topped(books': Ledger, backlog: nat, indices: Option<seq<nat>>, p: Peer, p': Peer)
  {
    && p' == p.(active := p'.active, interested := p'.interested, example := p'.example)
    && |p'.active| >= |p.active| && Idle(p') && OnlyFor(indices, p, p')
    && (|p'.active| >= backlog || forall i: nat :: Want(books', p', i) ==> indices.Some? && i !in indices.value)
  }

  lemma {:induction false} ToppedServed(books: Ledger, books': Ledger, backlog: nat, indices: Option<seq<nat>>, p: Peer,
                                        p': Peer)
    requires Topped(books', backlog, indices, p, p') && Eased(books, books') && !p.choked
    requires indices.None? || Served(books, backlog, indices.value, p)
    ensures Served(books', backlog, [], p') && Settled(books', p')
  {
    assert forall i: nat :: Want(books', p', i) ==> Want(books, p, i);
  }

  /** Handing out requests to peer `k` leaves the others as well served and as settled as they were. */
  lemma {:induction false} MoreKeeps(books: Ledger, books': Ledger, backlog: nat, indices: Option<seq<nat>>,
                                     downloads: seq<Peer>, downloads': seq<Peer>, k: nat)
    requires More(books, books', backlog, indices, downloads, downloads', k) && !downloads[k].choked
    requires forall j :: 0 <= j < |downloads| && downloads[j].active != [] ==> !downloads[j].choked
    ensures |downloads'| == |downloads| && Eased(books, books')
    ensures forall j :: 0 <= j < |downloads| ==> downloads'[j].choked == downloads[j].choked
    ensures forall j :: 0 <= j < |downloads| && Hopeful(books, [], downloads[j]) ==> Hopeful(books', [], downloads'[j])
    ensures forall j :: 0 <= j < |downloads| && Idle(downloads[j]) ==> Idle(downloads'[j])
    ensures forall j, lost :: 0 <= j < |downloads| && j != k && Served(books, backlog, lost, downloads[j]) ==>
      Served(books', backlog, lost, downloads'[j])
    ensures indices.None? || Served(books, backlog, indices.value, downloads[k]) ==> Served(books', backlog, [], downloads'[k])
    ensures Settled(books', downloads'[k])
  {
    hide Served, Eased, Rechecked, WantsSome;
    assert Topped(books', backlog, indices, downloads[k], downloads'[k]);
    if indices.None? || Served(books, backlog, indices.value, downloads[k]) {
      ToppedServed(books, books', backlog, indices, downloads[k], downloads'[k]);
    }
    forall j | 0 <= j < |downloads| && j != k
      ensures downloads'[j].choked == downloads[j].choked
      ensures Hopeful(books, [], downloads[j]) ==> Hopeful(books', [], downloads'[j])
      ensures Idle(downloads[j]) ==> Idle(downloads'[j])
      ensures forall lost :: Served(books, backlog, lost, downloads[j]) ==> Served(books', backlog, lost, downloads'[j])
    {
      assert Rechecked(books, books', downloads[j], downloads'[j]);
      RecheckedIs(books, books', downloads[j], downloads'[j]);
      RecheckedSettled(books, books', downloads[j], downloads'[j]);
      forall lost | Served(books, backlog, lost, downloads[j])
        ensures Served(books', backlog, lost, downloads'[j])
      {
        RecheckedServed(books, books', downloads[j], downloads'[j], backlog, lost);
      }
    }
  }

  lemma {:induction false} RecheckedIs(books: Ledger, books': Ledger, p: Peer, p': Peer)
    requires Rechecked(books, books', p, p')
    ensures p' == p.(interested := p'.interested, example := p'.example) && p'.choked == p.choked
  {
  }

  lemma {:induction false} WantIs(books: Ledger, p: Peer, i: nat)
    ensures Want(books, p, i) <==> Has(p, i) && HasRequests(books, i)
    ensures Has(p, i) ==> i < |p.have|
    ensures HasRequests(books, i) ==> i < |books.inactive| && !books.inactive[i].Complete?
  {
  }

  /** A wanted piece is counted, as the picker needs it. */
  lemma {:induction false} WantedIsCounted(numPieces: nat, backlog: nat, books: Ledger, downloads: seq<Peer>,
                                           num: Counts, k: nat, i: nat)
    requires SwarmOk(numPieces, backlog, books, downloads, num) && k < |downloads|
    ensures |num| == numPieces
    ensures Want(books, downloads[k], i) ==> i < numPieces && num[i].Some? && num[i] != Some(0)
  {
    hide PeerOk;
    if Want(books, downloads[k], i) {
      HaveCountPositive(downloads, k, i);
    }
  }

  lemma {:induction false} NewRequestRequests(g: Geometry, l: Ledger, i: nat)
    requires Sized(g, l) && i < g.numPieces && Opened(g, l.inactive[i], i) != [] && HasRequests(l, i)
    ensures var l' := NewRequest(g, l, i).0;
      && Eased(l, l') && (forall j: nat :: j != i ==> (HasRequests(l', j) <==> HasRequests(l, j)))
      && (l'.endgame ==> l.endgame || l'.amountInactive == 0) && (l.endgame ==> l'.endgame)
  {
    hide Tile, Least, Removed;
  }

  lemma {:induction false} SharedAfterAsking(out: seq<Request>, flat: seq<Request>, flat': seq<Request>,
                                             active: seq<Request>, r: Request)
    requires multiset(out) == multiset(flat)
    requires multiset(flat') + multiset(active) == multiset(flat) + multiset(active + [r])
    ensures multiset(out + [r]) == multiset(flat')
  {
    var a, f, f' := multiset(active), multiset(flat), multiset(flat');
    assert multiset(active + [r]) == a + multiset{r};
    assert multiset(out + [r]) == f + multiset{r};
    forall q: Request
      ensures f'[q] == (f + multiset{r})[q]
    {
      assert (f' + a)[q] == (f + (a + multiset{r}))[q];
    }
  }

  /** `lost` has every piece whose requests ran out. */
  ghost predicate Exhausted(books: Ledger, books': Ledger, lost: seq<nat>)
  {
    forall i: nat :: HasRequests(books, i) && !HasRequests(books', i) ==> i in lost
  }

  lemma {:induction false} ExhaustedMore(a: Ledger, b: Ledger, c: Ledger, lost: seq<nat>, i: nat)
    requires Exhausted(a, b, lost) && forall j: nat :: j != i ==> (HasRequests(c, j) <==> HasRequests(b, j))
    ensures Exhausted(a, c, lost + [i])
    ensures HasRequests(c, i) ==> Exhausted(a, c, lost)
  {
  }

  /** A peer need not be looked at again if it is busy, unmarked, or has none of the pieces that ran out. */
  lemma {:induction false} NoRecheck(books: Ledger, books': Ledger, p: Peer, lost: seq<nat>)
    requires p.active != [] || !p.interested || (exists i: nat :: Want(books', p, i)) ||
             (Exhausted(books, books', lost) && forall i :: i in lost ==> !Has(p, i))
    ensures Rechecked(books, books', p, p)
  {
    if p.active == [] && p.interested && WantsSome(books, p) && !exists i: nat :: Want(books', p, i) {
      var i: nat :| Want(books, p, i);
      assert Want(books', p, i);
    }
  }

  /** What the picker says of an idle, marked peer. */
  lemma {:induction false} PickedRecheck(books: Ledger, books': Ledger, p: Peer, pick: Option<nat>)
    requires p.active == [] && p.interested
    requires if pick.Some? then Want(books', p, pick.value) else forall i: nat :: !Want(books', p, i)
    ensures Rechecked(books, books', p, if pick.None? then p.(interested := false) else p.(example := pick))
  {
  }

  /** All requests were handed out by somebody who still has them: nothing is outstanding twice. */
  lemma {:induction false} OutstandingDistinct(g: Geometry, books: Ledger, out: seq<Request>, received: set<Request>,
                                               all: seq<Request>)
    requires Balanced(g, books, out, received) && multiset(all) == multiset(out)
    ensures Distinct(all)
  {
    hide Balanced;
    forall r: Request
      ensures multiset(all)[r] <= 1
    {
      if r in multiset(out) {
        OutstandingOnce(g, books, out, received, r);
      }
    }
  }

  lemma {:induction false} FlattenAmong(downloads: seq<Peer>)
    ensures AllAmong(downloads, Flatten(downloads))
  {
    forall k, r | 0 <= k < |downloads| && r in downloads[k].active
      ensures r in Flatten(downloads)
    {
      FlattenMember(downloads, k, r);
    }
  }

  lemma {:induction false} AmongFixed(all: seq<Request>, backlog: nat, downloads: seq<Peer>, k: nat, p: Peer,
                                      others: seq<Request>)
    requires k < |downloads| && AllAmong(downloads, others) && Fixed(all, backlog, downloads[k], p)
    requires Distinct(all) && Distinct(downloads[k].active)
    requires forall r :: r in all ==> r in others
    ensures AllAmong(downloads[k := p], others)
  {
    hide Fixed, Distinct;
    FixedActive(all, backlog, downloads[k], p);
    assert Among(downloads[k].active, others);
  }

  lemma {:induction false} FlattenSame(downloads: seq<Peer>, downloads': seq<Peer>)
    requires |downloads'| == |downloads| && forall k :: 0 <= k < |downloads| ==> downloads'[k].active == downloads[k].active
    ensures Flatten(downloads') == Flatten(downloads)
    decreases |downloads|
  {
    if downloads != [] {
      FlattenSame(downloads[..|downloads| - 1], downloads'[..|downloads| - 1]);
    }
  }

  lemma {:induction false} ExhaustedStart(books: Ledger)
    ensures Exhausted(books, books, []) && Eased(books, books)
  {
  }

  lemma {:induction false} SameCompleteSelf(books: Ledger)
    ensures SameComplete(books, books)
  {
  }

  lemma {:induction false} FrontPart<T>(was: seq<T>, now: seq<T>, n: nat)
    requires multiset(now) == multiset(was)
    ensures |now| == |was| && (n <= |now| ==> multiset(now[..n]) <= multiset(was))
  {
    assert |multiset(now)| == |now| && |multiset(was)| == |was|;
    if n <= |now| {
      assert now == now[..n] + now[n..];
    }
  }

  lemma {:induction false} FixedFrom(all: seq<Request>, backlog: nat, p: Peer, want: seq<Request>, p': Peer)
    requires |p.active| <= backlog
    requires var w := Wanted(all, p);
      if p.interested && p.active == [] && w == [] then p' == p.(interested := false)
      else if p.choked then p' == p.(interested := p.interested || w != [])
      else (
        && p' == p.(interested := p.interested || w != [], active := p.active + want)
        && multiset(want) <= multiset(w)
        && |want| == if backlog - |p.active| < |w| then backlog - |p.active| else |w|)
    ensures Fixed(all, backlog, p, p')
  {
    assert (p.active + want)[|p.active|..] == want;
  }

  /** What the first loop of `_request_more` leaves of the peer. */
  ghost predicate Taken(books': Ledger, backlog: nat, indices: Option<seq<nat>>, p: Peer, p': Peer)
  {
    && p' == p.(active := p'.active, interested := p'.interested, example := p'.example)
    && |p'.active| >= |p.active| && OnlyFor(indices, p, p')
    && (|p'.active| >= backlog || forall i: nat :: Want(books', p', i) ==> indices.Some? && i !in indices.value)
  }

  lemma {:induction false} OnlyForStart(indices: Option<seq<nat>>, p: Peer)
    ensures OnlyFor(indices, p, p)
  {
  }

  lemma {:induction false} OnlyForMore(indices: Option<seq<nat>>, p: Peer, p': Peer, p'': Peer, i: nat)
    requires OnlyFor(indices, p, p') && forall r :: r in p''.active ==> r in p'.active || r.index == i
    requires indices.Some? ==> i in indices.value
    ensures OnlyFor(indices, p, p'')
  {
  }

  lemma {:induction false} TakenFrom(books': Ledger, backlog: nat, indices: Option<seq<nat>>, p: Peer, p': Peer)
    requires p' == p.(active := p'.active, interested := p'.interested, example := p'.example)
    requires |p'.active| >= |p.active| && OnlyFor(indices, p, p')
    requires |p'.active| >= backlog || forall i: nat :: Want(books', p', i) ==> indices.Some? && i !in indices.value
    ensures Taken(books', backlog, indices, p, p')
  {
  }

  lemma {:induction false} TakenThenIdle(books': Ledger, backlog: nat, indices: Option<seq<nat>>, p: Peer, t: Peer)
    requires Taken(books', backlog, indices, p, t)
    ensures t.choked == p.choked && t.active == t.active
    ensures Topped(books', backlog, indices, p, if t.active == [] && t.interested then t.(interested := false) else t)
  {
    assert forall i: nat :: Want(books', t.(interested := false), i) ==> Want(books', t, i);
  }

  lemma {:induction false} MoreFrom(books: Ledger, books': Ledger, backlog: nat, indices: Option<seq<nat>>,
                                    downloads: seq<Peer>, settled: seq<Peer>, downloads': seq<Peer>, k: nat)
    requires k < |downloads| == |settled| == |downloads'| && Eased(books, books') && !downloads[k].choked
    requires settled == downloads[k := settled[k]] && Topped(books', backlog, indices, downloads[k], settled[k])
    requires forall j :: 0 <= j < |downloads| ==> Rechecked(books, books', settled[j], downloads'[j])
    requires settled[k].active != [] || !settled[k].interested ==> downloads'[k] == settled[k]
    ensures More(books, books', backlog, indices, downloads, downloads', k)
    ensures forall j :: 0 <= j < |downloads| ==>
      downloads'[j].choked == downloads[j].choked && Standing(downloads'[j]) == Standing(downloads[j])
  {
    hide Eased, WantsSome, Want;
  }

  lemma {:induction false} MoreSame(books: Ledger, backlog: nat, indices: Option<seq<nat>>, downloads: seq<Peer>,
                                    k: nat)
    requires k < |downloads| && 0 < |downloads[k].active| && backlog <= |downloads[k].active|
    ensures More(books, books, backlog, indices, downloads, downloads, k)
  {
    NoRecheckAll(books, books, downloads);
  }

  /** No piece ran out: nobody need be looked at. */
  lemma {:induction false} NoRecheckAll(books: Ledger, books': Ledger, downloads: seq<Peer>)
    requires Exhausted(books, books', [])
    ensures forall j :: 0 <= j < |downloads| ==> Rechecked(books, books', downloads[j], downloads[j])
  {
    forall j | 0 <= j < |downloads|
      ensures Rechecked(books, books', downloads[j], downloads[j])
    {
      NoRecheck(books, books', downloads[j], []);
    }
  }

  // --- Waking peers for pieces that have requests again ---

  /** Served for all pieces if in `done`, else for all but `lost`; but for those in `late`. */
  ghost predicate Woken(books: Ledger, backlog: nat, lost: seq<nat>, downloads: seq<Peer>, done: set<nat>,
                        late: set<nat>)
  {
    forall j :: 0 <= j < |downloads| && j !in late ==> Served(books, backlog, if j in done then [] else lost, downloads[j])
  }

  ghost predicate IdleIn(downloads: seq<Peer>, done: set<nat>)
  {
    forall j :: 0 <= j < |downloads| && j in done ==> Idle(downloads[j])
  }

  lemma {:induction false} ServedMore(books: Ledger, backlog: nat, lost: seq<nat>, p: Peer)
    requires Served(books, backlog, [], p)
    ensures Served(books, backlog, lost, p)
  {
  }

  /** What an unchoked peer is offered, and nothing else, when pieces `lost` have requests again; a choked peer gets no
      mark by it. */
  ghost predicate Offered(lost: seq<nat>, p: Peer, p': Peer)
  {
    OnlyFor(Some(lost), p, p') && (p.choked && p'.interested ==> p.interested)
  }

  ghost predicate AllOffered(lost: seq<nat>, downloads: seq<Peer>, downloads': seq<Peer>)
  {
    |downloads'| == |downloads| && forall j :: 0 <= j < |downloads| ==> Offered(lost, downloads[j], downloads'[j])
  }

  lemma {:induction false} OfferedMore(books: Ledger, books': Ledger, backlog: nat, lost: seq<nat>, a: seq<Peer>,
                                       b: seq<Peer>, c: seq<Peer>, k: nat)
    requires AllOffered(lost, a, b) && More(books, books', backlog, Some(lost), b, c, k) && !b[k].choked
    requires forall j :: 0 <= j < |b| ==> b[j].choked == a[j].choked
    ensures AllOffered(lost, a, c)
  {
    hide Eased, Want, WantsSome, Idle;
    forall j | 0 <= j < |a|
      ensures Offered(lost, a[j], c[j])
    {
      assert Offered(lost, a[j], b[j]);
      if j != k {
        assert Rechecked(books, books', b[j], c[j]);
      }
    }
  }

  lemma {:induction false} WakeStart(lost: seq<nat>, downloads: seq<Peer>, ready: set<nat>)
    requires forall j :: 0 <= j < |downloads| && j in ready ==> downloads[j].choked
    ensures IdleIn(downloads, ready) && AllOffered(lost, downloads, downloads)
  {
  }

  lemma {:induction false} WokenFrom(books: Ledger, backlog: nat, lost: seq<nat>, downloads: seq<Peer>, late: set<nat>)
    ensures AllServed(books, backlog, lost, downloads, late) ==> Woken(books, backlog, lost, downloads, {}, late)
  {
  }

  lemma {:induction false} WakeStep(books: Ledger, books': Ledger, backlog: nat, lost: seq<nat>, downloads: seq<Peer>,
                                    downloads': seq<Peer>, k: nat, done: set<nat>, late: set<nat>)
    requires k < |downloads| == |downloads'| && !downloads[k].choked
    requires More(books, books', backlog, Some(lost), downloads, downloads', k)
    requires forall j :: 0 <= j < |downloads| && downloads[j].active != [] ==> !downloads[j].choked
    ensures AllHopeful(books, [], downloads) ==> AllHopeful(books', [], downloads')
    ensures IdleIn(downloads, done) ==> IdleIn(downloads', done + {k})
    ensures Woken(books, backlog, lost, downloads, done, late) ==>
      Woken(books', backlog, lost, downloads', done + {k}, late)
  {
    hide More, Served, Hopeful, Idle, Settled;
    MoreKeeps(books, books', backlog, Some(lost), downloads, downloads', k);
    SettledIs(books', downloads'[k]);
    if Woken(books, backlog, lost, downloads, done, late) && k !in late {
      assert Served(books, backlog, lost, downloads[k]) by {
        if k in done {
          ServedMore(books, backlog, lost, downloads[k]);
        }
      }
    }
  }

  lemma {:induction false} SettledIs(books: Ledger, p: Peer)
    ensures Settled(books, p) <==> Hopeful(books, [], p) && Idle(p)
  {
  }

  lemma {:induction false} WakeEnd(books: Ledger, backlog: nat, lost: seq<nat>, downloads: seq<Peer>, done: set<nat>)
    requires AllHopeful(books, [], downloads) && IdleIn(downloads, done)
    requires forall j :: 0 <= j < |downloads| && !downloads[j].choked ==> j in done
    ensures AllSettled(books, downloads)
  {
  }

  /** The books after requests for the pieces `lost` came back. */
  ghost predicate Reopened(books: Ledger, books': Ledger, lost: seq<nat>)
  {
    forall i: nat :: HasRequests(books', i) <==> HasRequests(books, i) || i in lost
  }

  lemma {:induction false} ReopenedStill(books: Ledger, books': Ledger, backlog: nat, lost: seq<nat>,
                                         dropped: seq<Request>, downloads: seq<Peer>, late: set<nat>)
    requires Reopened(books, books', lost) && forall r :: r in dropped ==> r.index in lost
    ensures AllServed(books, backlog, [], downloads, late) ==> AllServed(books', backlog, lost, downloads, late)
    ensures AllHopeful(books, dropped, downloads) ==> AllHopeful(books', [], downloads)
  {
    if AllHopeful(books, dropped, downloads) {
      forall k | 0 <= k < |downloads| && downloads[k].choked && downloads[k].interested
        ensures WantsSome(books', downloads[k])
      {
        assert Hopeful(books, dropped, downloads[k]);
        if WantsSome(books, downloads[k]) {
          var i: nat :| Want(books, downloads[k], i);
          assert Want(books', downloads[k], i);
        } else {
          var r :| r in dropped && Has(downloads[k], r.index);
          assert Want(books', downloads[k], r.index);
        }
      }
    }
    if AllServed(books, backlog, [], downloads, late) {
      forall k | 0 <= k < |downloads| && k !in late
        ensures Served(books', backlog, lost, downloads[k])
      {
        assert Served(books, backlog, [], downloads[k]);
        assert forall i: nat :: Want(books', downloads[k], i) ==> Want(books, downloads[k], i) || i in lost;
      }
    }
  }

  /** What `request_lost` does to `do_I_have_requests`. */
  lemma {:induction false} LostReopens(g: Geometry, l: Ledger, i: nat, s: Slice)
    requires Sized(g, l) && i < g.numPieces && l.inactive[i].Pending?
    ensures Reopened(l, RequestLost(g, l, i, s), [i]) && SameComplete(l, RequestLost(g, l, i, s))
    ensures RequestLost(g, l, i, s).endgame == l.endgame
  {
  }

  lemma {:induction false} ReopenedTransitive(a: Ledger, b: Ledger, c: Ledger, lost: seq<nat>, i: nat, lost': seq<nat>)
    requires Reopened(a, b, lost) && Reopened(b, c, [i]) && lost' == if i in lost then lost else lost + [i]
    ensures Reopened(a, c, lost')
  {
  }

  /** A choked peer that has something of `lost` to give is marked. */
  ghost predicate Alerted(books: Ledger, lost: seq<nat>, p: Peer, p': Peer)
  {
    && p' == p.(interested := p'.interested)
    && (p'.interested <==> p.interested || (p.choked && exists l :: l in lost && Want(books, p, l)))
  }

  lemma {:induction false} AlertedOk(numPieces: nat, backlog: nat, books: Ledger, lost: seq<nat>, p: Peer, p': Peer)
    requires Alerted(books, lost, p, p') && PeerOk(numPieces, backlog, p)
    ensures PeerOk(numPieces, backlog, p') && p'.have == p.have && p'.active == p.active && p'.choked == p.choked
  {
    PeerMarked(numPieces, backlog, p, p'.interested, p.example);
  }

  lemma {:induction false} AlertedAll(books: Ledger, backlog: nat, lost: seq<nat>, downloads: seq<Peer>,
                                      downloads': seq<Peer>, done: set<nat>, late: set<nat>)
    requires |downloads'| == |downloads| && forall j :: 0 <= j < |downloads| ==> Alerted(books, lost, downloads[j], downloads'[j])
    requires forall j :: 0 <= j < |downloads| && !downloads[j].choked ==> j in done
    requires forall j :: 0 <= j < |downloads| && downloads[j].choked ==> j !in done
    ensures AllSettled(books, downloads) ==> AllSettled(books, downloads')
    ensures Woken(books, backlog, lost, downloads, done, late) ==> AllServed(books, backlog, [], downloads', late)
  {
    if AllSettled(books, downloads) {
      forall j | 0 <= j < |downloads'|
        ensures Settled(books, downloads'[j])
      {
        assert Alerted(books, lost, downloads[j], downloads'[j]) && Settled(books, downloads[j]);
        AlertedSettled(books, lost, downloads[j], downloads'[j]);
      }
    }
    if Woken(books, backlog, lost, downloads, done, late) {
      forall j | 0 <= j < |downloads'| && j !in late
        ensures Served(books, backlog, [], downloads'[j])
      {
        assert Alerted(books, lost, downloads[j], downloads'[j]);
        assert forall i: nat :: Want(books, downloads'[j], i) ==> Want(books, downloads[j], i);
      }
    }
  }

  lemma {:induction false} AlertedSettled(books: Ledger, lost: seq<nat>, p: Peer, p': Peer)
    requires Alerted(books, lost, p, p') && Settled(books, p)
    ensures Settled(books, p')
  {
    assert p'.have == p.have;
    if p'.choked && p'.interested {
      if p.interested {
        assert Hopeful(books, [], p) && WantsSome(books, p);
      } else {
        var l :| l in lost && Want(books, p, l);
        assert Want(books, p, l);
      }
      var i: nat :| Want(books, p, i);
      WantIs(books, p, i);
      WantIs(books, p', i);
    }
  }

  lemma {:induction false} SameMembers<T>(a: seq<T>, b: seq<T>)
    requires multiset(a) == multiset(b)
    ensures forall x :: x in a <==> x in b
  {
    assert forall x :: x in a <==> x in multiset(a);
  }

  lemma {:induction false} ActiveUnchoked(numPieces: nat, backlog: nat, downloads: seq<Peer>)
    requires forall k :: 0 <= k < |downloads| ==> PeerOk(numPieces, backlog, downloads[k])
    ensures forall j :: 0 <= j < |downloads| && downloads[j].active != [] ==> !downloads[j].choked
  {
  }

  lemma {:induction false} AmongSame(downloads: seq<Peer>, downloads': seq<Peer>, all: seq<Request>)
    requires |downloads'| == |downloads| && forall k :: 0 <= k < |downloads| ==> downloads'[k].active == downloads[k].active
    requires AllAmong(downloads, all)
    ensures AllAmong(downloads', all)
  {
    forall k | 0 <= k < |downloads'|
      ensures Among(downloads'[k].active, all)
    {
      assert Among(downloads[k].active, all);
    }
  }

  /** Taking `r` off the outstanding requests, of which `flat` and then `dropped` from `m` on are all. */
  lemma {:induction false} DropOne(out: seq<Request>, flat: seq<Request>, dropped: seq<Request>, m: nat)
    requires m < |dropped| && multiset(out) == multiset(flat) + multiset(dropped[m..])
    ensures dropped[m] in out && multiset(Removed(out, dropped[m])) == multiset(flat) + multiset(dropped[m + 1..])
  {
    assert dropped[m..] == [dropped[m]] + dropped[m + 1..];
    assert dropped[m] in multiset(out);
  }

  lemma {:induction false} ReopenedStart(books: Ledger)
    ensures Reopened(books, books, [])
  {
  }

  lemma {:induction false} AlertedFrom(books: Ledger, lost: seq<nat>, p: Peer, m: nat)
    requires if m < |lost| then p.choked && !p.interested && Want(books, p, lost[m])
             else p.choked && !p.interested ==> forall l :: l in lost ==> !Want(books, p, l)
    ensures Alerted(books, lost, p, p.(interested := p.interested || m < |lost|))
  {
    hide Want;
  }
}
