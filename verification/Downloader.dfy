/** Who is asked for what: blocks handed out to peers, taken back, and asked of several peers towards the end
    (wubi/src/bittorrent/Downloader.py). */
module Downloads {
  import opened Wrappers
  import opened Bytes
  import opened Requests
  import opened Placement
  import opened Picker
  import opened Swarm
  import opened SwarmEvents
  import opened PieceStore
  import opened Scan

  class Downloader {
    const storage: StorageWrapper
    const picker: PiecePicker
    const backlog: nat
    var downloads: seq<Peer>
    var allRequests: seq<Request>
    /** The peers that a bad piece may have left without work: the one that sent it, and those that it overlooked. */
    ghost var late: set<nat>

    constructor (storage: StorageWrapper, picker: PiecePicker, backlog: nat)
      requires storage.Valid() && storage.outstanding == [] && !storage.endgame
      requires picker.Valid() && picker.numpieces == storage.g.numPieces && |picker.interests| <= BEST_START
      requires backlog > 0 && CountsAgree(storage.Books(), [], picker.numinterests)
      requires Begun(storage.Books(), picker.started)
      ensures this.storage == storage && this.picker == picker && this.backlog == backlog
      ensures Valid() && downloads == [] && late == {}
    {
      this.storage, this.picker, this.backlog := storage, picker, backlog;
      downloads, allRequests, late := [], [], {};
    }

    ghost predicate Core()
      reads this`downloads, storage, storage.storage, picker
    {
      && storage.Valid() && picker.Valid() && |picker.interests| <= BEST_START && picker.numpieces == storage.g.numPieces
      && SwarmOk(storage.g.numPieces, backlog, storage.Books(), downloads, picker.numinterests)
      && Begun(storage.Books(), picker.started)
    }

    lemma {:induction false} CoreParts()
      requires Core()
      ensures storage.Valid() && picker.Valid()
      ensures |picker.interests| <= BEST_START && picker.numpieces == storage.g.numPieces
      ensures SwarmOk(storage.g.numPieces, backlog, storage.Books(), downloads, picker.numinterests)
      ensures Begun(storage.Books(), picker.started)
      ensures |storage.Books().inactive| == |picker.numinterests| == storage.g.numPieces && 0 < backlog
      ensures forall k :: 0 <= k < |downloads| ==> PeerOk(storage.g.numPieces, backlog, downloads[k])
    {
    }

    lemma {:induction false} CoreWhole()
      requires storage.Valid() && picker.Valid()
      requires |picker.interests| <= BEST_START && picker.numpieces == storage.g.numPieces
      requires SwarmOk(storage.g.numPieces, backlog, storage.Books(), downloads, picker.numinterests)
      requires Begun(storage.Books(), picker.started)
      ensures Core()
    {
    }

    /** Every outstanding request is asked of one peer. */
    ghost predicate Shared()
      reads this`downloads, storage`outstanding
    {
      multiset(storage.outstanding) == multiset(Flatten(downloads))
    }

    lemma {:induction false} SharedIs()
      ensures Shared() <==> multiset(storage.outstanding) == multiset(Flatten(downloads))
    {
    }

    /** In endgame nothing is left to ask for, `all_requests` has what is outstanding, and no peer is asked for
        anything else. */
    ghost predicate EndShared()
      reads this`downloads, this`allRequests, storage`outstanding, storage`amountInactive
    {
      && storage.amountInactive == 0
      && multiset(storage.outstanding) == multiset(allRequests)
      && AllAmong(downloads, allRequests)
    }

    lemma {:induction false} EndSharedIs()
      ensures EndShared() <==>
        storage.amountInactive == 0 && multiset(storage.outstanding) == multiset(allRequests) && AllAmong(downloads, allRequests)
    {
    }

    ghost predicate Sound()
      reads this`downloads, this`allRequests, storage, storage.storage, picker
    {
      Core() && if storage.endgame then EndShared() else Shared()
    }

    ghost predicate AtWork()
      reads this`downloads, this`late, this`allRequests, storage`inactiveRequests, storage`numactive, storage`amountInactive,
            storage`endgame
    {
      && (forall j :: j in late ==> j < |downloads|)
      && if storage.endgame then AllBusy(allRequests, backlog, downloads)
         else AllSettled(storage.Books(), downloads) && AllServed(storage.Books(), backlog, [], downloads, late)
    }

    ghost predicate Valid()
      reads this, storage, storage.storage, picker
    {
      Sound() && AtWork()
    }

    /** `picker.next(self._want, self.have.numfalse == 0)`. */
    method PickNext(k: nat) returns (r: Option<nat>)
      requires Core() && k < |downloads|
      ensures r.Some? ==> Picked(storage.Books(), downloads, picker.Current(), downloads[k], r.value)
      ensures r.None? ==> forall i: nat :: !Want(storage.Books(), downloads[k], i)
    {
      hide *;
      CoreParts();
      var p, books := downloads[k], storage.Books();
      forall i: nat
        ensures Want(books, p, i) ==>
          i < picker.numpieces && picker.numinterests[i].Some? && picker.numinterests[i] != Some(0)
      {
        WantedIsCounted(storage.g.numPieces, backlog, books, downloads, picker.numinterests, k, i);
      }
      r := picker.Next((i: nat) => Want(books, p, i), IsSeed(p));
      picker.PoolIs(IsSeed(p));
      if r.Some? {
        PickedFrom(storage.g.numPieces, backlog, books, downloads, picker.numinterests, picker.Current(), k,
                   (i: nat) => Want(books, p, i), r.value);
      }
    }

    /** What to ask peer `k` for: one of `indices`, or what the picker says. */
    method ChooseInterest(k: nat, indices: Option<seq<nat>>) returns (r: Option<nat>)
      requires Core() && k < |downloads|
      requires indices.Some? ==> forall i :: i in indices.value ==> i < storage.g.numPieces
      ensures r.Some? ==> Chosen(storage.Books(), downloads, picker.Current(), indices, downloads[k], r.value)
      ensures r.None? ==>
        forall i: nat :: Want(storage.Books(), downloads[k], i) ==> indices.Some? && i !in indices.value
    {
      hide *;
      if indices.None? {
        r := PickNext(k);
        if r.Some? {
          ChosenPicked(storage.Books(), downloads, picker.Current(), downloads[k], r.value);
        }
        return;
      }
      var books, p, s := storage.Books(), downloads[k], indices.value;
      for m := 0 to |s|
        invariant forall j :: 0 <= j < m ==> !Want(books, p, s[j])
      {
        WantIs(books, p, s[m]);
        if Has(p, s[m]) && HasRequests(books, s[m]) {
          ChosenFirst(books, downloads, picker.Current(), s, p, m);
          return Some(s[m]);
        }
      }
      return None;
    }

    /** Ask peer `k` for a block of piece `i`. */
    method AskFor(k: nat, i: nat)
      requires Core() && Shared() && k < |downloads| && !downloads[k].choked && |downloads[k].active| < backlog
      requires Want(storage.Books(), downloads[k], i)
      modifies this`downloads, storage`inactiveRequests, storage`numactive, storage`amountInactive, storage`endgame,
               storage`outstanding,
               picker`started, picker`seedstarted
      ensures Core() && Shared() && |downloads| == |old(downloads)|
      ensures downloads == old(downloads)[k := old(downloads[k]).(interested := true, example := Some(i),
                                                                  active := downloads[k].active)]
      ensures storage.Books() == Handed(storage.g, old(storage.Books()), i).0
      ensures downloads[k].active == old(downloads[k].active) + [Handed(storage.g, old(storage.Books()), i).1]
      ensures Handed(storage.g, old(storage.Books()), i).1.index == i
      ensures picker.Current() == Noted(old(picker.Current()), i, IsSeed(old(downloads[k])))
      ensures Eased(old(storage.Books()), storage.Books())
      ensures forall j: nat :: j != i ==> (HasRequests(storage.Books(), j) <==> HasRequests(old(storage.Books()), j))
      ensures storage.endgame ==> old(storage.endgame) || storage.amountInactive == 0
      ensures old(storage.endgame) ==> storage.endgame
    {
      hide *;
      CoreParts();
      storage.ValidIs();
      storage.RequestsParts();
      storage.BooksAre();
      ghost var before, p, n := storage.Books(), downloads[k], storage.g.numPieces;
      WantIs(before, p, i);
      OpenedNonempty(storage.g, before, i);
      ghost var (books, s) := Requests.NewRequest(storage.g, before, i);
      NewRequestBalanced(storage.g, before, storage.outstanding, storage.received, i, storage.outstanding + [At(i, s)]);
      NewRequestRequests(storage.g, before, i);
      CompleteKept(storage.g, before, i);
      SharedIs();
      NotAsked(storage.outstanding, downloads, At(i, s), k);
      AtIs(i, s);
      PeerAsked(n, backlog, p, i, At(i, s));
      HandedIs(storage.g, before, i);
      BegunMore(storage.g, before, picker.started, i, if i in picker.started then picker.started else picker.started + [i]);
      var slice := storage.NewRequest(i);
      picker.Requested(i, IsSeed(downloads[k]));
      ghost var p' := p.(interested := true, example := Some(i), active := p.active + [At(i, slice)]);
      downloads := downloads[k := downloads[k].(interested := true, example := Some(i),
                                                  active := downloads[k].active + [Request(i, slice.0, slice.1)])];
      SwarmUpdate(n, backlog, before, books, old(downloads), picker.numinterests, k, p');
      FlattenUpdate(old(downloads), k, p');
      SharedAfterAsking(old(storage.outstanding), Flatten(old(downloads)), Flatten(downloads), p.active, At(i, slice));
      SharedIs();
      storage.BooksAre();
      CoreWhole();
    }

    /** As long as a piece has a request to give, bytes are counted as not asked for. */
    lemma {:induction false} SomeLeft(i: nat)
      requires storage.Valid() && HasRequests(storage.Books(), i)
      ensures storage.amountInactive > 0
    {
      hide *;
      storage.ValidIs();
      storage.RequestsParts();
      storage.BooksAre();
      WantIs(storage.Books(), NewPeer(0), i);
      NothingUnasked(storage.g, storage.Books(), storage.outstanding, storage.received);
    }

    /** The first loop of `_request_more`; `lost` gets the pieces whose requests ran out, `taken` is what the peer is
        asked for. */
    method TakeRequests(k: nat, indices: Option<seq<nat>>) returns (lost: seq<nat>, ghost taken: seq<Request>)
      requires Core() && Shared() && !storage.endgame && k < |downloads| && !downloads[k].choked
      requires indices.Some? ==> forall i :: i in indices.value ==> i < storage.g.numPieces
      modifies this`downloads, storage`inactiveRequests, storage`numactive, storage`amountInactive, storage`endgame,
               storage`outstanding,
               picker`started, picker`seedstarted
      ensures Core() && Shared() && |downloads| == |old(downloads)| && downloads == old(downloads)[k := downloads[k]]
      ensures Taken(storage.Books(), backlog, indices, old(downloads[k]), downloads[k])
      ensures Rightly(storage.g, old(storage.Books()), old(downloads), old(picker.Current()), indices, old(downloads[k]), taken)
      ensures storage.Books() == BooksAfter(storage.g, old(storage.Books()), taken)
      ensures downloads[k].active == old(downloads[k].active) + taken
      ensures (|lost| > 0 ==> |downloads[k].active| > 0)
      ensures Eased(old(storage.Books()), storage.Books()) && Exhausted(old(storage.Books()), storage.Books(), lost)
      ensures forall i :: i in lost ==> i < storage.g.numPieces
      ensures storage.endgame ==> storage.amountInactive == 0
    {
      lost, taken := [], [];
      hide *;
      ghost var before, order := storage.Books(), picker.Current();
      ghost var p0, g := downloads[k], storage.g;
      ExhaustedStart(before);
      OnlyForStart(indices, p0);
      RightlyStart(g, before, downloads, order, indices, p0);
      assert p0.active + [] == p0.active;
      CoreParts();
      while |downloads[k].active| < backlog
        invariant Core() && Shared()
        invariant |downloads| == |old(downloads)| && downloads == old(downloads)[k := downloads[k]]
        invariant downloads[k] == p0.(active := downloads[k].active, interested := downloads[k].interested,
                                      example := downloads[k].example)
        invariant |downloads[k].active| >= |p0.active| && (|lost| > 0 ==> |downloads[k].active| > 0)
        invariant OnlyFor(indices, p0, downloads[k])
        invariant Rightly(g, before, old(downloads), order, indices, p0, taken)
        invariant storage.Books() == BooksAfter(g, before, taken)
        invariant picker.Current() == OrderAfter(order, IsSeed(p0), taken)
        invariant downloads[k].active == p0.active + taken
        invariant Eased(before, storage.Books()) && Exhausted(before, storage.Books(), lost)
        invariant forall i :: i in lost ==> i < storage.g.numPieces
        invariant storage.endgame ==> storage.amountInactive == 0
        decreases backlog - |downloads[k].active|
      {
        ghost var books := storage.Books();
        var interest := ChooseInterest(k, indices);
        assert storage.Books() == books;
        if interest.None? {
          TakenFrom(books, backlog, indices, p0, downloads[k]);
          return;
        }
        var i := interest.value;
        ChosenIs(books, downloads, picker.Current(), indices, downloads[k], i);
        WantIs(books, downloads[k], i);
        CoreParts();
        SomeLeft(i);
        ghost var p, r := downloads[k], Handed(g, books, i).1;
        SameHaves(old(downloads), downloads, k);
        ChosenSame(books, downloads, old(downloads), picker.Current(), indices, p, p0, i);
        SameSeed(p0, p);
        AskFor(k, i);
        OnlyForMore(indices, p0, p, downloads[k], i);
        RightlyMore(g, before, old(downloads), order, indices, p0, taken, r);
        assert p0.active + taken + [r] == p0.active + (taken + [r]);
        taken := taken + [r];
        EasedTransitive(before, books, storage.Books());
        ExhaustedMore(before, books, storage.Books(), lost, i);
        if !HasRequests(storage.Books(), i) {
          lost := lost + [i];
        }
      }
      TakenFrom(storage.Books(), backlog, indices, p0, downloads[k]);
    }

    /** The body of the second loop of `_request_more`. */
    method RecheckOne(j: nat, lost: seq<nat>, ghost before: Ledger)
      requires Core() && j < |downloads|
      requires Exhausted(before, storage.Books(), lost)
      modifies this`downloads
      ensures Core() && |downloads| == |old(downloads)| && downloads == old(downloads)[j := downloads[j]]
      ensures Rechecked(before, storage.Books(), old(downloads[j]), downloads[j])
      ensures old(downloads[j].active) != [] || !old(downloads[j].interested) ==> downloads == old(downloads)
    {
      hide *;
      var p, books := downloads[j], storage.Books();
      if p.active != [] || !p.interested {
        NoRecheck(before, books, p, lost);
        return;
      }
      CoreParts();
      PeerIs(storage.g.numPieces, backlog, p);
      if p.example.Some? && HasRequests(books, p.example.value) {
        WantIs(books, p, p.example.value);
        assert Want(books, p, p.example.value);
        NoRecheck(before, books, p, lost);
        return;
      }
      var m := 0;
      while m < |lost| && !Has(p, lost[m])
        invariant 0 <= m <= |lost| && forall i :: i in lost[..m] ==> !Has(p, i)
      {
        m := m + 1;
      }
      if m == |lost| {
        assert lost[..m] == lost;
        NoRecheck(before, books, p, lost);
        return;
      }
      var interest := PickNext(j);
      assert storage.Books() == books && downloads[j] == p;
      assert interest.None? ==> forall i: nat :: !Want(books, p, i);
      if interest.Some? {
        PickedIs(books, downloads, picker.Current(), p, interest.value);
      }
      PickedRecheck(before, books, p, interest);
      ghost var p' := if interest.None? then p.(interested := false) else p.(example := interest);
      RecheckedOk(storage.g.numPieces, backlog, before, books, p, p');
      SameCompleteSelf(books);
      SwarmUpdate(storage.g.numPieces, backlog, books, books, downloads, picker.numinterests, j, p');
      if interest.None? {
        downloads := downloads[j := p.(interested := false)];
      } else {
        downloads := downloads[j := p.(example := interest)];
      }
      CoreWhole();
    }

    /** The second loop of `_request_more`. */
    method RecheckAll(lost: seq<nat>, ghost before: Ledger)
      requires Core() && Exhausted(before, storage.Books(), lost)
      modifies this`downloads
      ensures Core() && |downloads| == |old(downloads)|
      ensures forall j :: 0 <= j < |downloads| ==> Rechecked(before, storage.Books(), old(downloads)[j], downloads[j])
      ensures forall j :: 0 <= j < |downloads| && (old(downloads)[j].active != [] || !old(downloads)[j].interested) ==>
        downloads[j] == old(downloads)[j]
      ensures Flatten(downloads) == Flatten(old(downloads))
    {
      hide *;
      for j := 0 to |downloads|
        invariant Core() && |downloads| == |old(downloads)|
        invariant forall i :: 0 <= i < j ==> Rechecked(before, storage.Books(), old(downloads)[i], downloads[i])
        invariant forall i :: 0 <= i < j && (old(downloads)[i].active != [] || !old(downloads)[i].interested) ==>
          downloads[i] == old(downloads)[i]
        invariant forall i :: j <= i < |downloads| ==> downloads[i] == old(downloads)[i]
      {
        RecheckOne(j, lost, before);
      }
      forall j | 0 <= j < |downloads|
        ensures downloads[j].active == old(downloads)[j].active
      {
        RecheckedIs(before, storage.Books(), old(downloads)[j], downloads[j]);
      }
      FlattenSame(old(downloads), downloads);
    }

    method Unmark(k: nat)
      requires Core() && k < |downloads| && downloads[k].active == []
      modifies this`downloads
      ensures Core() && downloads == old(downloads)[k := old(downloads[k]).(interested := false)]
      ensures Flatten(downloads) == Flatten(old(downloads))
    {
      hide *;
      CoreParts();
      var p := downloads[k];
      PeerMarked(storage.g.numPieces, backlog, p, false, p.example);
      SameCompleteSelf(storage.Books());
      SwarmUpdate(storage.g.numPieces, backlog, storage.Books(), storage.Books(), downloads, picker.numinterests, k,
                  p.(interested := false));
      FlattenSame(downloads, downloads[k := p.(interested := false)]);
      downloads := downloads[k := p.(interested := false)];
      CoreWhole();
    }

    /** `fix_download_endgame`. */
    method FixDownloadEndgame(k: nat)
      requires Core() && k < |downloads| && Distinct(allRequests)
      modifies this`downloads
      ensures Core() && |downloads| == |old(downloads)| && downloads == old(downloads)[k := downloads[k]]
      ensures Fixed(allRequests, backlog, old(downloads[k]), downloads[k])
    {
      hide *;
      CoreParts();
      var p := downloads[k];
      PeerIs(storage.g.numPieces, backlog, p);
      var q := EndgameAsk(allRequests, backlog, p);
      FixedOk(storage.g.numPieces, allRequests, backlog, p, q);
      SameCompleteSelf(storage.Books());
      SwarmUpdate(storage.g.numPieces, backlog, storage.Books(), storage.Books(), downloads, picker.numinterests, k, q);
      downloads := downloads[k := q];
      CoreWhole();
    }

    lemma {:induction false} AllDistinct()
      requires Core() && EndShared()
      ensures Distinct(allRequests)
    {
      hide *;
      CoreParts();
      EndSharedIs();
      storage.ValidIs();
      storage.RequestsParts();
      OutstandingDistinct(storage.g, storage.Books(), storage.outstanding, storage.received, allRequests);
    }

    lemma {:induction false} SoundIs()
      ensures Sound() <==> Core() && if storage.endgame then EndShared() else Shared()
    {
    }

    /** `fix_download_endgame` of one peer while all is well. */
    method FixOne(k: nat)
      requires Core() && EndShared() && k < |downloads|
      modifies this`downloads
      ensures Core() && EndShared() && |downloads| == |old(downloads)|
      ensures downloads == old(downloads)[k := downloads[k]] && downloads[k].choked == old(downloads[k].choked)
      ensures forall j :: 0 <= j < |downloads| ==> Standing(downloads[j]) == Standing(old(downloads)[j])
      ensures Busy(allRequests, backlog, downloads[k]) && old(downloads)[k].active <= downloads[k].active
    {
      hide *;
      CoreParts();
      AllDistinct();
      EndSharedIs();
      PeerIs(storage.g.numPieces, backlog, downloads[k]);
      FixDownloadEndgame(k);
      AmongFixed(allRequests, backlog, old(downloads), k, downloads[k], allRequests);
      FixedOk(storage.g.numPieces, allRequests, backlog, old(downloads[k]), downloads[k]);
      FixedBusy(storage.g.numPieces, allRequests, backlog, old(downloads[k]), downloads[k]);
      EndSharedIs();
    }

    method FixAll()
      requires Core() && EndShared()
      modifies this`downloads
      ensures Core() && EndShared() && |downloads| == |old(downloads)|
      ensures forall j :: 0 <= j < |downloads| ==> downloads[j].choked == old(downloads)[j].choked
      ensures forall j :: 0 <= j < |downloads| ==> Standing(downloads[j]) == Standing(old(downloads)[j])
      ensures forall j :: 0 <= j < |downloads| ==> old(downloads)[j].active <= downloads[j].active
      ensures AllBusy(allRequests, backlog, downloads)
    {
      hide *;
      for k := 0 to |downloads|
        invariant Core() && EndShared() && |downloads| == |old(downloads)|
        invariant forall j :: 0 <= j < |downloads| ==> downloads[j].choked == old(downloads)[j].choked
        invariant forall j :: 0 <= j < |downloads| ==> Standing(downloads[j]) == Standing(old(downloads)[j])
        invariant forall j :: 0 <= j < |downloads| ==> old(downloads)[j].active <= downloads[j].active
        invariant forall j :: 0 <= j < k ==> Busy(allRequests, backlog, downloads[j])
      {
        FixOne(k);
      }
      AllBusyIs(allRequests, backlog, downloads);
    }

    /** `_request_more`. */
    method RequestMore(k: nat, indices: Option<seq<nat>>)
      requires Sound() && k < |downloads| && !downloads[k].choked
      requires indices.Some? ==> forall i :: i in indices.value ==> i < storage.g.numPieces
      modifies this`downloads, this`allRequests,
               storage`inactiveRequests, storage`numactive, storage`amountInactive, storage`endgame, storage`outstanding,
               picker`started, picker`seedstarted
      ensures Sound() && |downloads| == |old(downloads)|
      ensures forall j :: 0 <= j < |downloads| ==> downloads[j].choked == old(downloads)[j].choked
      ensures forall j :: 0 <= j < |downloads| ==> Standing(downloads[j]) == Standing(old(downloads)[j])
      ensures old(storage.endgame) ==> storage.endgame
      // before endgame it is asked for as much as it can be, each time for a block that is due
      ensures !storage.endgame ==>
        More(old(storage.Books()), storage.Books(), backlog, indices, old(downloads), downloads, k)
      ensures !old(storage.endgame) ==>
        Asks(storage.g, old(storage.Books()), storage.Books(), old(downloads), old(picker.Current()), indices,
             old(downloads)[k], downloads[k])
      // in endgame, and when endgame begins, everybody has all it can have
      ensures old(storage.endgame) ==> allRequests == old(allRequests) && downloads == old(downloads)[k := downloads[k]]
      ensures old(storage.endgame) ==> Busy(allRequests, backlog, downloads[k])
      ensures !old(storage.endgame) && storage.endgame ==> AllBusy(allRequests, backlog, downloads)
    {
      hide *;
      SoundIs();
      CoreParts();
      ghost var before := storage.Books();
      ExhaustedStart(before);
      PeerIs(storage.g.numPieces, backlog, downloads[k]);
      ghost var order := picker.Current();
      if |downloads[k].active| == backlog {
        MoreSame(before, backlog, indices, downloads, k);
        AsksNothing(storage.g, before, downloads, order, indices, downloads[k]);
        BusyFull(allRequests, backlog, downloads[k]);
        return;
      }
      if storage.endgame {
        FixOne(k);
        SoundIs();
        return;
      }
      var lost;
      ghost var asked;
      lost, asked := TakeRequests(k, indices);
      ghost var taken := downloads;
      SharedIs();
      TakenThenIdle(storage.Books(), backlog, indices, old(downloads[k]), taken[k]);
      if downloads[k].active == [] && downloads[k].interested {
        Unmark(k);
      }
      ghost var settled := downloads;
      if lost != [] {
        RecheckAll(lost, before);
      } else {
        NoRecheckAll(before, storage.Books(), downloads);
      }
      MoreFrom(before, storage.Books(), backlog, indices, old(downloads), settled, downloads, k);
      SharedIs();
      if storage.endgame {
        allRequests := Flatten(downloads);
        FlattenAmong(downloads);
        EndSharedIs();
        FixAll();
      }
      storage.BooksAre();
      AsksFrom(storage.g, before, storage.Books(), old(downloads), order, indices, old(downloads)[k], downloads[k], asked);
      SoundIs();
    }

    /** `[d for d in self.downloader.downloads if not d.choked]`. */
    method Unchoked() returns (ds: seq<nat>)
      ensures forall k: nat :: k in ds <==> k < |downloads| && !downloads[k].choked
    {
      ds := [];
      for k := 0 to |downloads|
        invariant forall j: nat :: j in ds <==> j < k && !downloads[j].choked
      {
        if !downloads[k].choked {
          ds := ds + [k];
        }
      }
    }

    /** Unchoked peers, in any order, may take requests of the pieces `lost`; those in `ready` need none. */
    method WakeUnchoked(lost: seq<nat>, ghost ready: set<nat>) returns (ghost done: set<nat>)
      requires Sound() && (!storage.endgame ==> AllHopeful(storage.Books(), [], downloads))
      requires storage.endgame ==> AllBusy(allRequests, backlog, downloads)
      requires forall i :: i in lost ==> i < storage.g.numPieces
      requires forall j :: 0 <= j < |downloads| && j in ready ==> downloads[j].choked
      modifies this`downloads, this`allRequests,
               storage`inactiveRequests, storage`numactive, storage`amountInactive, storage`endgame, storage`outstanding,
               picker`started, picker`seedstarted
      ensures Sound() && |downloads| == |old(downloads)|
      ensures forall j :: 0 <= j < |downloads| ==> (j in done <==> !downloads[j].choked || j in ready)
      ensures forall j :: 0 <= j < |downloads| ==> Standing(downloads[j]) == Standing(old(downloads)[j])
      ensures old(storage.endgame) ==> storage.endgame
      ensures !storage.endgame ==> AllSettled(storage.Books(), downloads)
      ensures storage.endgame ==> AllBusy(allRequests, backlog, downloads)
      ensures !storage.endgame && Woken(old(storage.Books()), backlog, lost, old(downloads), ready, late) ==>
        Woken(storage.Books(), backlog, lost, downloads, done, late)
      ensures !storage.endgame ==> Eased(old(storage.Books()), storage.Books()) && AllOffered(lost, old(downloads), downloads)
    {
      hide *;
      var ds := Unchoked();
      ghost var ds0 := ds;
      ghost var books0 := storage.Books();
      WakeStart(lost, downloads, ready);
      EasedSelf(books0);
      ds := Shuffle(ds);
      SameMembers(ds0, ds);
      done := ready;
      for m := 0 to |ds|
        invariant Sound() && |downloads| == |old(downloads)|
        invariant forall j :: 0 <= j < |downloads| ==> downloads[j].choked == old(downloads)[j].choked
        invariant forall j :: 0 <= j < |downloads| ==> Standing(downloads[j]) == Standing(old(downloads)[j])
        invariant forall j: nat :: j in done <==> j in ready || j in ds[..m]
        invariant old(storage.endgame) ==> storage.endgame
        invariant storage.endgame ==> AllBusy(allRequests, backlog, downloads)
        invariant !storage.endgame ==> AllHopeful(storage.Books(), [], downloads) && IdleIn(downloads, done)
        invariant !storage.endgame && Woken(books0, backlog, lost, old(downloads), ready, late) ==>
          Woken(storage.Books(), backlog, lost, downloads, done, late)
        invariant !storage.endgame ==> Eased(books0, storage.Books()) && AllOffered(lost, old(downloads), downloads)
      {
        SoundIs();
        CoreParts();
        ActiveUnchoked(storage.g.numPieces, backlog, downloads);
        ghost var before, books := downloads, storage.Books();
        assert ds[m] in ds;
        AllBusyIs(allRequests, backlog, downloads);
        RequestMore(ds[m], Some(lost));
        AllBusyIs(allRequests, backlog, downloads);
        if !storage.endgame {
          WakeStep(books, storage.Books(), backlog, lost, before, downloads, ds[m], done, late);
          OfferedMore(books, storage.Books(), backlog, lost, old(downloads), before, downloads, ds[m]);
          MoreEases(books, storage.Books(), backlog, Some(lost), before, downloads, ds[m]);
          EasedTransitive(books0, books, storage.Books());
        }
        done := done + {ds[m]};
        assert ds[..m + 1] == ds[..m] + [ds[m]];
      }
      assert ds[..|ds|] == ds;
      if !storage.endgame {
        WakeEnd(storage.Books(), backlog, lost, downloads, done);
      }
    }

    /** `request_lost` of one block. */
    method GiveBackOne(r: Request)
      requires Core() && !storage.endgame && r in storage.outstanding
      modifies storage`inactiveRequests, storage`numactive, storage`amountInactive, storage`outstanding
      ensures Core() && storage.outstanding == Removed(old(storage.outstanding), r)
      ensures r.index < storage.g.numPieces && Reopened(old(storage.Books()), storage.Books(), [r.index])
    {
      hide *;
      CoreParts();
      storage.ValidIs();
      storage.RequestsParts();
      ghost var books := storage.Books();
      assert r == Request(r.index, r.begin, r.length);
      storage.RequestLost(r.index, r.begin, r.length);
      LostReopens(storage.g, books, r.index, (r.begin, r.length));
      BegunLost(storage.g, books, picker.started, r.index, (r.begin, r.length));
      SwarmBooks(storage.g.numPieces, backlog, books, storage.Books(), downloads, picker.numinterests);
      CoreWhole();
    }

    /** In endgame nothing is left to ask for. */
    lemma {:induction false} NothingToGive()
      requires Core() && EndShared()
      ensures forall i: nat :: !HasRequests(storage.Books(), i)
    {
      hide *;
      CoreParts();
      EndSharedIs();
      forall i: nat
        ensures !HasRequests(storage.Books(), i)
      {
        if HasRequests(storage.Books(), i) {
          SomeLeft(i);
        }
      }
    }

    /** The first loop of `_letgo`: the blocks go back to the books. */
    method GiveBack(dropped: seq<Request>) returns (lost: seq<nat>)
      requires Core() && !storage.endgame
      requires multiset(storage.outstanding) == multiset(Flatten(downloads)) + multiset(dropped)
      modifies storage`inactiveRequests, storage`numactive, storage`amountInactive, storage`outstanding
      ensures Core() && Shared()
      ensures Reopened(old(storage.Books()), storage.Books(), lost)
      ensures forall i :: i in lost ==> i < storage.g.numPieces
      ensures LostOf(lost, dropped)
      ensures forall r :: r in dropped ==> r.index in lost
    {
      lost := [];
      hide *;
      ghost var before, flat := storage.Books(), Flatten(downloads);
      assert dropped[0..] == dropped;
      LostOfNone(dropped);
      ReopenedStart(before);
      for m := 0 to |dropped|
        invariant Core() && Flatten(downloads) == flat
        invariant multiset(storage.outstanding) == multiset(flat) + multiset(dropped[m..])
        invariant Reopened(before, storage.Books(), lost)
        invariant forall i :: i in lost ==> i < storage.g.numPieces
        invariant LostOf(lost, dropped)
        invariant forall r :: r in dropped[..m] ==> r.index in lost
      {
        ghost var books := storage.Books();
        var r := dropped[m];
        LostOfMore(lost, dropped, r);
        DropOne(storage.outstanding, flat, dropped, m);
        GiveBackOne(r);
        ReopenedTransitive(before, books, storage.Books(), lost, r.index,
                           if r.index in lost then lost else lost + [r.index]);
        if r.index !in lost {
          lost := lost + [r.index];
        }
        assert dropped[..m + 1] == dropped[..m] + [r];
      }
      assert dropped[..|dropped|] == dropped;
      SharedIs();
      assert dropped[|dropped|..] == [];
    }

    /** The last loop of `_letgo`. */
    method AlertChoked(lost: seq<nat>)
      requires Core()
      modifies this`downloads
      ensures Core() && |downloads| == |old(downloads)|
      ensures forall j :: 0 <= j < |downloads| ==> Alerted(storage.Books(), lost, old(downloads)[j], downloads[j])
    {
      hide *;
      for j := 0 to |downloads|
        invariant Core() && |downloads| == |old(downloads)|
        invariant forall i :: 0 <= i < j ==> Alerted(storage.Books(), lost, old(downloads)[i], downloads[i])
        invariant forall i :: j <= i < |downloads| ==> downloads[i] == old(downloads)[i]
      {
        CoreParts();
        var p, books := downloads[j], storage.Books();
        var m := WorthMarking(books, p, lost);
        ghost var q := p.(interested := p.interested || m < |lost|);
        AlertedFrom(books, lost, p, m);
        AlertedOk(storage.g.numPieces, backlog, books, lost, p, q);
        SameCompleteSelf(books);
        SwarmUpdate(storage.g.numPieces, backlog, books, books, downloads, picker.numinterests, j, q);
        downloads := downloads[j := p.(interested := p.interested || m < |lost|)];
        CoreWhole();
      }
    }

    lemma {:induction false} ValidIs()
      ensures Valid() <==> Sound() && AtWork()
    {
    }

    lemma {:induction false} AtWorkIs()
      ensures AtWork() <==>
        && (forall j :: j in late ==> j < |downloads|)
        && if storage.endgame then AllBusy(allRequests, backlog, downloads)
           else AllSettled(storage.Books(), downloads) && AllServed(storage.Books(), backlog, [], downloads, late)
    {
    }

    /** What is outstanding, whether in endgame or not, is all that peers are asked for. */
    ghost predicate Spread()
      reads this`downloads, this`allRequests, storage`endgame, storage`outstanding, storage`amountInactive
    {
      if storage.endgame then EndShared() else Shared()
    }

    lemma {:induction false} SpreadIs()
      ensures Spread() <==> if storage.endgame then EndShared() else Shared()
      ensures Sound() <==> Core() && Spread()
    {
    }

    /** A new state for peer `k`, with the same pieces and the same requests. */
    method SetPeer(k: nat, q: Peer)
      requires Core() && Spread() && k < |downloads| && PeerOk(storage.g.numPieces, backlog, q)
      requires q.have == downloads[k].have && q.active == downloads[k].active
      modifies this`downloads
      ensures Core() && Spread() && downloads == old(downloads)[k := q]
    {
      hide *;
      CoreParts();
      SpreadIs();
      SharedIs();
      EndSharedIs();
      SameCompleteSelf(storage.Books());
      SwarmUpdate(storage.g.numPieces, backlog, storage.Books(), storage.Books(), downloads, picker.numinterests, k, q);
      FlattenSame(downloads, downloads[k := q]);
      if storage.endgame {
        AmongSame(downloads, downloads[k := q], allRequests);
      }
      downloads := downloads[k := q];
      CoreWhole();
      SharedIs();
      EndSharedIs();
      SpreadIs();
    }

    /** `_request_more` of peer `k` while the others are settled. */
    method AskMore(k: nat, indices: Option<seq<nat>>)
      requires Sound() && k < |downloads| && !downloads[k].choked
      requires indices.Some? ==> forall i :: i in indices.value ==> i < storage.g.numPieces
      requires !storage.endgame ==>
        forall j :: 0 <= j < |downloads| && j != k ==> Settled(storage.Books(), downloads[j])
      requires storage.endgame ==>
        forall j :: 0 <= j < |downloads| && j != k ==> Busy(allRequests, backlog, downloads[j])
      modifies this`downloads, this`allRequests,
               storage`inactiveRequests, storage`numactive, storage`amountInactive, storage`endgame, storage`outstanding,
               picker`started, picker`seedstarted
      ensures Sound() && |downloads| == |old(downloads)| && (old(storage.endgame) ==> storage.endgame)
      ensures forall j :: 0 <= j < |downloads| ==> Standing(downloads[j]) == Standing(old(downloads)[j])
      ensures !storage.endgame ==> AllSettled(storage.Books(), downloads)
      ensures !storage.endgame ==>
        (forall j :: 0 <= j < |downloads| && j != k && j !in late ==>
           Served(old(storage.Books()), backlog, [], old(downloads)[j])) ==>
        (k in late || indices.None? || Served(old(storage.Books()), backlog, indices.value, old(downloads)[k])) ==>
          AllServed(storage.Books(), backlog, [], downloads, late)
      ensures storage.endgame ==> AllBusy(allRequests, backlog, downloads)
      ensures !old(storage.endgame) ==>
        Asks(storage.g, old(storage.Books()), storage.Books(), old(downloads), old(picker.Current()), indices,
             old(downloads)[k], downloads[k])
      ensures !storage.endgame ==> OnlyAsked(indices, old(downloads), downloads, k)
    {
      hide *;
      SoundIs();
      CoreParts();
      ActiveUnchoked(storage.g.numPieces, backlog, downloads);
      ghost var books := storage.Books();
      RequestMore(k, indices);
      AllBusyIs(allRequests, backlog, downloads);
      if !storage.endgame {
        MoreIsOnly(books, storage.Books(), backlog, indices, old(downloads), downloads, k);
        MoreSettles(books, storage.Books(), backlog, indices, old(downloads), downloads, k, late);
      }
    }

    /** `make_download`. */
    method MakeDownload()
      requires Valid() && |downloads| + 1 < BEST_START
      modifies this`downloads
      ensures Valid() && downloads == old(downloads) + [NewPeer(storage.g.numPieces)]
      ensures NewPeer(storage.g.numPieces) ==
              Peer(true, false, [], seq(storage.g.numPieces, _ => false), None, false)
    {
      hide *;
      ValidIs();
      SpreadIs();
      SharedIs();
      EndSharedIs();
      AtWorkIs();
      CoreParts();
      var n := storage.g.numPieces;
      var p := NewPeer(n);
      SwarmParts(n, backlog, storage.Books(), downloads, picker.numinterests);
      NewPeerOk(n, backlog, storage.Books());
      NewPeerIs(n);
      BusyNew(allRequests, backlog, n);
      if storage.endgame {
        BusyWith(allRequests, backlog, downloads, p);
      }
      AllWith(n, backlog, storage.Books(), downloads, p, late);
      AgreeWith(storage.Books(), downloads, picker.numinterests, p);
      downloads := downloads + [p];
      SwarmFrom(n, backlog, storage.Books(), downloads, picker.numinterests);
      FlattenSnoc(old(downloads), p);
      AmongSnoc(old(downloads), p, allRequests);
      CoreWhole();
      SharedIs();
      EndSharedIs();
      SpreadIs();
      AtWorkIs();
      ValidIs();
    }

    /** `_letgo`, once the peer's own list is empty: `dropped` is what it was asked for. */
    method LetGo(dropped: seq<Request>)
      requires Core()
      requires if storage.endgame then EndShared() else multiset(storage.outstanding) == multiset(Flatten(downloads)) + multiset(dropped)
      requires !storage.endgame ==> AllHopeful(storage.Books(), dropped, downloads)
      requires !storage.endgame && dropped == [] ==> forall j :: 0 <= j < |downloads| ==> Idle(downloads[j])
      requires storage.endgame ==> AllBusy(allRequests, backlog, downloads)
      modifies this`downloads, this`allRequests,
               storage`inactiveRequests, storage`numactive, storage`amountInactive, storage`endgame, storage`outstanding,
               picker`started, picker`seedstarted
      ensures Sound() && |downloads| == |old(downloads)| && (old(storage.endgame) ==> storage.endgame)
      ensures forall j :: 0 <= j < |downloads| ==> Standing(downloads[j]) == Standing(old(downloads)[j])
      ensures !storage.endgame ==> AllSettled(storage.Books(), downloads)
      ensures !storage.endgame && AllServed(old(storage.Books()), backlog, [], old(downloads), late) ==>
        AllServed(storage.Books(), backlog, [], downloads, late)
      ensures storage.endgame ==> AllBusy(allRequests, backlog, downloads)
      ensures old(storage.endgame) ==> downloads == old(downloads) && allRequests == old(allRequests)
      // the other peers are asked for blocks of the pieces that blocks came back of, and for no others
      ensures !storage.endgame ==> AllRegiven(dropped, old(downloads), downloads)
    {
      hide *;
      SpreadIs();
      SharedIs();
      if dropped == [] {
        if !storage.endgame {
          SettledFrom(storage.Books(), downloads);
        }
        RegivenNone(dropped, downloads);
        return;
      }
      if storage.endgame {
        return;
      }
      ghost var books := storage.Books();
      var lost := GiveBack(dropped);
      ReopenedStill(books, storage.Books(), backlog, lost, dropped, downloads, late);
      WokenFrom(storage.Books(), backlog, lost, downloads, late);
      SpreadIs();
      ghost var given := downloads;
      ghost var done := WakeUnchoked(lost, {});
      ghost var woken := downloads;
      SpreadIs();
      SharedIs();
      EndSharedIs();
      AlertChoked(lost);
      AlertedSame(storage.Books(), lost, woken, downloads);
      FlattenSame(woken, downloads);
      if storage.endgame {
        AmongSame(woken, downloads, allRequests);
        EndSharedIs();
        NothingToGive();
        AlertedNone(storage.Books(), lost, woken, downloads);
      } else {
        RegivenFrom(dropped, lost, given, woken, downloads);
        AlertedAll(storage.Books(), backlog, lost, woken, downloads, done, late);
      }
      SharedIs();
      EndSharedIs();
      SpreadIs();
    }

    /** A first message that is not a bitfield: the connecter notes that there was one. */
    method Heard(k: nat)
      requires Valid() && k < |downloads|
      modifies this`downloads
      ensures Valid() && downloads == old(downloads)[k := old(downloads)[k].(gotAnything := true)]
    {
      hide *;
      ValidIs();
      SpreadIs();
      AtWorkIs();
      CoreParts();
      ghost var before, n := downloads, storage.g.numPieces;
      var q := downloads[k].(gotAnything := true);
      PeerHeard(n, backlog, storage.Books(), downloads[k]);
      SetPeer(k, q);
      AllAre(storage.Books(), backlog, before, late);
      AllUpdate(n, backlog, storage.Books(), [], before, k, q, late);
      if storage.endgame {
        AllBusyIs(allRequests, backlog, before);
        BusyHeard(allRequests, backlog, before[k]);
        BusyUpdate(allRequests, backlog, before, k, q);
      }
      SpreadIs();
      AtWorkIs();
      ValidIs();
    }

    /** `got_choke`. */
    method GotChoke(k: nat)
      requires Valid() && k < |downloads| && downloads[k].gotAnything
      modifies this`downloads, this`allRequests,
               storage`inactiveRequests, storage`numactive, storage`amountInactive, storage`endgame, storage`outstanding,
               picker`started, picker`seedstarted
      ensures Valid() && |downloads| == |old(downloads)|
      ensures forall j :: 0 <= j < |downloads| && j != k ==> Standing(downloads[j]) == Standing(old(downloads)[j])
      ensures Standing(downloads[k]) == Standing(old(downloads)[k].(choked := true)) && downloads[k].active == []
      // what it was asked for is offered to the others, before endgame, and nothing else is
      ensures !storage.endgame ==> AllRegiven(old(downloads)[k].active, old(downloads), downloads)
    {
      hide *;
      ValidIs();
      SpreadIs();
      CoreParts();
      PeerIs(storage.g.numPieces, backlog, downloads[k]);
      if downloads[k].choked {
        assert downloads[k] == downloads[k].(choked := true);
        RegivenNone(downloads[k].active, downloads);
        return;
      }
      SharedIs();
      EndSharedIs();
      AtWorkIs();
      ghost var books, p, n := storage.Books(), downloads[k], storage.g.numPieces;
      PeerChokes(n, backlog, books, p);
      var dropped := downloads[k].active;
      downloads := downloads[k := downloads[k].(choked := true, active := [])];
      ghost var q := downloads[k];
      SameCompleteSelf(books);
      SwarmUpdate(n, backlog, books, books, old(downloads), picker.numinterests, k, q);
      CoreWhole();
      FlattenUpdate(old(downloads), k, q);
      if storage.endgame {
        AmongLess(old(downloads), k, q, allRequests);
        AllAmongIs(old(downloads), allRequests);
        AllBusyIs(allRequests, backlog, old(downloads));
        BusyChokes(n, allRequests, backlog, p);
        BusyUpdate(allRequests, backlog, old(downloads), k, q);
        EndSharedIs();
      } else {
        AllAre(books, backlog, old(downloads), late);
        SettledAre(books, old(downloads));
        HopefulMore(books, dropped, old(downloads));
        AllUpdate(n, backlog, books, dropped, old(downloads), k, q, late);
      }
      StandingIs(q, old(downloads)[k].(choked := true));
      ghost var choked := downloads;
      LetGo(dropped);
      if !storage.endgame {
        RegivenAfter(dropped, old(downloads), choked, downloads, k);
      }
      StandingIs(q, downloads[k]);
      SpreadIs();
      CoreParts();
      PeerIs(n, backlog, downloads[k]);
      AtWorkIs();
      ValidIs();
    }

    /** `got_unchoke`. */
    method GotUnchoke(k: nat)
      requires Valid() && k < |downloads| && downloads[k].gotAnything
      modifies this`downloads, this`allRequests, this`late,
               storage`inactiveRequests, storage`numactive, storage`amountInactive, storage`endgame, storage`outstanding,
               picker`started, picker`seedstarted
      ensures Valid() && |downloads| == |old(downloads)|
      ensures forall j :: 0 <= j < |downloads| && j != k ==> Standing(downloads[j]) == Standing(old(downloads)[j])
      ensures Standing(downloads[k]) == Standing(old(downloads)[k].(choked := false))
      ensures late == if old(downloads)[k].choked && old(downloads)[k].interested then old(late) - {k} else old(late)
      // a marked peer is asked for what is due
      ensures old(downloads)[k].choked && old(downloads)[k].interested && !old(storage.endgame) ==>
        Asks(storage.g, old(storage.Books()), storage.Books(), old(downloads), old(picker.Current()), None,
             old(downloads)[k], downloads[k])
      ensures !(old(downloads)[k].choked && old(downloads)[k].interested) ==>
        downloads == old(downloads)[k := old(downloads)[k].(choked := false)] && unchanged(storage) && unchanged(picker)
    {
      hide *;
      if !downloads[k].choked {
        assert downloads[k] == downloads[k].(choked := false);
        return;
      }
      ValidIs();
      AtWorkIs();
      SpreadIs();
      CoreParts();
      ghost var books, before, n := storage.Books(), downloads, storage.g.numPieces;
      PeerUnchokes(n, backlog, books, downloads[k]);
      SetPeer(k, downloads[k].(choked := false));
      SpreadIs();
      if !storage.endgame {
        AllAre(books, backlog, before, late);
        AllUpdate(n, backlog, books, [], before, k, downloads[k], late);
      } else {
        AllBusyIs(allRequests, backlog, before);
        if !before[k].interested {
          BusyUnchokes(n, allRequests, backlog, before[k]);
          BusyUpdate(allRequests, backlog, before, k, downloads[k]);
        }
      }
      if downloads[k].interested {
        late := late - {k};
        ghost var order, unchoked := picker.Current(), downloads;
        AskMore(k, None);
        if !old(storage.endgame) {
          AsksSame(storage.g, books, storage.Books(), unchoked, before, order, None, unchoked[k], before[k], downloads[k]);
        }
      }
      SpreadIs();
      AtWorkIs();
      ValidIs();
    }

    /** `disconnected`. */
    method Disconnected(k: nat)
      requires Valid() && k < |downloads|
      modifies this`downloads, this`allRequests, this`late, picker,
               storage`inactiveRequests, storage`numactive, storage`amountInactive, storage`endgame, storage`outstanding
      ensures Valid() && |downloads| == |old(downloads)| - 1
      ensures forall j :: 0 <= j < |downloads| ==>
        Standing(downloads[j]) == Standing(old(downloads)[if j < k then j else j + 1])
      ensures late == Shifted(old(late), k)
      ensures !storage.endgame ==>
        AllRegiven(old(downloads)[k].active, old(downloads)[..k] + old(downloads)[k + 1..], downloads)
    {
      hide *;
      ValidIs();
      SpreadIs();
      SharedIs();
      EndSharedIs();
      AtWorkIs();
      CoreParts();
      var p := downloads[k];
      ghost var books, n := storage.Books(), storage.g.numPieces;
      PeerIs(n, backlog, p);
      PlusWhole(books, downloads, k, picker.numinterests);
      AllWithout(n, backlog, books, downloads, allRequests, k, late);
      if storage.endgame {
        BusyWithout(allRequests, backlog, downloads, k);
      }
      FlattenWithout(downloads, k);
      SwarmParts(n, backlog, books, downloads, picker.numinterests);
      downloads := downloads[..k] + downloads[k + 1..];
      late := Shifted(late, k);
      Uncount(p, books);
      SwarmFrom(n, backlog, books, downloads, picker.numinterests);
      CoreWhole();
      EndSharedIs();
      if !storage.endgame {
        SettledAre(books, downloads);
        HopefulMore(books, p.active, downloads);
      }
      LetGo(p.active);
      SpreadIs();
      AtWorkIs();
      ValidIs();
    }

    /** The pieces of a peer that is gone are counted once less. */
    method Uncount(p: Peer, ghost books: Ledger)
      requires picker.Valid() && |p.have| == |picker.numinterests| == picker.numpieces
      requires CountsPlus(books, downloads, p, 0, |p.have|, picker.numinterests)
      modifies picker`interests, picker`posInInterests, picker`numinterests
      ensures picker.Valid() && |picker.interests| == |old(picker.interests)|
      ensures CountsAgree(books, downloads, picker.numinterests)
    {
      hide *;
      for i := 0 to |p.have|
        invariant picker.Valid() && |picker.interests| == |old(picker.interests)| && |picker.numinterests| == |p.have|
        invariant CountsPlus(books, downloads, p, i, |p.have|, picker.numinterests)
      {
        PlusDown(books, downloads, p, i, |p.have|, picker.numinterests);
        HasIs(p, i);
        CountDownSize(picker.numinterests, i);
        if p.have[i] {
          picker.LostHave(i);
        }
      }
      PlusNone(books, downloads, p, |p.have|, picker.numinterests);
    }

    /** Peer `k`, that now has piece `i` as well. */
    method Gain(k: nat, i: nat)
      requires Core() && Spread() && k < |downloads|
      requires downloads[k].gotAnything && i < storage.g.numPieces && !Has(downloads[k], i)
      modifies this`downloads, picker`interests, picker`posInInterests, picker`numinterests
      ensures Core() && Spread() && i < |old(downloads)[k].have|
      ensures downloads == old(downloads)[k := old(downloads)[k].(have := old(downloads)[k].have[i := true])]
    {
      hide *;
      CoreParts();
      SpreadIs();
      SharedIs();
      EndSharedIs();
      ghost var books, before, n := storage.Books(), downloads, storage.g.numPieces;
      PeerIs(n, backlog, downloads[k]);
      PeerGains(n, backlog, books, downloads[k], i);
      ghost var q := downloads[k].(have := downloads[k].have[i := true]);
      GainCounted(n, backlog, books, downloads, picker.numinterests, k, q, i);
      SwarmParts(n, backlog, books, downloads, picker.numinterests);
      CountUpSize(picker.numinterests, i);
      downloads := downloads[k := downloads[k].(have := downloads[k].have[i := true])];
      picker.GotHave(i);
      FlattenSame(before, downloads);
      if storage.endgame {
        AmongSame(before, downloads, allRequests);
      }
      CoreWhole();
      SharedIs();
      EndSharedIs();
      SpreadIs();
    }

    /** Once every piece has been completed there is nothing to ask for. */
    lemma {:induction false} NothingToAsk(i: nat)
      requires Core() && picker.AmIComplete()
      ensures !HasRequests(storage.Books(), i)
    {
      hide *;
      CoreParts();
      picker.CompleteMeansAll();
      WantIs(storage.Books(), NewPeer(0), i);
      if i < storage.g.numPieces {
        CountedOpen(storage.g.numPieces, backlog, storage.Books(), downloads, picker.numinterests, i);
      }
    }

    /** Nor is anything outstanding. */
    lemma {:induction false} NothingOutstanding()
      requires Core() && EndShared() && picker.AmIComplete()
      ensures allRequests == []
    {
      hide *;
      CoreParts();
      EndSharedIs();
      storage.ValidIs();
      storage.RequestsParts();
      picker.CompleteMeansAll();
      if allRequests != [] {
        SameMembers(storage.outstanding, allRequests);
        var r := allRequests[0];
        assert r in allRequests;
        OutstandingOnce(storage.g, storage.Books(), storage.outstanding, storage.received, r);
        CountedOpen(storage.g.numPieces, backlog, storage.Books(), downloads, picker.numinterests, r.index);
      }
    }

    /** `got_have`; `close` is whether the connection is closed, as of no more use. */
    method GotHave(k: nat, index: nat) returns (close: bool)
      requires Valid() && k < |downloads| && downloads[k].gotAnything && index < storage.g.numPieces
      modifies this`downloads, this`allRequests, picker,
               storage`inactiveRequests, storage`numactive, storage`amountInactive, storage`endgame, storage`outstanding
      ensures Valid() && |downloads| == |old(downloads)|
      ensures forall j :: 0 <= j < |downloads| && j != k ==> Standing(downloads[j]) == Standing(old(downloads)[j])
      ensures index < |old(downloads)[k].have|
      ensures Standing(downloads[k]) == Standing(old(downloads)[k].(have := old(downloads)[k].have[index := true]))
      ensures close <==> !old(downloads)[k].have[index] && picker.AmIComplete() && IsSeed(downloads[k])
      // before endgame it is asked for blocks of that piece, if it is unchoked, and nobody else is asked for anything
      ensures !storage.endgame ==> OnlyAsked(Some([index]), old(downloads), downloads, k)
    {
      hide *;
      ValidIs();
      SpreadIs();
      AtWorkIs();
      CoreParts();
      ghost var books, before, n := storage.Books(), downloads, storage.g.numPieces;
      NobodyAsked(Some([index]), before, before, k);
      PeerIs(n, backlog, downloads[k]);
      HasIs(downloads[k], index);
      if downloads[k].have[index] {
        assert downloads[k].(have := downloads[k].have[index := true]) == downloads[k];
        return false;
      }
      PeerGains(n, backlog, books, downloads[k], index);
      AllAre(books, backlog, downloads, late);
      Gain(k, index);
      SpreadIs();
      ghost var q, gained, asked := downloads[k], downloads, storage.endgame;
      AllUpdate(n, backlog, books, [], before, k, q, late);
      SeedIs(q);
      if picker.AmIComplete() && IsSeed(downloads[k]) {
        NothingToAsk(index);
        if storage.endgame {
          NothingOutstanding();
          AllBusyIs(allRequests, backlog, before);
          BusyWithNothing(backlog, before[k], q.have, q.gotAnything);
          BusyUpdate(allRequests, backlog, before, k, q);
        }
        close := true;
      } else {
        close := false;
        if storage.endgame {
          AllBusyIs(allRequests, backlog, before);
          FixOne(k);
          BusyUpdate(allRequests, backlog, gained, k, downloads[k]);
        } else if HasRequests(storage.Books(), index) {
          if !downloads[k].choked {
            AllAre(books, backlog, downloads, late);
            asked := true;
            AskMore(k, Some([index]));
            if !storage.endgame {
              OnlyAskedSame(Some([index]), gained, before, downloads, k);
            }
          } else {
            WantIs(books, q, index);
            HasIs(q, index);
            CoreParts();
            PeerMarkedFor(n, backlog, books, q, index);
            StandingIs(q, q.(interested := true));
            AllUpdate(n, backlog, books, [], before, k, q.(interested := true), late);
            assert before[k := q.(interested := true)] == gained[k := q.(interested := true)];
            if !downloads[k].interested {
              SetPeer(k, downloads[k].(interested := true));
            } else {
              assert gained[k := q.(interested := true)] == gained;
            }
          }
        }
      }
      if !asked {
        NobodyAsked(Some([index]), before, downloads, k);
      }
      SpreadIs();
      AtWorkIs();
      ValidIs();
      SeedIs(downloads[k]);
      StandingIs(q, downloads[k]);
    }

    /** The pieces of a peer that comes are counted once more. */
    method Count(p: Peer, ghost books: Ledger, ghost before: seq<Peer>, ghost k: nat)
      requires picker.Valid() && |picker.interests| <= BEST_START
      requires |p.have| == |picker.numinterests| == |books.inactive| == picker.numpieces
      requires CountsAgree(books, before, picker.numinterests)
      requires k < |before| < BEST_START && forall i: nat :: !Has(before[k], i)
      modifies picker`interests, picker`posInInterests, picker`numinterests
      ensures picker.Valid() && |picker.interests| <= BEST_START
      ensures CountsAgree(books, before[k := p], picker.numinterests)
    {
      hide *;
      PlusNone(books, before, p, 0, picker.numinterests);
      for i := 0 to |p.have|
        invariant picker.Valid() && |picker.interests| <= BEST_START && |picker.numinterests| == |p.have|
        invariant CountsPlus(books, before, p, 0, i, picker.numinterests)
      {
        PlusUp(books, before, p, i, picker.numinterests);
        HasIs(p, i);
        CountUpSize(picker.numinterests, i);
        if p.have[i] {
          HaveCountUpdate(before, k, p, i);
          HaveCountBound(before[k := p], i);
          picker.GotHave(i);
        }
      }
      PlusAll(books, before, k, p, |p.have|, picker.numinterests);
    }

    /** Peer `k` in its new state, once its pieces are counted. */
    method Install(k: nat, p: Peer)
      requires storage.Valid() && picker.Valid()
      requires |picker.interests| <= BEST_START && picker.numpieces == storage.g.numPieces
      requires |storage.Books().inactive| == storage.g.numPieces && k < |downloads| < BEST_START && 0 < backlog
      requires forall j :: 0 <= j < |downloads| ==> PeerOk(storage.g.numPieces, backlog, downloads[j])
      requires PeerOk(storage.g.numPieces, backlog, p) && p.active == downloads[k].active
      requires CountsAgree(storage.Books(), downloads[k := p], picker.numinterests) && Spread()
      requires Begun(storage.Books(), picker.started)
      modifies this`downloads
      ensures Core() && Spread() && downloads == old(downloads)[k := p]
    {
      hide *;
      SpreadIs();
      SharedIs();
      EndSharedIs();
      SwarmFrom(storage.g.numPieces, backlog, storage.Books(), downloads[k := p], picker.numinterests);
      FlattenSame(downloads, downloads[k := p]);
      AmongSameIf(downloads, downloads[k := p], allRequests);
      downloads := downloads[k := p];
      CoreWhole();
      SharedIs();
      EndSharedIs();
      SpreadIs();
    }

    /** `got_have_bitfield`, the first message of a peer; `close` is whether the connection is closed, as of no use. */
    method GotHaveBitfield(k: nat, have: seq<bool>) returns (close: bool)
      requires Valid() && k < |downloads| && !downloads[k].gotAnything && |have| == storage.g.numPieces
      modifies this`downloads, picker`interests, picker`posInInterests, picker`numinterests
      ensures Valid() && |downloads| == |old(downloads)|
      ensures forall j :: 0 <= j < |downloads| && j != k ==> downloads[j] == old(downloads)[j]
      ensures Standing(downloads[k]) == Standing(old(downloads)[k].(have := have, gotAnything := true))
      ensures close <==> picker.AmIComplete() && IsSeed(downloads[k])
      ensures downloads[k].interested <==>
        !close && Helps(old(storage.Books()), have, if storage.endgame then allRequests else [])
    {
      hide *;
      ValidIs();
      SpreadIs();
      AtWorkIs();
      CoreParts();
      var books, n := storage.Books(), storage.g.numPieces;
      ghost var before := downloads;
      SwarmParts(n, backlog, books, before, picker.numinterests);
      PeerTells(n, backlog, books, before[k], have, false);
      var q := downloads[k].(have := have, gotAnything := true);
      Count(q, books, before, k);
      close := picker.AmIComplete() && IsSeed(q);
      SeedIs(q);
      var interested := false;
      if !close {
        interested := AnyOf(books, have, if storage.endgame then allRequests else []);
      }
      PeerTells(n, backlog, books, before[k], have, interested);
      assert before[k].(have := have, interested := interested, gotAnything := true) == q.(interested := interested);
      StandingIs(q, q.(interested := interested));
      CountsMarked(books, before, k, q, q.(interested := interested), picker.numinterests);
      Install(k, q.(interested := interested));
      SpreadIs();
      AllUpdate(n, backlog, books, [], before, k, downloads[k], late);
      if close {
        assert q == q.(interested := false);
        forall i: nat
          ensures !HasRequests(books, i)
        {
          NothingToAsk(i);
        }
      }
      if storage.endgame {
        TellsBusy(before, k, have, close);
      }
      AtWorkIs();
      ValidIs();
      SeedIs(downloads[k]);
    }

    lemma {:induction false} TellsBusy(before: seq<Peer>, k: nat, have: seq<bool>, close: bool)
      requires Core() && EndShared() && AllBusy(allRequests, backlog, before) && k < |before| && before[k].choked
      requires close ==> picker.AmIComplete()
      requires var interested := !close && Helps(storage.Books(), have, allRequests);
        downloads == before[k := before[k].(have := have, interested := interested, gotAnything := true)]
      ensures AllBusy(allRequests, backlog, downloads)
    {
      hide *;
      NothingToGive();
      if close {
        NothingOutstanding();
      }
      AllBusyIs(allRequests, backlog, before);
      HelpsIs(storage.Books(), have, allRequests);
      BusyTells(allRequests, backlog, storage.Books(), before[k], have, !close && Helps(storage.Books(), have, allRequests));
      BusyUpdate(allRequests, backlog, before, k, downloads[k]);
    }

    /** What the bytes of piece `index`, wherever it sits, hash to. */
    ghost function PieceHash(index: nat): Digest
      reads storage`places, storage.storage
    {
      storage.sha.Of(Content(storage.g, storage.places, storage.CurrentSlots(), index))
    }

    lemma {:induction false} PieceHashIs(index: nat)
      ensures PieceHash(index) == storage.sha.Of(Content(storage.g, storage.places, storage.CurrentSlots(), index))
    {
    }

    /** Peer `k` is no longer asked for the block, the storage takes it, and the picker is told if it completed its
        piece. */
    method Accept(k: nat, index: nat, begin: nat, piece: seq<byte>) returns (ok: bool)
      requires Core() && k < |downloads| && Request(index, begin, |piece|) in downloads[k].active
      requires Request(index, begin, |piece|) in storage.outstanding
      modifies this`downloads, storage, storage.storage, picker
      ensures Core()
      ensures downloads == old(downloads)[k := old(downloads)[k].(active := Removed(old(downloads)[k].active, Request(index, begin, |piece|)))]
      ensures forall r :: r in downloads[k].active ==> r in old(downloads)[k].active
      ensures storage.outstanding == Removed(old(storage.outstanding), Request(index, begin, |piece|))
      ensures storage.received == ReceivedAfter(old(storage.Books()), Request(index, begin, |piece|),
                                                old(storage.received))
      ensures Sized(storage.g, old(storage.Books())) && index < storage.g.numPieces
      ensures old(storage.Books()).inactive[index].Pending?
      ensures storage.Books() == Arrived(storage.g, old(storage.Books()), index, ok)
      ensures index < |storage.hashes|
      ensures (ok <==> LastBlock(old(storage.Books()), index) ==> PieceHash(index) == storage.hashes[index])
      ensures index < |storage.have| && (storage.have[index] <==> LastBlock(old(storage.Books()), index) && ok)
      ensures picker.started == if storage.have[index] then Without(old(picker.started), index) else old(picker.started)
      ensures picker.seedstarted ==
              if storage.have[index] then Without(old(picker.seedstarted), index) else old(picker.seedstarted)
      ensures !storage.have[index] ==> unchanged(picker)
      ensures index in old(picker.started)
      ensures BlockIn(storage.g, old(storage.places), old(storage.CurrentSlots()), storage.places,
                      storage.CurrentSlots(), index, begin, piece)
    {
      hide *;
      CoreParts();
      storage.ValidIs();
      storage.RequestsParts();
      ghost var r, books, n, before := Request(index, begin, |piece|), storage.Books(), storage.g.numPieces, downloads;
      OutstandingOnce(storage.g, books, storage.outstanding, storage.received, r);
      PeerAnswered(n, backlog, downloads[k], r);
      ghost var q := downloads[k].(active := Removed(downloads[k].active, r));
      SameCompleteSelf(books);
      SwarmUpdate(n, backlog, books, books, before, picker.numinterests, k, q);
      downloads := downloads[k := downloads[k].(active := Removed(downloads[k].active,
                                                                  Request(index, begin, |piece|)))];
      CountedOpen(n, backlog, books, downloads, picker.numinterests, index);
      picker.StartedOnce();
      ok := storage.PieceCameIn(index, begin, piece);
      BegunArrived(storage.g, books, picker.started, index, ok);
      PieceHashIs(index);
      storage.ValidIs();
      storage.PiecesSized();
      ArrivedRequests(storage.g, books, index, ok);
      if storage.have[index] {
        SwarmDone(n, backlog, books, storage.Books(), downloads, picker.numinterests, index);
        picker.Complete(index);
      } else {
        SwarmBooks(n, backlog, books, storage.Books(), downloads, picker.numinterests);
      }
      CoreWhole();
    }

    /** In endgame, peer `j` is cancelled what peer `k` has sent. */
    method DropFrom(j: nat, k: nat, r: Request, ghost done: set<nat>, ghost all: seq<Request>)
      requires Core() && j < |downloads| && Distinct(allRequests) && r !in allRequests
      requires (forall q :: q in allRequests ==> q in all) && (j != k ==> Busy(all, backlog, downloads[j]))
      requires DroppedBy(downloads, allRequests, r, done) && k in done
      modifies this`downloads
      ensures Core() && |downloads| == |old(downloads)|
      ensures downloads == old(downloads)[j := downloads[j]] && downloads[j].choked == old(downloads)[j].choked
      ensures Standing(downloads[j]) == Standing(old(downloads)[j])
      ensures DroppedBy(downloads, allRequests, r, done + {j})
      ensures j != k ==> Busy(allRequests, backlog, downloads[j])
    {
      hide *;
      CoreParts();
      ghost var n, before := storage.g.numPieces, downloads;
      var p := downloads[j];
      PeerIs(n, backlog, p);
      if j == k {
        assert done + {j} == done;
        return;
      }
      if !p.interested || !p.choked {
        BusyLess(all, allRequests, backlog, p);
      }
      if !p.interested {
        DroppedStep(before, allRequests, r, done, j, p, p, backlog);
        assert before[j := p] == before;
        return;
      }
      if p.choked {
        FixDownloadEndgame(j);
        DroppedStep(before, allRequests, r, done, j, p, downloads[j], backlog);
        FixedOk(n, allRequests, backlog, p, downloads[j]);
        FixedBusy(n, allRequests, backlog, p, downloads[j]);
        return;
      }
      if r !in p.active {
        DroppedStep(before, allRequests, r, done, j, p, p, backlog);
        assert before[j := p] == before;
        return;
      }
      ghost var q := p.(active := Removed(p.active, r));
      PeerAnswered(n, backlog, p, r);
      StandingIs(p, q);
      SameCompleteSelf(storage.Books());
      SwarmUpdate(n, backlog, storage.Books(), storage.Books(), before, picker.numinterests, j, q);
      downloads := downloads[j := p.(active := Removed(p.active, r))];
      CoreWhole();
      FixDownloadEndgame(j);
      FixedOk(n, allRequests, backlog, q, downloads[j]);
      FixedBusy(n, allRequests, backlog, q, downloads[j]);
      DroppedStep(before, allRequests, r, done, j, q, downloads[j], backlog);
      assert downloads == before[j := downloads[j]];
    }

    /** In endgame, everybody but the sender `k` is cancelled the block that came in. */
    method DropFromOthers(k: nat, r: Request, ghost all: seq<Request>)
      requires Core() && k < |downloads| && Distinct(allRequests)
      requires r !in allRequests && DroppedBy(downloads, allRequests, r, {k})
      requires forall q :: q in allRequests ==> q in all
      requires forall j :: 0 <= j < |downloads| && j != k ==> Busy(all, backlog, downloads[j])
      modifies this`downloads
      ensures Core() && |downloads| == |old(downloads)| && AllAmong(downloads, allRequests)
      ensures forall j :: 0 <= j < |downloads| && j != k ==> Busy(allRequests, backlog, downloads[j])
      ensures forall j :: 0 <= j < |downloads| ==> downloads[j].choked == old(downloads)[j].choked
      ensures forall j :: 0 <= j < |downloads| ==> Standing(downloads[j]) == Standing(old(downloads)[j])
    {
      hide *;
      ghost var done: set<nat> := {k};
      for j := 0 to |downloads|
        invariant Core() && |downloads| == |old(downloads)|
        invariant k in done && (forall i: nat :: i < j ==> i in done) && DroppedBy(downloads, allRequests, r, done)
        invariant forall i :: 0 <= i < j && i != k ==> Busy(allRequests, backlog, downloads[i])
        invariant forall i :: j <= i < |downloads| && i != k ==> Busy(all, backlog, downloads[i])
        invariant forall i :: 0 <= i < |downloads| ==> downloads[i].choked == old(downloads)[i].choked
        invariant forall j :: 0 <= j < |downloads| ==> Standing(downloads[j]) == Standing(old(downloads)[j])
      {
        DropFrom(j, k, r, done, all);
        done := done + {j};
      }
      DroppedEnd(downloads, allRequests, r, done);
    }

    /** In endgame, a piece that turned out bad is asked for again, block by block. */
    method AskAgain(index: nat)
      requires Core() && storage.endgame && index < storage.g.numPieces && index in picker.started
      requires multiset(storage.outstanding) == multiset(allRequests)
      requires forall j: nat :: HasRequests(storage.Books(), j) ==> j == index
      modifies this`allRequests, storage`inactiveRequests, storage`numactive, storage`amountInactive, storage`endgame,
               storage`outstanding
      ensures Core() && storage.endgame && storage.amountInactive == 0
      ensures multiset(storage.outstanding) == multiset(allRequests) && old(allRequests) <= allRequests
      ensures SameComplete(old(storage.Books()), storage.Books()) && !HasRequests(storage.Books(), index)
    {
      hide *;
      ghost var books0, n := storage.Books(), storage.g.numPieces;
      SameCompleteSelf(books0);
      storage.BooksAre();
      while HasRequests(storage.Books(), index)
        invariant Core() && storage.endgame && storage.Books().endgame
        invariant multiset(storage.outstanding) == multiset(allRequests) && old(allRequests) <= allRequests
        invariant forall j: nat :: HasRequests(storage.Books(), j) ==> j == index
        invariant SameComplete(books0, storage.Books())
        decreases storage.amountInactive
      {
        CoreParts();
        storage.ValidIs();
        storage.RequestsParts();
        storage.BooksAre();
        ghost var books := storage.Books();
        OpenedNonempty(storage.g, books, index);
        ghost var (books', s) := Requests.NewRequest(storage.g, books, index);
        NewRequestBalanced(storage.g, books, storage.outstanding, storage.received, index,
                           storage.outstanding + [At(index, s)]);
        NewRequestRequests(storage.g, books, index);
        EasedIs(books, books');
        NewRequestLess(storage.g, books, index);
        BegunMore(storage.g, books, picker.started, index, picker.started);
        CompleteKept(storage.g, books, index);
        SameCompleteTransitive(books0, books, books');
        SomeLeft(index);
        var slice := storage.NewRequest(index);
        AtIs(index, slice);
        allRequests := allRequests + [Request(index, slice.0, slice.1)];
        SwarmBooks(n, backlog, books, storage.Books(), downloads, picker.numinterests);
        storage.BooksAre();
        CoreWhole();
      }
      CoreParts();
      storage.ValidIs();
      storage.RequestsParts();
      storage.BooksAre();
      NothingUnasked(storage.g, storage.Books(), storage.outstanding, storage.received);
    }

    /** Peer `k`, with the block `r` off its list and the pieces under way as they were but for a completed one, is asked
        for what is due, and before endgame nobody else for anything. What all was before is given. */
    ghost predicate Resumed(k: nat, r: Request, got: bool, books: Ledger, before: seq<Peer>, started: seq<nat>,
                            seedstarted: seq<nat>)
      reads this`downloads, storage, picker
    {
      && k < |before| == |downloads| && r in before[k].active
      && var p := before[k].(active := Removed(before[k].active, r));
         && Asks(storage.g, Arrived(storage.g, books, r.index, true), storage.Books(), before[k := p],
                 WithStarted(picker.Current(), started, seedstarted, r.index, got), None, p, downloads[k])
         && (!storage.endgame ==> OnlyAsked(None, before[k := p], downloads, k))
    }

    lemma {:induction false} ResumedFrom(k: nat, r: Request, got: bool, books: Ledger, before: seq<Peer>, started: seq<nat>,
                                         seedstarted: seq<nat>, p: Peer)
      requires k < |before| == |downloads| && r in before[k].active
      requires p == before[k].(active := Removed(before[k].active, r))
      requires Asks(storage.g, Arrived(storage.g, books, r.index, true), storage.Books(), before[k := p],
                    WithStarted(picker.Current(), started, seedstarted, r.index, got), None, p, downloads[k])
      requires !storage.endgame ==> OnlyAsked(None, before[k := p], downloads, k)
      ensures Resumed(k, r, got, books, before, started, seedstarted)
    {
    }

    /** Before endgame, the rest of `got_piece` after a block that did not spoil its piece. */
    method Continue(k: nat, r: Request, ghost books: Ledger, ghost before: seq<Peer>, ghost started: seq<nat>,
                    ghost seedstarted: seq<nat>)
      requires Core() && Shared() && !storage.endgame
      requires k < |downloads| == |before| && downloads == before[k := downloads[k]] && !downloads[k].choked
      requires r in before[k].active && downloads[k] == before[k].(active := Removed(before[k].active, r))
      requires storage.Books() == Arrived(storage.g, books, r.index, true)
      requires r.index < |storage.have|
      requires picker.started == if storage.have[r.index] then Without(started, r.index) else started
      requires picker.seedstarted == if storage.have[r.index] then Without(seedstarted, r.index) else seedstarted
      requires forall j: nat :: HasRequests(storage.Books(), j) <==> HasRequests(books, j)
      requires AllSettled(books, before) && AllServed(books, backlog, [], before, late + {k})
      requires k !in late && forall j :: j in late ==> j < |downloads|
      modifies this`downloads, this`allRequests,
               storage`inactiveRequests, storage`numactive, storage`amountInactive, storage`endgame, storage`outstanding,
               picker`started, picker`seedstarted
      ensures Valid() && |downloads| == |old(downloads)|
      ensures forall j :: 0 <= j < |downloads| ==> Standing(downloads[j]) == Standing(old(downloads)[j])
      ensures Resumed(k, r, storage.have[r.index], books, before, started, seedstarted)
    {
      hide *;
      SpreadIs();
      ghost var order, mid := picker.Current(), downloads;
      picker.CurrentIs();
      OthersAfter(books, storage.Books(), backlog, before, k, downloads, late + {k});
      AskMore(k, None);
      picker.CurrentIs();
      WithStartedIs(order, picker.Current(), started, seedstarted, r.index, storage.have[r.index]);
      ResumedFrom(k, r, storage.have[r.index], books, before, started, seedstarted, mid[k]);
      SpreadIs();
      AtWorkIs();
      ValidIs();
    }

    /** A bad piece went to the end of its bucket; unless endgame has begun the unchoked peers were offered blocks of it
        and nothing else, and choked ones that were not marked are left so, hence without work as long as it has
        requests to give. */
    ghost predicate StartedOver(index: nat, before: seq<Peer>, interests: seq<seq<nat>>, was: set<nat>)
      reads this`downloads, storage, picker
    {
      && MovedBack(interests, picker.interests, index)
      && (!storage.endgame ==>
            AllOffered([index], before, downloads)
            && OverlookedLeft(storage.Books(), backlog, before, downloads, index, was))
    }

    lemma {:induction false} StartedOverIs(index: nat, before: seq<Peer>, interests: seq<seq<nat>>, was: set<nat>)
      ensures StartedOver(index, before, interests, was) <==>
        && MovedBack(interests, picker.interests, index)
        && (!storage.endgame ==>
              AllOffered([index], before, downloads)
              && OverlookedLeft(storage.Books(), backlog, before, downloads, index, was))
    {
    }

    /** Before endgame, after the last block of a piece that turned out bad. */
    method Retry(k: nat, index: nat, ghost books: Ledger, ghost before: seq<Peer>, ghost was: set<nat>)
      requires Core() && Shared() && !storage.endgame
      requires k < |downloads| == |before| && downloads == before[k := downloads[k]] && !downloads[k].choked
      requires index < storage.g.numPieces && index < |storage.Books().inactive|
      requires !storage.Books().inactive[index].Complete?
      requires Reopened(books, storage.Books(), [index]) && AllSettled(books, before)
      requires AllServed(books, backlog, [], before, was) && late == was + {k} + Overlooked(before, index)
      requires !before[k].choked && Standing(downloads[k]) == Standing(before[k])
      requires forall r :: r in downloads[k].active ==> r in before[k].active
      requires forall j :: j in late ==> j < |downloads|
      modifies this`downloads, this`allRequests, picker,
               storage`inactiveRequests, storage`numactive, storage`amountInactive, storage`endgame, storage`outstanding
      ensures Valid() && |downloads| == |old(downloads)|
      ensures forall j :: 0 <= j < |downloads| ==> Standing(downloads[j]) == Standing(old(downloads)[j])
      ensures StartedOver(index, before, old(picker.interests), was)
    {
      hide *;
      ghost var mid, reopened := downloads, storage.Books();
      ghost var ready := set j: nat | j < |before| && before[j].choked && j !in Overlooked(before, index);
      ReadyAfterBad(books, storage.Books(), backlog, before, k, downloads[k], index, was, ready);
      SpreadIs();
      CoreParts();
      CountedOpen(storage.g.numPieces, backlog, storage.Books(), downloads, picker.numinterests, index);
      HopefulAfter(books, storage.Books(), backlog, before, k, downloads[k], index);
      picker.Bump(index);
      MovedBackFrom(old(picker.interests), picker.interests, picker.numinterests[index].value, index);
      CoreWhole();
      SpreadIs();
      ghost var done := WakeUnchoked([index], ready);
      if !storage.endgame {
        ChokedSame(before, downloads);
        ServedAfterBad(storage.Books(), backlog, index, downloads, done, late);
        OfferedFrom([index], before, mid, downloads, k);
        OverlookedAll(books, reopened, storage.Books(), backlog, before, downloads, index, was);
      }
      StartedOverIs(index, before, old(picker.interests), was);
      SpreadIs();
      AtWorkIs();
      ValidIs();
    }

    /** In endgame, after a block that did not spoil its piece. */
    method ContinueEndgame(k: nat, r: Request, ghost all: seq<Request>)
      requires Core() && storage.endgame && storage.amountInactive == 0 && k < |downloads| && !downloads[k].choked
      requires multiset(storage.outstanding) == multiset(allRequests) && Distinct(allRequests) && r !in allRequests
      requires DroppedBy(downloads, allRequests, r, {k}) && forall j :: j in late ==> j < |downloads|
      requires forall q :: q in allRequests ==> q in all
      requires forall j :: 0 <= j < |downloads| && j != k ==> Busy(all, backlog, downloads[j])
      modifies this`downloads, this`allRequests,
               storage`inactiveRequests, storage`numactive, storage`amountInactive, storage`endgame, storage`outstanding,
               picker`started, picker`seedstarted
      ensures Valid() && |downloads| == |old(downloads)|
      ensures forall j :: 0 <= j < |downloads| ==> Standing(downloads[j]) == Standing(old(downloads)[j])
    {
      hide *;
      DropFromOthers(k, r, all);
      EndSharedIs();
      SoundIs();
      RequestMore(k, None);
      AllBusyIs(allRequests, backlog, downloads);
      AtWorkIs();
      ValidIs();
    }

    /** In endgame, after the last block of a piece that turned out bad. */
    method RetryEndgame(k: nat, r: Request)
      requires Core() && storage.endgame && r.index in picker.started
      requires r.index < storage.g.numPieces && (r.begin, r.length) in Tile(storage.g, r.index)
      requires multiset(storage.outstanding) == multiset(allRequests) && DroppedBy(downloads, allRequests, r, {k})
      requires forall j: nat :: HasRequests(storage.Books(), j) <==> j == r.index
      requires forall q :: q in storage.received ==> q.index != r.index
      requires forall j :: j in late ==> j < |downloads|
      modifies this`downloads, this`allRequests,
               storage`inactiveRequests, storage`numactive, storage`amountInactive, storage`endgame, storage`outstanding
      ensures Valid() && |downloads| == |old(downloads)| && storage.endgame
      ensures forall j :: 0 <= j < |downloads| ==> Standing(downloads[j]) == Standing(old(downloads)[j])
    {
      hide *;
      ghost var books, all := storage.Books(), allRequests;
      WantIs(books, NewPeer(0), r.index);
      AskAgain(r.index);
      CoreParts();
      storage.ValidIs();
      storage.RequestsParts();
      SameCompleteIs(books, storage.Books());
      OpenPending(storage.Books(), r.index);
      AtIs(r.index, (r.begin, r.length));
      AllAskedAgain(storage.g, storage.Books(), storage.outstanding, storage.received, r.index, (r.begin, r.length));
      SameMembers(storage.outstanding, allRequests);
      DroppedAgain(downloads, all, r, {k}, allRequests);
      EndSharedIs();
      FixAll();
      SoundIs();
      AtWorkIs();
      ValidIs();
    }

    /** `[i for i in self.downloader.downloads if i.have.numfalse == 0]`, once there is nothing left to get. */
    method Useless() returns (closing: seq<nat>)
      ensures forall j: nat :: j in closing <==> j < |downloads| && IsSeed(downloads[j]) && picker.AmIComplete()
    {
      closing := [];
      if picker.AmIComplete() {
        for j := 0 to |downloads|
          invariant forall i: nat :: i in closing <==> i < j && IsSeed(downloads[i])
        {
          if IsSeed(downloads[j]) {
            closing := closing + [j];
          }
        }
      }
    }

    /** Whatever a peer is asked for is outstanding. */
    lemma {:induction false} AskedOf(k: nat, r: Request)
      requires Sound() && k < |downloads| && r in downloads[k].active
      ensures r in storage.outstanding
    {
      hide *;
      SpreadIs();
      SharedIs();
      EndSharedIs();
      if storage.endgame {
        AllAmongIs(downloads, allRequests);
        AmongIs(downloads[k].active, allRequests);
        SameMembers(storage.outstanding, allRequests);
      } else {
        FlattenMember(downloads, k, r);
        SameMembers(storage.outstanding, Flatten(downloads));
      }
    }

    /** `got_piece`; `got` is whether it completed its piece, `closing` the peers whose connections are then closed. */
    method GotPiece(k: nat, index: nat, begin: nat, piece: seq<byte>) returns (got: bool, closing: seq<nat>)
      requires Valid() && k < |downloads|
      modifies this, storage, storage.storage, picker
      ensures Valid() && |downloads| == |old(downloads)|
      ensures forall j :: 0 <= j < |downloads| ==> Standing(downloads[j]) == Standing(old(downloads)[j])
      // a block that this peer was not asked for changes nothing
      ensures Request(index, begin, |piece|) !in old(downloads)[k].active ==>
        !got && closing == [] && unchanged(this) && unchanged(storage) && unchanged(storage.storage) && unchanged(picker)
      // one that it was asked for is written, once in this attempt
      ensures Request(index, begin, |piece|) in old(downloads)[k].active ==>
        && BlockIn(storage.g, old(storage.places), old(storage.CurrentSlots()), storage.places, storage.CurrentSlots(),
                   index, begin, piece)
        && Request(index, begin, |piece|) !in old(storage.received)
        && storage.received == ReceivedAfter(old(storage.Books()), Request(index, begin, |piece|),
                                             old(storage.received))
      // the piece is complete if that was the last one and the hash is right
      ensures Request(index, begin, |piece|) in old(downloads)[k].active ==>
        && index < |storage.hashes| && index < |storage.have| && (got <==> storage.have[index])
        && (got <==> LastBlock(old(storage.Books()), index) && PieceHash(index) == storage.hashes[index])
        && late == if LastBlock(old(storage.Books()), index) && !got
                   then old(late) + {k} + Overlooked(old(downloads), index)
                   else old(late) - {k}
      // if it was and the hash is wrong, then before endgame the piece starts over, and else its peer is asked for more
      ensures Request(index, begin, |piece|) in old(downloads)[k].active && !old(storage.endgame) ==>
        if LastBlock(old(storage.Books()), index) && !got then
          StartedOver(index, old(downloads), old(picker.interests), old(late))
        else
          Resumed(k, Request(index, begin, |piece|), got, old(storage.Books()), old(downloads), old(picker.started),
                  old(picker.seedstarted))
      // once all is there, the connections to all that have everything are closed
      ensures forall j: nat :: j in closing <==>
        Request(index, begin, |piece|) in old(downloads)[k].active && picker.AmIComplete() && j < |downloads| && IsSeed(downloads[j])
    {
      hide *;
      closing := [];
      if Request(index, begin, |piece|) !in downloads[k].active {
        return false, closing;
      }
      ghost var books, before, received, places, slots := storage.Books(), downloads, storage.received, storage.places, storage.CurrentSlots();
      ghost var started, seedstarted, all := picker.started, picker.seedstarted, allRequests;
      var ok := Receive(k, index, begin, piece);
      WrittenIs(index, begin, piece, books, received, places, slots);
      if !ok {
        ghost var was := late;
        late := was + {k} + Overlooked(before, index);
        if storage.endgame {
          RetryEndgame(k, Request(index, begin, |piece|));
        } else {
          Retry(k, index, books, before, was);
        }
        if picker.AmIComplete() {
          CompleteIsAll(index);
        }
        got := false;
      } else {
        LateMore(books, backlog, before, late, late - {k} + {k});
        late := late - {k};
        if storage.endgame {
          ContinueEndgame(k, Request(index, begin, |piece|), all);
        } else {
          Continue(k, Request(index, begin, |piece|), books, before, started, seedstarted);
        }
        closing := Useless();
        got := storage.have[index];
      }
    }

    /** Once every piece has been completed we have every piece. */
    lemma {:induction false} CompleteIsAll(i: nat)
      requires Valid() && picker.AmIComplete() && i < storage.g.numPieces
      ensures i < |storage.have| && storage.have[i]
    {
      hide *;
      ValidIs();
      SpreadIs();
      CoreParts();
      storage.ValidIs();
      storage.RequestsParts();
      storage.BooksAre();
      picker.CompleteMeansAll();
      SwarmParts(storage.g.numPieces, backlog, storage.Books(), downloads, picker.numinterests);
      CountsAre(storage.Books(), downloads, picker.numinterests);
    }

    /** The block went into the storage: what that was before is given. */
    ghost predicate Written(index: nat, begin: nat, piece: seq<byte>, books: Ledger, received: set<Request>,
                            places: map<nat, nat>, slots: seq<seq<byte>>)
      reads storage, storage.storage
    {
      && BlockIn(storage.g, places, slots, storage.places, storage.CurrentSlots(), index, begin, piece)
      && Request(index, begin, |piece|) !in received
      && storage.received == ReceivedAfter(books, Request(index, begin, |piece|), received)
      && index < |storage.hashes| && index < |storage.have|
      && (storage.have[index] <==> LastBlock(books, index) && PieceHash(index) == storage.hashes[index])
    }

    lemma {:induction false} WrittenIs(index: nat, begin: nat, piece: seq<byte>, books: Ledger, received: set<Request>,
                                       places: map<nat, nat>,
                                       slots: seq<seq<byte>>)
      ensures Written(index, begin, piece, books, received, places, slots) <==>
        && BlockIn(storage.g, places, slots, storage.places, storage.CurrentSlots(), index, begin, piece)
        && Request(index, begin, |piece|) !in received
        && storage.received == ReceivedAfter(books, Request(index, begin, |piece|), received)
        && index < |storage.hashes| && index < |storage.have|
        && (storage.have[index] <==> LastBlock(books, index) && PieceHash(index) == storage.hashes[index])
    {
    }

    /** `got_piece` up to the answer of `piece_came_in`. */
    method Receive(k: nat, index: nat, begin: nat, piece: seq<byte>) returns (ok: bool)
      requires Valid() && k < |downloads| && Request(index, begin, |piece|) in downloads[k].active
      modifies this`downloads, this`allRequests, storage, storage.storage, picker
      ensures Core() && |downloads| == |old(downloads)|
      ensures downloads == old(downloads)[k := downloads[k]] && !downloads[k].choked && !old(downloads)[k].choked
      ensures downloads[k] == old(downloads)[k].(active := Removed(old(downloads)[k].active, Request(index, begin, |piece|)))
      ensures storage.Books() == Arrived(storage.g, old(storage.Books()), index, ok)
      ensures storage.have[index] ==> ok
      ensures picker.started == if storage.have[index] then Without(old(picker.started), index) else old(picker.started)
      ensures picker.seedstarted ==
              if storage.have[index] then Without(old(picker.seedstarted), index) else old(picker.seedstarted)
      ensures !storage.have[index] ==> unchanged(picker)
      ensures !ok ==> index in picker.started && !storage.have[index]
      ensures forall r :: r in downloads[k].active ==> r in old(downloads)[k].active
      ensures forall j :: j in late ==> j < |downloads|
      ensures forall j :: 0 <= j < |downloads| ==> Standing(downloads[j]) == Standing(old(downloads)[j])
      ensures storage.endgame == old(storage.endgame)
      ensures Written(index, begin, piece, old(storage.Books()), old(storage.received), old(storage.places),
                      old(storage.CurrentSlots()))
      ensures index < |storage.hashes|
      ensures (ok <==> LastBlock(old(storage.Books()), index) ==> PieceHash(index) == storage.hashes[index])
      ensures !storage.endgame ==>
        && Shared() && AllSettled(old(storage.Books()), old(downloads))
        && AllServed(old(storage.Books()), backlog, [], old(downloads), late)
        && (!ok ==> Reopened(old(storage.Books()), storage.Books(), [index]))
      ensures storage.endgame ==>
        && multiset(storage.outstanding) == multiset(allRequests) && Distinct(allRequests) && Request(index, begin, |piece|) !in allRequests
        && DroppedBy(downloads, allRequests, Request(index, begin, |piece|), {k})
        && (if ok then storage.amountInactive == 0 else forall j: nat :: HasRequests(storage.Books(), j) <==> j == index)
        && (forall q :: q in allRequests ==> q in old(allRequests))
        && forall j :: 0 <= j < |downloads| && j != k ==> Busy(old(allRequests), backlog, downloads[j])
      ensures ok ==> forall j: nat :: HasRequests(storage.Books(), j) <==> HasRequests(old(storage.Books()), j)
      ensures index < storage.g.numPieces && Fits(storage.g) && (begin, |piece|) in Tile(storage.g, index)
      ensures !ok ==> index < |storage.Books().inactive| && !storage.Books().inactive[index].Complete?
      ensures !ok ==> forall q :: q in storage.received ==> q.index != index
    {
      hide *;
      ValidIs();
      SpreadIs();
      SharedIs();
      EndSharedIs();
      AtWorkIs();
      CoreParts();
      storage.ValidIs();
      storage.RequestsParts();
      storage.BooksAre();
      ghost var r, books, before := Request(index, begin, |piece|), storage.Books(), downloads;
      PeerIs(storage.g.numPieces, backlog, downloads[k]);
      AskedOf(k, r);
      OutstandingOnce(storage.g, books, storage.outstanding, storage.received, r);
      NothingUnasked(storage.g, books, storage.outstanding, storage.received);
      AllBusyIs(allRequests, backlog, before);
      DropAnswered(k, Request(index, begin, |piece|));
      ok := Accept(k, index, begin, piece);
      StandingIs(before[k], downloads[k]);
      SharedIs();
      ArrivedRequests(storage.g, books, index, ok);
      storage.BooksAre();
      WrittenIs(index, begin, piece, books, old(storage.received), old(storage.places), old(storage.CurrentSlots()));
      if !ok {
        AfterBad(storage.g, books, r, old(storage.received));
        if storage.endgame {
          OnlyReopened(books, storage.Books(), index);
        }
      }
    }

    /** What `got_piece` does to `all_requests`, and what that means once the block is off everybody's list. */
    method DropAnswered(k: nat, r: Request)
      requires Sound() && k < |downloads| && r in downloads[k].active
      modifies this`allRequests
      ensures Core() && r in storage.outstanding
      ensures var after := downloads[k := downloads[k].(active := Removed(downloads[k].active, r))];
        if storage.endgame then
          && multiset(Removed(storage.outstanding, r)) == multiset(allRequests) && Distinct(allRequests) && r !in allRequests
          && DroppedBy(after, allRequests, r, {k})
        else multiset(Removed(storage.outstanding, r)) == multiset(Flatten(after))
      ensures forall q :: q in allRequests ==> q in old(allRequests)
    {
      hide *;
      SpreadIs();
      SharedIs();
      EndSharedIs();
      CoreParts();
      ghost var q := downloads[k].(active := Removed(downloads[k].active, r));
      PeerIs(storage.g.numPieces, backlog, downloads[k]);
      if storage.endgame {
        AllDistinct();
        AllAmongIs(downloads, allRequests);
        AmongIs(downloads[k].active, allRequests);
        DroppedStart(downloads, allRequests, r, k, q);
        DistinctRemoved(allRequests, r);
        RemovedOutstanding(storage.outstanding, allRequests, r);
        allRequests := Removed(allRequests, r);
      } else {
        SharedAnswered(storage.outstanding, downloads, k, q, r);
      }
    }

    // --- What the invariant says, in every reachable state ---

    /** Before endgame every block of a piece under way is in exactly one place: still to be asked for, asked of one
        peer, or received. */
    lemma {:induction false} BlockInOnePlace(i: nat, s: Slice)
      requires Valid() && !storage.endgame && i < storage.g.numPieces
      ensures Fits(storage.g) && |storage.inactiveRequests| == storage.g.numPieces
      ensures storage.inactiveRequests[i].Pending? && s in Tile(storage.g, i) ==>
        multiset(storage.inactiveRequests[i].slices)[s] + multiset(Flatten(downloads))[At(i, s)]
        + (if At(i, s) in storage.received then 1 else 0) == 1
      ensures storage.inactiveRequests[i].Pending? && s !in Tile(storage.g, i) ==>
        s !in storage.inactiveRequests[i].slices && At(i, s) !in Flatten(downloads) && At(i, s) !in storage.received
      ensures !storage.inactiveRequests[i].Pending? ==> At(i, s) !in Flatten(downloads) && At(i, s) !in storage.received
    {
      hide *;
      ValidIs();
      SpreadIs();
      SharedIs();
      CoreParts();
      storage.ValidIs();
      storage.RequestsParts();
      storage.BooksAre();
      BalancedParts(storage.g, storage.Books(), storage.outstanding, storage.received);
      OnePlace(storage.g, storage.Books(), i, multiset(storage.outstanding), storage.received, s);
    }

    /** The two running totals are the sums they stand for. */
    lemma {:induction false} Amounts()
      requires Valid()
      ensures storage.amountInactive == SumUnasked(storage.g, storage.inactiveRequests) >= 0
      ensures storage.amountLeft == SumLeft(storage.g, storage.have) >= 0
      ensures storage.amountInactive == 0 <==> forall i: nat :: !HasRequests(storage.Books(), i)
    {
      hide *;
      ValidIs();
      SpreadIs();
      CoreParts();
      storage.ValidIs();
      storage.RequestsParts();
      storage.PiecesParts();
      storage.BooksAre();
      BalancedParts(storage.g, storage.Books(), storage.outstanding, storage.received);
      NothingUnasked(storage.g, storage.Books(), storage.outstanding, storage.received);
      TalliedIs(storage.g, storage.checkHashes, storage.have, storage.waschecked, storage.amountLeft,
                storage.finishedCalls);
      NothingLeft(storage.g, storage.have);
      forall i: nat
        ensures HasRequests(storage.Books(), i) ==> i < storage.g.numPieces
      {
        WantIs(storage.Books(), NewPeer(0), i);
      }
    }

    /** Before endgame, a peer that has a block nobody was asked for is asked for as much as the backlog allows, or choked
        and known to be interesting, unless a bad piece left it late; and only such a choked peer is so known. */
    lemma {:induction false} NobodyIdle(k: nat)
      requires Valid() && !storage.endgame && k < |downloads| && k !in late
      ensures WantsSome(storage.Books(), downloads[k]) && !downloads[k].choked ==> |downloads[k].active| == backlog
      ensures downloads[k].choked ==> (downloads[k].interested <==> WantsSome(storage.Books(), downloads[k]))
    {
      hide *;
      ValidIs();
      SpreadIs();
      AtWorkIs();
      CoreParts();
      PeerIs(storage.g.numPieces, backlog, downloads[k]);
      AllAre(storage.Books(), backlog, downloads, late);
      SettledIs(storage.Books(), downloads[k]);
      ServedIs(storage.Books(), backlog, downloads[k]);
    }

    /** In endgame an unchoked peer is asked for as much as the backlog allows or for every outstanding block that it has;
        a choked one is known to be interesting exactly if it has one. */
    lemma {:induction false} NobodyIdleInEndgame(k: nat)
      requires Valid() && storage.endgame && k < |downloads|
      ensures !downloads[k].choked ==>
        |downloads[k].active| == backlog
        || forall r :: r in storage.outstanding && Has(downloads[k], r.index) ==> r in downloads[k].active
      ensures downloads[k].choked ==>
        (downloads[k].interested <==> exists r :: r in storage.outstanding && Has(downloads[k], r.index))
      ensures downloads[k].interested ==>
        if downloads[k].choked then downloads[k].active == [] else downloads[k].active != []
    {
      hide *;
      ValidIs();
      SpreadIs();
      EndSharedIs();
      AtWorkIs();
      CoreParts();
      PeerIs(storage.g.numPieces, backlog, downloads[k]);
      SameMembers(storage.outstanding, allRequests);
      AllBusyIs(allRequests, backlog, downloads);
      BusyIs(allRequests, backlog, downloads[k]);
    }

    /** The pieces under way are those of which a block was asked for since they were last complete or whole: every piece
        that is cut into requests is among them, and each of them is incomplete and counted. */
    lemma {:induction false} UnderWay(i: nat)
      requires Valid() && i < storage.g.numPieces
      ensures i < |storage.inactiveRequests|
      ensures storage.inactiveRequests[i].Pending? ==> i in picker.started
      ensures i in picker.started ==> !storage.inactiveRequests[i].Complete?
      ensures i in picker.seedstarted ==> i in picker.started
    {
      hide *;
      ValidIs();
      SpreadIs();
      CoreParts();
      storage.BooksAre();
      BegunIs(storage.Books(), picker.started);
      picker.StartedOnce();
    }

    /** In endgame `all_requests` has exactly what is outstanding, each block once, `numactive` counts it, and each
        peer is asked for some of it, each block once, and no more than the backlog. */
    lemma {:induction false} EndgameIndex(k: nat, i: nat)
      requires Valid() && storage.endgame && k < |downloads| && i < storage.g.numPieces
      ensures Distinct(allRequests) && multiset(allRequests) == multiset(storage.outstanding)
      ensures storage.amountInactive == 0
      ensures i < |storage.numactive| && storage.numactive[i] == CountFor(allRequests, i)
      ensures Distinct(downloads[k].active) && |downloads[k].active| <= backlog
      ensures forall r :: r in downloads[k].active ==> r in allRequests
    {
      hide *;
      ValidIs();
      SpreadIs();
      EndSharedIs();
      CoreParts();
      storage.ValidIs();
      storage.RequestsParts();
      storage.BooksAre();
      AllDistinct();
      PeerIs(storage.g.numPieces, backlog, downloads[k]);
      AllAmongIs(downloads, allRequests);
      AmongIs(downloads[k].active, allRequests);
      BalancedParts(storage.g, storage.Books(), storage.outstanding, storage.received);
      CountForPermuted(storage.outstanding, allRequests, i);
    }

    /** A block that came in is asked of nobody until its piece is started over: it is not written twice in one
        attempt. */
    lemma {:induction false} NeverTwice(k: nat, r: Request)
      requires Valid() && k < |downloads| && r in storage.received
      ensures r !in downloads[k].active
    {
      hide *;
      ValidIs();
      SpreadIs();
      CoreParts();
      storage.ValidIs();
      storage.RequestsParts();
      if r in downloads[k].active {
        AskedOf(k, r);
        OutstandingOnce(storage.g, storage.Books(), storage.outstanding, storage.received, r);
      }
    }

    /** Bucket `m` of the picker holds exactly the incomplete pieces that `m` connected peers have, each once and at its
        recorded position. */
    lemma {:induction false} PickerAgrees(m: nat)
      requires Valid() && m < |picker.interests|
      ensures |storage.have| == storage.g.numPieces
      ensures forall i: nat :: i in picker.interests[m] <==> i < storage.g.numPieces && !storage.have[i] && HaveCount(downloads, i) == m
      ensures NoDuplicates(picker.interests[m])
      ensures forall j :: 0 <= j < |picker.interests[m]| ==>
        picker.interests[m][j] < |picker.posInInterests| && picker.posInInterests[picker.interests[m][j]] == j
    {
      hide *;
      ValidIs();
      SpreadIs();
      CoreParts();
      storage.ValidIs();
      storage.RequestsParts();
      storage.BooksAre();
      picker.BucketsAgree(m);
      picker.PositionsAgree(m);
      SwarmParts(storage.g.numPieces, backlog, storage.Books(), downloads, picker.numinterests);
      CountsAre(storage.Books(), downloads, picker.numinterests);
    }
  }

  /** How a download starts (wubi/src/bittorrent/download.py): the picker is told what the storage already has. */
  method Start(storage: StorageWrapper, rarestFirstCutoff: nat, backlog: nat) returns (d: Downloader)
    requires storage.Valid() && storage.outstanding == [] && !storage.endgame && backlog > 0
    requires forall i :: 0 <= i < |storage.inactiveRequests| ==> !storage.inactiveRequests[i].Pending?
    ensures fresh(d) && fresh(d.picker) && d.storage == storage
    ensures d.backlog == backlog && d.picker.rarestFirstCutoff == rarestFirstCutoff
    ensures d.Valid() && d.downloads == [] && d.late == {}
  {
    hide *;
    storage.ValidIs();
    storage.RequestsParts();
    storage.BooksAre();
    var n := |storage.hashes|;
    storage.PiecesSized();
    var picker := new PiecePicker(n, rarestFirstCutoff);
    ghost var books := storage.Books();
    UncountedIs(n);
    for i := 0 to n
      invariant picker.Valid() && fresh(picker) && |picker.interests| <= BEST_START && |picker.numinterests| == n
      invariant picker.started == []
      invariant forall j :: 0 <= j < n ==>
        picker.numinterests[j] == if j < i && books.inactive[j].Complete? then None else Some(0)
    {
      DoneIs(picker.numinterests, i);
      WithoutNone(i);
      if storage.have[i] {
        picker.Complete(i);
      }
    }
    NobodyCounts(books, picker.numinterests);
    BegunIs(books, picker.started);
    d := new Downloader(storage, picker, backlog);
  }

  /** Whether a peer with the pieces `have` can answer one of `all`, or has a piece with a request to give. */
  method AnyOf(books: Ledger, have: seq<bool>, all: seq<Request>) returns (b: bool)
    ensures b <==> Helps(books, have, all)
    ensures b ==> exists i: nat :: i < |have| && have[i]
    ensures all == [] ==> (b <==> exists i: nat :: i < |have| && have[i] && HasRequests(books, i))
  {
    hide HasRequests;
    for m := 0 to |all|
      invariant forall r :: r in all[..m] ==> !(r.index < |have| && have[r.index])
    {
      if all[m].index < |have| && have[all[m].index] {
        assert all[m] in all;
        return true;
      }
    }
    assert all[..|all|] == all;
    for i := 0 to |have|
      invariant forall j: nat :: j < i ==> !(have[j] && HasRequests(books, j))
    {
      if have[i] && HasRequests(books, i) {
        return true;
      }
    }
    return false;
  }

  /** Somebody with the pieces `have` has one of the blocks `all`, or a piece with a request to give. */
  ghost predicate Helps(books: Ledger, have: seq<bool>, all: seq<Request>)
  {
    (exists r :: r in all && r.index < |have| && have[r.index]) || exists i: nat :: i < |have| && have[i] && HasRequests(books, i)
  }

  lemma {:induction false} HelpsIs(books: Ledger, have: seq<bool>, all: seq<Request>)
    requires forall i: nat :: !HasRequests(books, i)
    ensures Helps(books, have, all) <==> exists r :: r in all && r.index < |have| && have[r.index]
    ensures !Helps(books, have, [])
  {
  }

  lemma {:induction false} SeedIs(p: Peer)
    ensures IsSeed(p) <==> forall i :: 0 <= i < |p.have| ==> p.have[i]
  {
  }

  /** Index of the first of `lost` that a choked and unmarked peer is worth marking for; `|lost|` if there is none. */
  method WorthMarking(books: Ledger, p: Peer, lost: seq<nat>) returns (m: nat)
    ensures if m < |lost| then p.choked && !p.interested && Want(books, p, lost[m])
            else p.choked && !p.interested ==> forall l :: l in lost ==> !Want(books, p, l)
  {
    m := 0;
    while m < |lost| && !(p.choked && !p.interested && Has(p, lost[m]) && HasRequests(books, lost[m]))
      invariant 0 <= m <= |lost| && (p.choked && !p.interested ==> forall l :: l in lost[..m] ==> !Want(books, p, l))
    {
      m := m + 1;
    }
    if m == |lost| {
      assert lost[..m] == lost;
    }
  }

  /** What a peer is asked for besides in endgame, and whether it is marked. */
  method EndgameAsk(all: seq<Request>, backlog: nat, p: Peer) returns (q: Peer)
    requires |p.active| <= backlog
    ensures Fixed(all, backlog, p, q)
  {
    hide *;
    q := p;
    var want := Wanted(all, p);
    if p.interested && p.active == [] && want == [] {
      q := q.(interested := false);
    } else {
      if !p.interested && want != [] {
        q := q.(interested := true);
      }
      if !p.choked {
        want := ShuffledFront(want, backlog - |p.active|);
        q := q.(active := q.active + want);
      }
    }
    FixedFrom(all, backlog, p, want, q);
  }

  /** `shuffle(want)`, cut to `n`. */
  method ShuffledFront(want: seq<Request>, n: nat) returns (r: seq<Request>)
    ensures multiset(r) <= multiset(want)
    ensures |r| == if n < |want| then n else |want|
  {
    r := Shuffle(want);
    FrontPart(want, r, n);
    if n < |r| {
      r := r[..n];
    }
  }
}
