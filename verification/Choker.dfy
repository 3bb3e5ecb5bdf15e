/** The upload scheduler (wubi/src/bittorrent/Choker.py) over the uploads it chokes and unchokes. */
module Chokers {
  import opened Wrappers
  import opened Bytes
  import opened Choking
  import opened Uploads

  // --- Choosing the fastest ---

  ghost predicate Ordered(l: seq<(real, nat)>)
  {
    forall i, j :: 0 <= i < j < |l| ==> l[i].0 <= l[j].0
  }

  /** `list.sort`; of equal rates either may come first. */
  method Sort(l: seq<(real, nat)>) returns (r: seq<(real, nat)>)
    ensures multiset(r) == multiset(l) && Ordered(r)
  {
    r := [];
    for k := 0 to |l|
      invariant multiset(r) == multiset(l[..k]) && Ordered(r)
    {
      assert l[..k + 1] == l[..k] + [l[k]];
      r := Insert(r, l[k]);
    }
    assert l[..|l|] == l;
  }

  method Insert(l: seq<(real, nat)>, x: (real, nat)) returns (r: seq<(real, nat)>)
    requires Ordered(l)
    ensures multiset(r) == multiset(l) + multiset{x} && Ordered(r)
  {
    var i := 0;
    while i < |l| && l[i].0 <= x.0
      invariant 0 <= i <= |l| && forall j :: 0 <= j < i ==> l[j].0 <= x.0
    {
      i := i + 1;
    }
    r := l[..i] + [x] + l[i..];
    Inserted(l, i, x);
  }

  lemma {:induction false} Inserted(l: seq<(real, nat)>, i: nat, x: (real, nat))
    requires i <= |l|
    ensures multiset(l[..i] + [x] + l[i..]) == multiset(l) + multiset{x}
  {
    assert l == l[..i] + l[i..];
  }

  /** Indices listed once. */
  ghost predicate Once(l: seq<(real, nat)>)
  {
    forall i, j :: 0 <= i < j < |l| ==> l[i].1 != l[j].1
  }

  ghost function IndexSet(l: seq<(real, nat)>): set<nat>
  {
    set k | 0 <= k < |l| :: l[k].1
  }

  lemma {:induction false} IndexSetHas(l: seq<(real, nat)>, k: nat)
    requires k < |l|
    ensures l[k].1 in IndexSet(l)
  {
  }

  lemma {:induction false} IndexSetSnoc(l: seq<(real, nat)>, x: (real, nat))
    ensures IndexSet(l + [x]) == IndexSet(l) + {x.1}
  {
    assert (l + [x])[|l|] == x;
    assert forall k :: 0 <= k < |l| ==> (l + [x])[k] == l[k];
  }

  lemma {:induction false} IndexSetSize(l: seq<(real, nat)>)
    requires Once(l)
    ensures |IndexSet(l)| == |l|
    decreases |l|
  {
    if l != [] {
      var n := |l| - 1;
      IndexSetSize(l[..n]);
      IndexSetSnoc(l[..n], l[n]);
      assert l == l[..n] + [l[n]];
      assert l[n].1 !in IndexSet(l[..n]);
    }
  }

  /** A permutation lists the same indices, once if they were listed once. */
  lemma {:induction false} OncePermuted(l: seq<(real, nat)>, r: seq<(real, nat)>)
    requires Once(l) && multiset(l) == multiset(r)
    ensures Once(r) && IndexSet(r) == IndexSet(l) && |r| == |l|
    ensures forall k :: 0 <= k < |r| ==> r[k] in l
    ensures forall k :: 0 <= k < |l| ==> l[k] in r
  {
    assert |multiset(l)| == |l| && |multiset(r)| == |r|;
    forall k | 0 <= k < |r|
      ensures r[k] in l
    {
      assert r[k] in multiset(r);
    }
    forall k | 0 <= k < |l|
      ensures l[k] in r
    {
      assert l[k] in multiset(l);
    }
    assert IndexSet(r) == IndexSet(l);
    IndexSetSize(l);
    OnceBySize(r);
  }

  lemma {:induction false} IndexSetAtMost(l: seq<(real, nat)>)
    ensures |IndexSet(l)| <= |l|
    decreases |l|
  {
    if l != [] {
      var n := |l| - 1;
      IndexSetAtMost(l[..n]);
      IndexSetSnoc(l[..n], l[n]);
      assert l == l[..n] + [l[n]];
    }
  }

  lemma {:induction false} OnceBySize(l: seq<(real, nat)>)
    requires |IndexSet(l)| == |l|
    ensures Once(l)
  {
    forall i, j | 0 <= i < j < |l|
      ensures l[i].1 != l[j].1
    {
      if l[i].1 == l[j].1 {
        WithoutTwin(l, i, j);
        IndexSetAtMost(l[..j] + l[j + 1..]);
        assert false;
      }
    }
  }

  lemma {:induction false} WithoutTwin(l: seq<(real, nat)>, i: nat, j: nat)
    requires i < j < |l| && l[i].1 == l[j].1
    ensures IndexSet(l[..j] + l[j + 1..]) == IndexSet(l)
  {
    var rest := l[..j] + l[j + 1..];
    forall x | x in IndexSet(l)
      ensures x in IndexSet(rest)
    {
      var k :| 0 <= k < |l| && l[k].1 == x;
      var m := if k == j then i else if k < j then k else k - 1;
      assert rest[m].1 == x;
    }
    assert forall m :: 0 <= m < |rest| ==> rest[m] == l[if m < j then m else m + 1];
  }

  lemma {:induction false} CountTrueSet(flags: seq<bool>, i: nat)
    requires i < |flags| && !flags[i]
    ensures CountTrue(flags[i := true]) == CountTrue(flags) + 1
    decreases |flags|
  {
    if i == 0 {
      assert flags[i := true][1..] == flags[1..];
    } else {
      CountTrueSet(flags[1..], i - 1);
      assert flags[i := true][1..] == flags[1..][i - 1 := true];
    }
  }

  lemma {:induction false} NoneTrue(n: nat)
    ensures CountTrue(seq(n, _ => false)) == 0
  {
    if n > 0 {
      NoneTrue(n - 1);
      assert seq(n, _ => false)[1..] == seq(n - 1, _ => false);
    }
  }

  /** The candidates, each with its rate negated. */
  method Collect<T>(slots: seq<Slot<T>>, snubbed: seq<bool>, rate: seq<real>) returns (l: seq<(real, nat)>)
    requires |slots| == |snubbed| == |rate|
    ensures Once(l) && IndexSet(l) == Candidates(slots, snubbed)
    ensures forall k :: 0 <= k < |l| ==> l[k].1 < |rate| && l[k].0 == -rate[l[k].1]
  {
    l := [];
    for i := 0 to |slots|
      invariant Once(l)
      invariant forall k :: 0 <= k < |l| ==> l[k].1 < i && l[k].0 == -rate[l[k].1]
      invariant forall x: nat :: x in IndexSet(l) <==> x < i && Candidate(slots, snubbed, x)
    {
      if !snubbed[i] && slots[i].interested {
        IndexSetSnoc(l, (-rate[i], i));
        l := l + [(-rate[i], i)];
      }
    }
  }

  /** The start of `_rechoke`: the `most` fastest, all but the last of the slots. */
  method Choose<T>(slots: seq<Slot<T>>, snubbed: seq<bool>, rate: seq<real>, most: nat) returns (preferred: seq<bool>)
    requires |slots| == |snubbed| == |rate|
    ensures Top(slots, snubbed, rate, most, preferred)
  {
    hide CountTrue, Ordered, Once, IndexSet, Candidates, Candidate;
    var l := Collect(slots, snubbed, rate);
    var sorted := Sort(l);
    OncePermuted(l, sorted);
    IndexSetSize(l);
    var cut := if most < |sorted| then sorted[..most] else sorted;
    FirstOnce(sorted, |cut|);
    InSet(l, slots, snubbed);
    assert forall k :: 0 <= k < |cut| ==> cut[k] in l;
    assert forall x :: x in l ==> x.1 < |rate| && x.0 == -rate[x.1];
    assert forall k :: 0 <= k < |sorted| ==> sorted[k] in l;
    assert sorted[..|cut|] == cut;
    preferred := Mark(cut, |slots|);
    TopFrom(slots, snubbed, rate, most, l, sorted, |cut|, preferred);
  }

  lemma {:induction false} FirstOnce(l: seq<(real, nat)>, n: nat)
    requires Once(l) && n <= |l|
    ensures Once(l[..n])
  {
  }

  lemma {:induction false} InSet<T>(l: seq<(real, nat)>, slots: seq<Slot<T>>, snubbed: seq<bool>)
    requires IndexSet(l) == Candidates(slots, snubbed)
    ensures forall k :: 0 <= k < |l| ==> l[k].1 < |slots| && Candidate(slots, snubbed, l[k].1)
  {
    forall k | 0 <= k < |l|
      ensures l[k].1 < |slots| && Candidate(slots, snubbed, l[k].1)
    {
      assert l[k].1 in IndexSet(l);
    }
  }

  /** `preferred = [x[1] for x in preferred]`, as marks on the connections. */
  method Mark(cut: seq<(real, nat)>, n: nat) returns (preferred: seq<bool>)
    requires Once(cut) && forall k :: 0 <= k < |cut| ==> cut[k].1 < n
    ensures |preferred| == n && CountTrue(preferred) == |cut|
    ensures forall i :: 0 <= i < n ==> (preferred[i] <==> i in IndexSet(cut))
  {
    preferred := seq(n, _ => false);
    NoneTrue(n);
    for k := 0 to |cut|
      invariant |preferred| == n && CountTrue(preferred) == k
      invariant forall i :: 0 <= i < n ==> (preferred[i] <==> i in IndexSet(cut[..k]))
    {
      assert cut[k].1 !in IndexSet(cut[..k]);
      CountTrueSet(preferred, cut[k].1);
      IndexSetSnoc(cut[..k], cut[k]);
      assert cut[..k + 1] == cut[..k] + [cut[k]];
      preferred := preferred[cut[k].1 := true];
    }
    assert cut[..|cut|] == cut;
  }

  lemma {:induction false} TopFrom<T>(slots: seq<Slot<T>>, snubbed: seq<bool>, rate: seq<real>, most: nat,
                                      l: seq<(real, nat)>, sorted: seq<(real, nat)>,
                                      n: nat, preferred: seq<bool>)
    requires |slots| == |snubbed| == |rate| == |preferred| && n == Min(most, |sorted|)
    requires Ordered(sorted) && IndexSet(sorted) == Candidates(slots, snubbed)
    requires |Candidates(slots, snubbed)| == |sorted|
    requires forall k :: 0 <= k < |sorted| ==> sorted[k].1 < |rate| && sorted[k].0 == -rate[sorted[k].1]
    requires CountTrue(preferred) == n && forall i :: 0 <= i < |slots| ==> (preferred[i] <==> i in IndexSet(sorted[..n]))
    ensures Top(slots, snubbed, rate, most, preferred)
  {
    forall i | 0 <= i < |slots| && preferred[i]
      ensures Candidate(slots, snubbed, i)
      ensures forall j :: 0 <= j < |slots| && Candidate(slots, snubbed, j) && !preferred[j] ==> rate[i] >= rate[j]
    {
      var a :| 0 <= a < n && sorted[..n][a].1 == i;
      assert i in IndexSet(sorted);
      forall j | 0 <= j < |slots| && Candidate(slots, snubbed, j) && !preferred[j]
        ensures rate[i] >= rate[j]
      {
        assert j in IndexSet(sorted);
        var b :| 0 <= b < |sorted| && sorted[b].1 == j;
        IndexSetHas(sorted[..n], Min(b, n - 1));
      }
    }
  }

  /** A peer is told exactly when it is choked or unchoked, and what it waits for is dropped exactly when it is choked:
      its flag, what it was sent and its requests before and after. */
  ghost predicate Tells(choked: bool, sent: seq<Sent>, buffer: seq<Query>, choked': bool, sent': seq<Sent>,
                        buffer': seq<Query>)
  {
    && sent' == sent + (if choked && !choked' then [SentUnchoke] else if !choked && choked' then [SentChoke] else [])
    && buffer' == if !choked && choked' then [] else buffer
  }

  lemma {:induction false} TellsNothing(choked: bool, sent: seq<Sent>, buffer: seq<Query>)
    ensures Tells(choked, sent, buffer, choked, sent, buffer)
  {
    assert sent + [] == sent;
  }

  /** What a rechoke may see and change of an upload. */
  datatype Snap = Snap(interested: bool, choked: bool, sent: seq<Sent>, buffer: seq<Query>)

  ghost function SnapOf(u: Upload): Snap
    reads u
  {
    Snap(u.interested, u.choked, u.sent, u.buffer)
  }

  lemma {:induction false} SnapIs(u: Upload)
    ensures SnapOf(u) == Snap(u.interested, u.choked, u.sent, u.buffer)
  {
  }

  ghost predicate SetTo(before: Snap, choked: bool, after: Snap)
  {
    && after.interested == before.interested && after.choked == choked
    && Tells(before.choked, before.sent, before.buffer, after.choked, after.sent, after.buffer)
  }

  lemma {:induction false} SetToIs(before: Snap, choked: bool, after: Snap)
    ensures SetTo(before, choked, after) <==>
      && after.interested == before.interested && after.choked == choked
      && Tells(before.choked, before.sent, before.buffer, after.choked, after.sent, after.buffer)
  {
  }

  /** `u.unchoke()` or `u.choke()`. */
  method Set(u: Upload, unchoke: bool)
    requires u.Valid()
    modifies u`choked, u`buffer, u`sent
    ensures u.Valid() && u.choked == !unchoke
    ensures SetTo(old(SnapOf(u)), !unchoke, SnapOf(u))
  {
    if unchoke {
      u.Unchoke();
    } else {
      u.Choke();
    }
  }

  function SlotsOf(connections: seq<Upload>): (slots: seq<Slot<Upload>>)
    reads connections
    ensures |slots| == |connections|
    ensures forall i :: 0 <= i < |slots| ==>
      slots[i] == Slot(connections[i], connections[i].interested, connections[i].choked)
  {
    if connections == [] then []
    else
      var n := |connections| - 1;
      SlotsOf(connections[..n]) + [Slot(connections[n], connections[n].interested, connections[n].choked)]
  }

  ghost predicate AllOnce(connections: seq<Upload>)
    reads connections
  {
    && (forall i, j :: 0 <= i < j < |connections| ==> connections[i] != connections[j])
    && (forall i :: 0 <= i < |connections| ==> connections[i].Valid())
  }

  class Choker {
    var connections: seq<Upload>
    var count: nat
    var maxUploads: nat
    var minUploads: nat

    function View(): (slots: seq<Slot<Upload>>)
      reads this`connections, connections
      ensures |slots| == |connections|
      ensures forall i :: 0 <= i < |slots| ==>
        slots[i] == Slot(connections[i], connections[i].interested, connections[i].choked)
    {
      SlotsOf(connections)
    }

    ghost predicate Distinct()
      reads this`connections, connections
    {
      AllOnce(connections)
    }

    /** Between events. */
    ghost predicate Valid()
      reads this, connections
    {
      maxUploads >= 1 && Distinct() && Choking.Balanced(View(), maxUploads, minUploads)
    }

    constructor (maxUploads: nat, minUploads: Option<nat>)
      requires maxUploads >= 1
      ensures Valid() && connections == [] && count == 0 && this.maxUploads == maxUploads
      ensures this.minUploads == if minUploads.None? then maxUploads else minUploads.value
    {
      this.maxUploads, this.minUploads := maxUploads, if minUploads.None? then maxUploads else minUploads.value;
      connections, count := [], 0;
    }

    /** `_rechoke`. `snubbed` and `rate` are what the connections report at this moment. */
    method Rechoke(snubbed: seq<bool>, rate: seq<real>)
      requires Distinct() && maxUploads >= 1 && |snubbed| == |rate| == |connections|
      modifies connections
      ensures Valid()
      ensures Rechoked(old(View()), snubbed, rate, maxUploads, minUploads, View())
      ensures forall c :: c in connections ==>
        Tells(old(c.choked), old(c.sent), old(c.buffer), c.choked, c.sent, c.buffer)
    {
      hide *;
      ghost var view := View();
      DistinctParts();
      var preferred := Choose(View(), snubbed, rate, maxUploads - 1);
      TopSized(view, snubbed, rate, maxUploads - 1, preferred);
      var active: nat, hit := CountTrue(preferred), false;
      ghost var target := Swept(view, preferred, minUploads, active, false);
      RechokedFrom(view, snubbed, rate, maxUploads, minUploads, preferred, target);
      RechokeBalances(view, snubbed, rate, maxUploads, minUploads, target);
      forall j | 0 <= j < |connections|
        ensures SnapOf(connections[j]) == Snap(view[j].interested, view[j].choked, connections[j].sent, connections[j].buffer)
      {
        SnapIs(connections[j]);
      }
      assert view[0..] == view && preferred[0..] == preferred && target[0..] == target;
      ghost var cs := connections;
      ghost var snaps := seq(|cs|, j requires 0 <= j < |cs| reads cs => SnapOf(cs[j]));
      for i := 0 to |connections|
        invariant forall j :: 0 <= j < |connections| ==> connections[j].Valid()
        invariant forall j :: i <= j < |connections| ==> SnapOf(connections[j]) == snaps[j]
        invariant forall j :: 0 <= j < i ==> SetTo(snaps[j], target[j].choked, SnapOf(connections[j]))
        invariant Swept(view[i..], preferred[i..], minUploads, active, hit) == target[i..]
      {
        SweptStep(view, preferred, minUploads, active, hit, target, i);
        var u := connections[i];
        SnapIs(u);
        assert forall j :: 0 <= j < |connections| && j != i ==> connections[j] != u;
        var unchoke := preferred[i] || active < minUploads || !hit;
        Set(u, unchoke);
        SetToIs(snaps[i], !unchoke, SnapOf(u));
        SnapIs(u);
        if !preferred[i] && unchoke && u.interested {
          active := active + 1;
          hit := true;
        }
      }
      forall j | 0 <= j < |connections|
        ensures target[j] == Slot(connections[j], connections[j].interested, connections[j].choked)
        ensures Tells(old(connections[j].choked), old(connections[j].sent), old(connections[j].buffer),
                      connections[j].choked, connections[j].sent, connections[j].buffer)
      {
        SetToIs(snaps[j], target[j].choked, SnapOf(connections[j]));
        SnapIs(connections[j]);
      }
      ViewFrom(target);
      DistinctParts();
      ValidIs();
    }

    lemma {:induction false} DistinctParts()
      ensures Distinct() <==>
        && (forall i, j :: 0 <= i < j < |connections| ==> connections[i] != connections[j])
        && (forall i :: 0 <= i < |connections| ==> connections[i].Valid())
      ensures forall i :: 0 <= i < |connections| ==>
        View()[i] == Slot(connections[i], connections[i].interested, connections[i].choked)
    {
    }

    lemma {:induction false} ValidIs()
      ensures Valid() <==> maxUploads >= 1 && Distinct() && Choking.Balanced(View(), maxUploads, minUploads)
    {
    }

    lemma {:induction false} ViewIs()
      ensures View() == SlotsOf(connections) && (Distinct() <==> AllOnce(connections))
    {
    }

    lemma {:induction false} ViewFrom(target: seq<Slot<Upload>>)
      requires |target| == |connections|
      requires forall j :: 0 <= j < |connections| ==>
        target[j] == Slot(connections[j], connections[j].interested, connections[j].choked)
      ensures View() == target
    {
    }

    /** `_round_robin`. */
    method RoundRobin(snubbed: seq<bool>, rate: seq<real>)
      requires Valid() && |snubbed| == |rate| == |connections|
      modifies this`count, this`connections, connections
      ensures Valid()
      ensures Tick(State(old(View()), old(count)), State(View(), count), snubbed, rate, maxUploads, minUploads)
      ensures multiset(connections) == multiset(old(connections))
      ensures forall c :: c in old(connections) ==>
        Tells(old(c.choked), old(c.sent), old(c.buffer), c.choked, c.sent, c.buffer)
    {
      hide *;
      ValidIs();
      DistinctParts();
      count := count + 1;
      ghost var view := View();
      if count % 3 == 0 {
        Rotate();
      }
      ghost var turned := View();
      Rechoke(snubbed, rate);
      TickFrom(view, turned, View(), count, snubbed, rate, maxUploads, minUploads);
    }

    /** `self.connections = self.connections[i:] + self.connections[:i]` for the first `i` that waits. */
    method Rotate()
      requires Distinct()
      modifies this`connections
      ensures Distinct() && View() == Rotated(old(View())) && |connections| == |old(connections)|
      ensures multiset(connections) == multiset(old(connections))
      ensures forall c :: c in connections <==> c in old(connections)
      ensures forall j :: 0 <= j < |connections| ==> connections[j] in old(connections)
    {
      hide *;
      ViewIs();
      var first := FirstWaiting(View());
      Turned(connections, first);
      ViewTurned(connections, first);
      connections := connections[first..] + connections[..first];
      ViewIs();
    }

    /** `connection_made`, with `p` drawn from [-2, number of connections]. */
    method ConnectionMade(u: Upload, p: int, snubbed: seq<bool>, rate: seq<real>)
      requires Valid() && u !in connections && u.Valid()
      requires -2 <= p <= |connections| && |snubbed| == |rate| == |connections| + 1
      modifies this`connections, connections, u
      ensures Valid() && connections == old(connections)[..Max(p, 0)] + [u] + old(connections)[Max(p, 0)..]
      ensures Rechoked(old(View())[..Max(p, 0)] + [Slot(u, old(u.interested), old(u.choked))] + old(View())[Max(p, 0)..],
                       snubbed, rate, maxUploads, minUploads, View())
      ensures forall c :: c in connections ==>
        Tells(old(c.choked), old(c.sent), old(c.buffer), c.choked, c.sent, c.buffer)
    {
      hide *;
      ValidIs();
      ViewIs();
      MaxIs(p, 0);
      var at := Max(p, 0);
      ViewInserted(connections, at, u);
      connections := connections[..at] + [u] + connections[at..];
      ViewIs();
      Rechoke(snubbed, rate);
    }

    /** `connection_lost`. */
    method ConnectionLost(u: Upload, snubbed: seq<bool>, rate: seq<real>)
      requires Valid() && u in connections && |snubbed| == |rate| == |connections| - 1
      modifies this`connections, connections
      ensures Valid() && u !in connections
      ensures exists k :: 0 <= k < |old(connections)| && connections == old(connections)[..k] + old(connections)[k + 1..]
                          && Gone(old(View()), k, snubbed, rate, maxUploads, minUploads, View())
      ensures forall c :: c in connections ==>
        Tells(old(c.choked), old(c.sent), old(c.buffer), c.choked, c.sent, c.buffer)
    {
      hide *;
      ValidIs();
      DistinctParts();
      var k :| 0 <= k < |connections| && connections[k] == u;
      ghost var view, before := View(), connections;
      connections := connections[..k] + connections[k + 1..];
      assert forall j :: 0 <= j < |connections| ==> connections[j] == before[if j < k then j else j + 1];
      DistinctParts();
      ViewFrom(view[..k] + view[k + 1..]);
      forall c | c in connections
        ensures Tells(c.choked, c.sent, c.buffer, c.choked, c.sent, c.buffer)
      {
        TellsNothing(c.choked, c.sent, c.buffer);
      }
      if u.interested && !u.choked {
        Rechoke(snubbed, rate);
      } else {
        LostBalanced(view, maxUploads, minUploads, k);
      }
      GoneIs(view, k, snubbed, rate, maxUploads, minUploads, View());
      ValidIs();
    }

    /** `got_interested` or `got_not_interested` of the upload, and what the choker does about it: the list is rechoked
        exactly if the interest of a peer changed that is not choked. */
    method InterestChanges(u: Upload, interested: bool, snubbed: seq<bool>, rate: seq<real>)
      requires Valid() && u in connections && |snubbed| == |rate| == |connections|
      modifies connections
      ensures Valid() && u.interested == interested && Next(State(old(View()), count), State(View(), count))
      ensures exists k :: 0 <= k < |connections| && connections[k] == u
                          && Changed(old(View()), k, interested, snubbed, rate, maxUploads, minUploads, View())
      ensures forall c :: c in connections && c != u ==>
        c.interested == old(c.interested) && Tells(old(c.choked), old(c.sent), old(c.buffer), c.choked, c.sent, c.buffer)
      ensures Tells(old(u.choked), old(u.sent), if !interested && old(u.interested) then [] else old(u.buffer), u.choked,
                    u.sent, u.buffer)
    {
      hide *;
      ValidIs();
      DistinctParts();
      ghost var view := View();
      ghost var k :| 0 <= k < |connections| && connections[k] == u;
      var told := SetInterest(u, interested);
      forall c | c in connections
        ensures Tells(c.choked, c.sent, c.buffer, c.choked, c.sent, c.buffer)
      {
        TellsNothing(c.choked, c.sent, c.buffer);
      }
      ghost var changed := view[k := view[k].(interested := interested)];
      ViewFrom(changed);
      DistinctParts();
      if told && !u.choked {
        Rechoke(snubbed, rate);
        DistinctParts();
      }
      ChangedFrom(view, k, interested, snubbed, rate, maxUploads, minUploads, View(), count);
      ValidIs();
    }

    method SetInterest(u: Upload, interested: bool) returns (told: bool)
      requires u.Valid()
      modifies u`interested, u`buffer
      ensures u.Valid() && u.interested == interested && told == (old(u.interested) != interested)
      ensures u.buffer == if !interested && old(u.interested) then [] else old(u.buffer)
    {
      if interested {
        told := u.GainInterest();
      } else {
        told := u.LoseInterest();
      }
    }

    /** `_change_max_uploads`. */
    method ChangeMaxUploads(newval: nat, snubbed: seq<bool>, rate: seq<real>)
      requires Valid() && newval >= 1 && |snubbed| == |rate| == |connections|
      modifies this`maxUploads, connections
      ensures Valid() && maxUploads == newval && Rechoked(old(View()), snubbed, rate, newval, minUploads, View())
      ensures forall c :: c in connections ==>
        Tells(old(c.choked), old(c.sent), old(c.buffer), c.choked, c.sent, c.buffer)
    {
      hide *;
      ValidIs();
      DistinctParts();
      ghost var view := View();
      maxUploads := newval;
      ViewFrom(view);
      DistinctParts();
      Rechoke(snubbed, rate);
    }
  }

  lemma {:induction false} ViewInserted(connections: seq<Upload>, at: nat, u: Upload)
    requires at <= |connections| && AllOnce(connections) && u !in connections && u.Valid()
    ensures var view := SlotsOf(connections);
      SlotsOf(connections[..at] + [u] + connections[at..]) == view[..at] + [Slot(u, u.interested, u.choked)] + view[at..]
    ensures AllOnce(connections[..at] + [u] + connections[at..])
  {
    hide SlotsOf;
    var more := connections[..at] + [u] + connections[at..];
    assert forall j :: 0 <= j < |more| ==> more[j] == if j < at then connections[j] else if j == at then u
                                                      else connections[j - 1];
  }

  /** The `k`-th connection's interest became `interested`: the list is rechoked if that is a change and it is not choked,
      and else nothing else is changed. */
  ghost predicate Changed<T>(slots: seq<Slot<T>>, k: nat, interested: bool, snubbed: seq<bool>, rate: seq<real>,
                             maxUploads: nat, minUploads: nat, after: seq<Slot<T>>)
  {
    && k < |slots|
    && var changed := slots[k := slots[k].(interested := interested)];
       if slots[k].interested != interested && !slots[k].choked
       then Rechoked(changed, snubbed, rate, maxUploads, minUploads, after)
       else after == changed
  }

  lemma {:induction false} ChangedFrom<T>(slots: seq<Slot<T>>, k: nat, interested: bool, snubbed: seq<bool>,
                                          rate: seq<real>, maxUploads: nat, minUploads: nat, after: seq<Slot<T>>,
                                          count: nat)
    requires k < |slots| && Choking.Balanced(slots, maxUploads, minUploads)
    requires var changed := slots[k := slots[k].(interested := interested)];
      if slots[k].interested != interested && !slots[k].choked
      then Rechoked(changed, snubbed, rate, maxUploads, minUploads, after)
      else after == changed
    ensures Changed(slots, k, interested, snubbed, rate, maxUploads, minUploads, after)
    ensures Next(State(slots, count), State(after, count)) && Choking.Balanced(after, maxUploads, minUploads)
    ensures |after| == |slots| && forall j :: 0 <= j < |slots| ==>
      after[j].interested == if j == k then interested else slots[j].interested
  {
    hide Rechoked, Choking.Balanced, Next;
    var changed := slots[k := slots[k].(interested := interested)];
    QuietStep(slots, changed, after, count, snubbed, rate, maxUploads, minUploads);
    if slots[k].interested != interested && !slots[k].choked {
      RechokeBalances(changed, snubbed, rate, maxUploads, minUploads, after);
    } else if slots[k].choked {
      InterestBalanced(slots, maxUploads, minUploads, k, interested);
    } else {
      assert changed == slots;
    }
  }

  /** The `k`-th connection was lost: the list is rechoked if it was uploaded to, and else left as it is. */
  ghost predicate Gone<T>(slots: seq<Slot<T>>, k: nat, snubbed: seq<bool>, rate: seq<real>, maxUploads: nat,
                          minUploads: nat, after: seq<Slot<T>>)
  {
    && k < |slots|
    && var rest := slots[..k] + slots[k + 1..];
       if slots[k].interested && !slots[k].choked then Rechoked(rest, snubbed, rate, maxUploads, minUploads, after)
       else after == rest
  }

  lemma {:induction false} GoneIs<T>(slots: seq<Slot<T>>, k: nat, snubbed: seq<bool>, rate: seq<real>, maxUploads: nat,
                                     minUploads: nat, after: seq<Slot<T>>)
    requires k < |slots|
    ensures Gone(slots, k, snubbed, rate, maxUploads, minUploads, after) <==>
      var rest := slots[..k] + slots[k + 1..];
      if slots[k].interested && !slots[k].choked then Rechoked(rest, snubbed, rate, maxUploads, minUploads, after)
      else after == rest
  {
  }

  lemma {:induction false} Turned<T>(s: seq<T>, k: nat)
    requires k <= |s|
    ensures multiset(s[k..] + s[..k]) == multiset(s)
    ensures forall j :: 0 <= j < |s| ==> (s[k..] + s[..k])[j] == s[if j + k < |s| then j + k else j + k - |s|]
    ensures forall x :: x in s[k..] + s[..k] <==> x in s
  {
    assert s == s[..k] + s[k..];
  }

  /** What the choker sees after a turn. */
  lemma {:induction false} ViewTurned(connections: seq<Upload>, k: nat)
    requires k <= |connections| && k == FirstWaiting(SlotsOf(connections)) && AllOnce(connections)
    ensures SlotsOf(connections[k..] + connections[..k]) == Rotated(SlotsOf(connections))
    ensures AllOnce(connections[k..] + connections[..k])
  {
    hide FirstWaiting, SlotsOf;
  }

  lemma {:induction false} TickFrom<T>(view: seq<Slot<T>>, turned: seq<Slot<T>>, after: seq<Slot<T>>, count: nat,
                                       snubbed: seq<bool>, rate: seq<real>,
                                       maxUploads: nat, minUploads: nat)
    requires count > 0 && turned == (if count % 3 == 0 then Rotated(view) else view)
    requires Rechoked(turned, snubbed, rate, maxUploads, minUploads, after)
    ensures Tick(State(view, count - 1), State(after, count), snubbed, rate, maxUploads, minUploads)
  {
  }

  lemma {:induction false} TopSized<T>(slots: seq<Slot<T>>, snubbed: seq<bool>, rate: seq<real>, most: nat,
                                       preferred: seq<bool>)
    requires Top(slots, snubbed, rate, most, preferred)
    ensures |preferred| == |slots|
  {
  }

  lemma {:induction false} RechokedFrom<T>(slots: seq<Slot<T>>, snubbed: seq<bool>, rate: seq<real>, maxUploads: nat,
                                           minUploads: nat,
                                           preferred: seq<bool>, target: seq<Slot<T>>)
    requires maxUploads >= 1 && Top(slots, snubbed, rate, maxUploads - 1, preferred)
    requires target == Swept(slots, preferred, minUploads, CountTrue(preferred), false)
    ensures Rechoked(slots, snubbed, rate, maxUploads, minUploads, target)
    ensures forall i :: 0 <= i < |slots| ==> target[i] == slots[i].(choked := target[i].choked)
  {
    SweptIs(slots, preferred, minUploads, CountTrue(preferred), false);
  }

  lemma {:induction false} SweptStep<T>(slots: seq<Slot<T>>, preferred: seq<bool>, minUploads: nat, active: nat,
                                        hit: bool, target: seq<Slot<T>>, i: nat)
    requires |slots| == |preferred| == |target| && i < |slots|
    requires Swept(slots[i..], preferred[i..], minUploads, active, hit) == target[i..]
    ensures var unchoked := preferred[i] || active < minUploads || !hit;
      var counted := !preferred[i] && unchoked && slots[i].interested;
      && target[i].choked == !unchoked
      && Swept(slots[i + 1..], preferred[i + 1..], minUploads, if counted then active + 1 else active, hit || counted) == target[i + 1..]
  {
    assert slots[i..][1..] == slots[i + 1..] && preferred[i..][1..] == preferred[i + 1..] && target[i..][1..] == target[i + 1..];
    assert target[i] == target[i..][0];
  }
}
