/** Whom to upload to: the decisions of wubi/src/bittorrent/Choker.py, on values. */
module Choking {
  import opened Wrappers
  import opened Bytes

  /** A connection in the choker's list, with the two flags of its upload. */
  datatype Slot<T> = Slot(who: T, interested: bool, choked: bool)

  function CountTrue(flags: seq<bool>): nat
  {
    if flags == [] then 0 else CountTrue(flags[1..]) + if flags[0] then 1 else 0
  }

  /** How many are uploaded to: interested and not choked. */
  function Active<T>(slots: seq<Slot<T>>): nat
  {
    if slots == [] then 0 else Active(slots[1..]) + if slots[0].interested && !slots[0].choked then 1 else 0
  }

  predicate Candidate<T>(slots: seq<Slot<T>>, snubbed: seq<bool>, i: nat)
  {
    i < |slots| == |snubbed| && slots[i].interested && !snubbed[i]
  }

  ghost function Candidates<T>(slots: seq<Slot<T>>, snubbed: seq<bool>): set<nat>
  {
    set i: nat | i < |slots| && Candidate(slots, snubbed, i)
  }

  /** `preferred` marks the `most` fastest of the interested connections that do not snub us, or all if there are
      fewer. */
  ghost predicate Top<T>(slots: seq<Slot<T>>, snubbed: seq<bool>, rate: seq<real>, most: nat, preferred: seq<bool>)
  {
    && |slots| == |snubbed| == |rate| == |preferred|
    && (forall i :: 0 <= i < |slots| && preferred[i] ==> Candidate(slots, snubbed, i))
    && CountTrue(preferred) == Min(most, |Candidates(slots, snubbed)|)
    && (forall i, j :: 0 <= i < |slots| && 0 <= j < |slots| && preferred[i] && Candidate(slots, snubbed, j) && !preferred[j] ==> rate[i] >= rate[j])
  }

  /** The second loop of `_rechoke` from here on: `count` are unchoked so far, `hit` if one of them is not preferred. */
  function Swept<T>(slots: seq<Slot<T>>, preferred: seq<bool>, minUploads: nat, count: nat,
                    hit: bool): (r: seq<Slot<T>>)
    requires |slots| == |preferred|
    ensures |r| == |slots|
  {
    if slots == [] then []
    else
      var c := slots[0];
      if preferred[0] then [c.(choked := false)] + Swept(slots[1..], preferred[1..], minUploads, count, hit)
      else if count < minUploads || !hit then
        [c.(choked := false)] +
        Swept(slots[1..], preferred[1..], minUploads, if c.interested then count + 1 else count, hit || c.interested)
      else [c.(choked := true)] + Swept(slots[1..], preferred[1..], minUploads, count, hit)
  }

  /** The connections that are interested but not preferred. */
  ghost predicate Other<T>(slots: seq<Slot<T>>, preferred: seq<bool>, i: nat)
  {
    i < |slots| == |preferred| && slots[i].interested && !preferred[i]
  }

  /** What the sweep leaves: the flags of interest, every preferred connection unchoked, no more active ones than
      allowed, a choked one only if there are as many active ones as wanted and one that is not preferred. */
  lemma {:induction false} SweptIs<T>(slots: seq<Slot<T>>, preferred: seq<bool>, minUploads: nat, count: nat, hit: bool)
    requires |slots| == |preferred| && forall i :: 0 <= i < |slots| && preferred[i] ==> slots[i].interested
    ensures var r := Swept(slots, preferred, minUploads, count, hit);
      var lucky := Active(r) - CountTrue(preferred);
      && (forall i :: 0 <= i < |r| ==> r[i] == slots[i].(choked := r[i].choked))
      && (forall i :: 0 <= i < |r| && preferred[i] ==> !r[i].choked)
      && (r != [] && !hit ==> !r[0].choked)
      && 0 <= lucky && count + lucky <= Max(if hit then count else count + 1, minUploads)
      && ((exists i :: 0 <= i < |r| && r[i].choked) ==> count + lucky >= minUploads)
      && (!hit && (exists i :: 0 <= i < |r| && r[i].choked) ==> lucky > 0)
      && (!hit && lucky > 0 ==> exists i :: 0 <= i < |r| && Other(slots, preferred, i) && !r[i].choked)
      && (!hit && (exists i :: 0 <= i < |slots| && Other(slots, preferred, i)) ==> lucky > 0)
    decreases |slots|
  {
    if slots != [] {
      var c, rest, flags := slots[0], slots[1..], preferred[1..];
      var r := Swept(slots, preferred, minUploads, count, hit);
      var unchoked := preferred[0] || count < minUploads || !hit;
      var counted := !preferred[0] && unchoked && c.interested;
      var count', hit' := if counted then count + 1 else count, hit || counted;
      SweptIs(rest, flags, minUploads, count', hit');
      var tail := Swept(rest, flags, minUploads, count', hit');
      assert r == [c.(choked := !unchoked)] + tail;
      assert r[1..] == tail;
      SweptFirst(slots, preferred, r, tail);
    }
  }

  lemma {:induction false} SweptFirst<T>(slots: seq<Slot<T>>, preferred: seq<bool>, r: seq<Slot<T>>, tail: seq<Slot<T>>)
    requires slots != [] && |slots| == |preferred| == |r| && tail == r[1..] && r[0] == slots[0].(choked := r[0].choked)
    ensures Active(r) == Active(tail) + if slots[0].interested && !r[0].choked then 1 else 0
    ensures CountTrue(preferred) == CountTrue(preferred[1..]) + if preferred[0] then 1 else 0
    ensures (exists i :: 0 <= i < |r| && r[i].choked) <==> r[0].choked || exists i :: 0 <= i < |tail| && tail[i].choked
    ensures (exists i :: 0 <= i < |slots| && Other(slots, preferred, i)) <==>
      Other(slots, preferred, 0) || exists i :: 0 <= i < |slots[1..]| && Other(slots[1..], preferred[1..], i)
    ensures (exists i :: 0 <= i < |tail| && Other(slots[1..], preferred[1..], i) && !tail[i].choked) ==>
      exists i :: 0 <= i < |r| && Other(slots, preferred, i) && !r[i].choked
    ensures Other(slots, preferred, 0) && !r[0].choked ==>
      exists i :: 0 <= i < |r| && Other(slots, preferred, i) && !r[i].choked
  {
    assert forall i :: 0 <= i < |tail| ==> tail[i] == r[i + 1];
    assert forall i :: 0 <= i < |tail| ==> (Other(slots[1..], preferred[1..], i) <==> Other(slots, preferred, i + 1));
    if i :| 0 <= i < |r| && r[i].choked && i > 0 {
      assert tail[i - 1].choked;
    }
    if i :| 0 <= i < |slots| && Other(slots, preferred, i) && i > 0 {
      assert Other(slots[1..], preferred[1..], i - 1);
    }
    if i :| 0 <= i < |tail| && tail[i].choked {
      assert r[i + 1].choked;
    }
    if i :| 0 <= i < |slots[1..]| && Other(slots[1..], preferred[1..], i) {
      assert Other(slots, preferred, i + 1);
    }
    if i :| 0 <= i < |tail| && Other(slots[1..], preferred[1..], i) && !tail[i].choked {
      assert Other(slots, preferred, i + 1) && !r[i + 1].choked;
    }
  }

  /** How many of the first `i` connections are interested but not preferred. */
  function Others<T>(slots: seq<Slot<T>>, preferred: seq<bool>, i: nat): (n: nat)
    requires i <= |slots| == |preferred|
  {
    if i == 0 then 0
    else Others(slots, preferred, i - 1) + if slots[i - 1].interested && !preferred[i - 1] then 1 else 0
  }

  lemma {:induction false} OthersFirst<T>(slots: seq<Slot<T>>, preferred: seq<bool>, i: nat)
    requires 0 < i <= |slots| == |preferred|
    ensures Others(slots, preferred, i) ==
      Others(slots[1..], preferred[1..], i - 1) + if slots[0].interested && !preferred[0] then 1 else 0
  {
    if i > 1 {
      OthersFirst(slots, preferred, i - 1);
    }
  }

  /** Who is choked: exactly the connections that are not preferred and come after some interested one that is not,
      and after enough of them to fill the uploads with the preferred ones. */
  lemma {:induction false} SweptExactly<T>(slots: seq<Slot<T>>, preferred: seq<bool>, minUploads: nat, count: nat,
                                           hit: bool, i: nat)
    requires |slots| == |preferred| && i < |slots|
    ensures var others := Others(slots, preferred, i);
      Swept(slots, preferred, minUploads, count, hit)[i] ==
        slots[i].(choked := !preferred[i] && (hit || others > 0) && count + others >= minUploads)
    decreases |slots|
  {
    if i > 0 {
      OthersFirst(slots, preferred, i);
      var unchoked := preferred[0] || count < minUploads || !hit;
      var counted := !preferred[0] && unchoked && slots[0].interested;
      SweptExactly(slots[1..], preferred[1..], minUploads, if counted then count + 1 else count, hit || counted, i - 1);
    }
  }

  /** A possible outcome of `_rechoke`. */
  ghost predicate Rechoked<T>(slots: seq<Slot<T>>, snubbed: seq<bool>, rate: seq<real>, maxUploads: nat,
                              minUploads: nat, slots': seq<Slot<T>>)
  {
    maxUploads >= 1 && exists preferred: seq<bool> ::
      Top(slots, snubbed, rate, maxUploads - 1, preferred)
      && slots' == Swept(slots, preferred, minUploads, CountTrue(preferred), false)
  }

  /** The fastest candidates are unchoked, and so is some other interested connection if there is one. */
  ghost predicate Favours<T>(slots: seq<Slot<T>>, snubbed: seq<bool>, rate: seq<real>, maxUploads: nat,
                             preferred: seq<bool>, slots': seq<Slot<T>>)
  {
    && |slots'| == |slots| && maxUploads >= 1 && Top(slots, snubbed, rate, maxUploads - 1, preferred)
    && (forall i :: 0 <= i < |slots'| && preferred[i] ==> !slots'[i].choked)
    && ((exists i :: 0 <= i < |slots| && Other(slots, preferred, i)) ==>
          exists i :: 0 <= i < |slots'| && Other(slots, preferred, i) && !slots'[i].choked)
  }

  /** Between events: not too many uploads, and nobody is choked while there are too few. */
  ghost predicate Balanced<T>(slots: seq<Slot<T>>, maxUploads: nat, minUploads: nat)
  {
    && Active(slots) <= Max(maxUploads, minUploads)
    && ((exists i :: 0 <= i < |slots| && slots[i].choked) ==> Active(slots) >= Max(1, minUploads))
  }

  /** `_rechoke` balances the uploads, prefers the fastest, and leaves the first connection unchoked. */
  lemma {:induction false} RechokeBalances<T>(slots: seq<Slot<T>>, snubbed: seq<bool>, rate: seq<real>, maxUploads: nat,
                                              minUploads: nat,
                                              slots': seq<Slot<T>>)
    requires Rechoked(slots, snubbed, rate, maxUploads, minUploads, slots')
    ensures Balanced(slots', maxUploads, minUploads)
    ensures |slots'| == |slots| && forall i :: 0 <= i < |slots| ==> slots'[i] == slots[i].(choked := slots'[i].choked)
    ensures slots' != [] ==> !slots'[0].choked
    ensures exists preferred: seq<bool> :: Favours(slots, snubbed, rate, maxUploads, preferred, slots')
  {
    var preferred: seq<bool> :| Top(slots, snubbed, rate, maxUploads - 1, preferred)
      && slots' == Swept(slots, preferred, minUploads, CountTrue(preferred), false);
    SweptIs(slots, preferred, minUploads, CountTrue(preferred), false);
    assert Favours(slots, snubbed, rate, maxUploads, preferred, slots');
  }

  // --- Changes between two rechokes ---

  lemma {:induction false} ActiveJoin<T>(a: seq<Slot<T>>, b: seq<Slot<T>>)
    ensures Active(a + b) == Active(a) + Active(b)
    decreases |a|
  {
    if a == [] {
      assert a + b == b;
    } else {
      ActiveJoin(a[1..], b);
      assert (a + b)[1..] == a[1..] + b;
    }
  }

  lemma {:induction false} ActiveSplit<T>(slots: seq<Slot<T>>, k: nat)
    requires k < |slots|
    ensures Active(slots) == Active(slots[..k]) + Active(slots[k + 1..]) + if slots[k].interested && !slots[k].choked then 1 else 0
  {
    assert slots == slots[..k] + ([slots[k]] + slots[k + 1..]);
    ActiveJoin(slots[..k], [slots[k]] + slots[k + 1..]);
    ActiveJoin([slots[k]], slots[k + 1..]);
    assert Active([slots[k]]) == if slots[k].interested && !slots[k].choked then 1 else 0 by {
      assert [slots[k]][1..] == [];
    }
  }

  /** A connection that was not uploaded to can go without a rechoke. */
  lemma {:induction false} LostBalanced<T>(slots: seq<Slot<T>>, maxUploads: nat, minUploads: nat, k: nat)
    requires Balanced(slots, maxUploads, minUploads) && k < |slots| && !(slots[k].interested && !slots[k].choked)
    ensures Balanced(slots[..k] + slots[k + 1..], maxUploads, minUploads)
  {
    var rest := slots[..k] + slots[k + 1..];
    ActiveSplit(slots, k);
    ActiveJoin(slots[..k], slots[k + 1..]);
    if i :| 0 <= i < |rest| && rest[i].choked {
      assert slots[if i < k then i else i + 1].choked;
    }
  }

  /** A choked connection can become interested or not without a rechoke. */
  lemma {:induction false} InterestBalanced<T>(slots: seq<Slot<T>>, maxUploads: nat, minUploads: nat, k: nat,
                                               interested: bool)
    requires Balanced(slots, maxUploads, minUploads) && k < |slots| && slots[k].choked
    ensures Balanced(slots[k := slots[k].(interested := interested)], maxUploads, minUploads)
  {
    var after := slots[k := slots[k].(interested := interested)];
    ActiveSplit(slots, k);
    ActiveSplit(after, k);
    assert after[..k] == slots[..k] && after[k + 1..] == slots[k + 1..];
  }

  // --- Round robin ---

  /** Index of the first choked and interested connection; `|slots|` if there is none. */
  function FirstWaiting<T>(slots: seq<Slot<T>>): (i: nat)
    ensures i <= |slots| && forall j :: 0 <= j < i ==> !(slots[j].choked && slots[j].interested)
    ensures i < |slots| ==> slots[i].choked && slots[i].interested
  {
    if slots == [] then 0
    else if slots[0].choked && slots[0].interested then 0
    else
      var i := FirstWaiting(slots[1..]);
      assert forall j :: 1 <= j < i + 1 ==> slots[j] == slots[1..][j - 1];
      i + 1
  }

  /** Every third tick the list is rotated so that the first one that waits is in front. */
  function Rotated<T>(slots: seq<Slot<T>>): seq<Slot<T>>
  {
    var i := FirstWaiting(slots);
    slots[i..] + slots[..i]
  }

  /** The rotation drops nobody and keeps the cyclic order. */
  lemma {:induction false} RotatedIsPermutation<T>(slots: seq<Slot<T>>)
    ensures multiset(Rotated(slots)) == multiset(slots) && |Rotated(slots)| == |slots|
    ensures (exists i :: 0 <= i < |slots| && slots[i].choked && slots[i].interested) ==>
      Rotated(slots)[0].choked && Rotated(slots)[0].interested
    ensures (forall i :: 0 <= i < |slots| ==> !(slots[i].choked && slots[i].interested)) ==> Rotated(slots) == slots
    ensures var first := FirstWaiting(slots);
      forall j :: 0 <= j < |slots| ==> Rotated(slots)[j] == slots[if j + first < |slots| then j + first else j + first - |slots|]
  {
    assert slots == slots[..FirstWaiting(slots)] + slots[FirstWaiting(slots)..];
  }

  datatype State<T> = State(slots: seq<Slot<T>>, ticks: nat)

  /** `_round_robin`. */
  ghost predicate Tick<T>(s: State<T>, s': State<T>, snubbed: seq<bool>, rate: seq<real>, maxUploads: nat,
                          minUploads: nat)
  {
    && s'.ticks == s.ticks + 1
    && Rechoked(if s'.ticks % 3 == 0 then Rotated(s.slots) else s.slots, snubbed, rate, maxUploads, minUploads,
                s'.slots)
  }

  function WithInterest<T>(slots: seq<Slot<T>>, interested: seq<bool>): (r: seq<Slot<T>>)
    requires |interested| == |slots|
  {
    seq(|slots|, i requires 0 <= i < |slots| => slots[i].(interested := interested[i]))
  }

  /** Anything that may happen between ticks while no connection is made or lost: interest changes, and the list may be
      rechoked. */
  ghost predicate Quiet<T>(s: State<T>, s': State<T>, interested: seq<bool>, snubbed: seq<bool>, rate: seq<real>,
                           maxUploads: nat, minUploads: nat)
  {
    && s'.ticks == s.ticks && |interested| == |s.slots|
    && (s'.slots == WithInterest(s.slots, interested)
        || Rechoked(WithInterest(s.slots, interested), snubbed, rate, maxUploads, minUploads, s'.slots))
  }

  ghost predicate Next<T>(s: State<T>, s': State<T>)
  {
    || (exists snubbed: seq<bool>, rate: seq<real>, maxUploads: nat, minUploads: nat ::
          Tick(s, s', snubbed, rate, maxUploads, minUploads))
    || (exists interested: seq<bool>, snubbed: seq<bool>, rate: seq<real>, maxUploads: nat, minUploads: nat ::
          Quiet(s, s', interested, snubbed, rate, maxUploads, minUploads))
  }

  lemma {:induction false} QuietStep<T>(view: seq<Slot<T>>, changed: seq<Slot<T>>, after: seq<Slot<T>>, ticks: nat,
                                        snubbed: seq<bool>, rate: seq<real>,
                                        maxUploads: nat, minUploads: nat)
    requires |changed| == |view| && forall i :: 0 <= i < |view| ==> changed[i] == view[i].(interested := changed[i].interested)
    requires after == changed || Rechoked(changed, snubbed, rate, maxUploads, minUploads, after)
    ensures Next(State(view, ticks), State(after, ticks))
  {
    var interested := seq(|view|, i requires 0 <= i < |view| => changed[i].interested);
    assert WithInterest(view, interested) == changed;
    if after != changed {
      RechokeBalances(changed, snubbed, rate, maxUploads, minUploads, after);
    }
    assert Quiet(State(view, ticks), State(after, ticks), interested, snubbed, rate, maxUploads, minUploads);
  }

  /** Connection `c` is at index `i` and waits. */
  ghost predicate WaitsAt<T>(s: State<T>, c: T, i: nat)
  {
    i < |s.slots| && s.slots[i].who == c && s.slots[i].interested && s.slots[i].choked
  }

  ghost predicate HeadFree<T>(s: State<T>)
  {
    s.slots != [] ==> !s.slots[0].choked
  }

  /** How long a connection at index `i` may still have to wait. */
  function Patience(i: nat, ticks: nat): int { 3 * i - ticks % 3 }

  /** A step that leaves `c` waiting brings it nearer to the head if it is a tick, and never moves it back. */
  lemma {:induction false} StepNears<T>(s: State<T>, s': State<T>, c: T, i: nat) returns (i': nat)
    requires Next(s, s') && WaitsAt(s, c, i)
    requires (forall k :: 0 <= k < |s'.slots| && s'.slots[k].who == c ==> s'.slots[k].interested && s'.slots[k].choked)
    ensures |s'.slots| == |s.slots| && WaitsAt(s', c, i') && s.ticks <= s'.ticks <= s.ticks + 1
    ensures HeadFree(s) || s'.ticks > s.ticks ==> HeadFree(s')
    ensures HeadFree(s) ==> Patience(i', s'.ticks) <= Patience(i, s.ticks) - (s'.ticks - s.ticks)
  {
    hide Top, Swept;
    if snubbed: seq<bool>, rate: seq<real>, maxUploads: nat, minUploads: nat :| Tick(s, s', snubbed, rate, maxUploads, minUploads) {
      var slots := if s'.ticks % 3 == 0 then Rotated(s.slots) else s.slots;
      RechokeBalances(slots, snubbed, rate, maxUploads, minUploads, s'.slots);
      if s'.ticks % 3 == 0 {
        var first := FirstWaiting(s.slots);
        assert first <= i;
        i' := i - first;
        assert slots[i'] == s.slots[i];
        assert s'.slots[i'].who == c;
      } else {
        i' := i;
        assert s'.slots[i'].who == c;
      }
    } else {
      i' := i;
      var interested: seq<bool>, snubbed: seq<bool>, rate: seq<real>, maxUploads: nat, minUploads: nat :|
        Quiet(s, s', interested, snubbed, rate, maxUploads, minUploads);
      var slots := WithInterest(s.slots, interested);
      if s'.slots != slots {
        RechokeBalances(slots, snubbed, rate, maxUploads, minUploads, s'.slots);
      }
      assert s'.slots[i].who == c;
    }
  }

  /** A run of the choker with the same connections throughout, in which `c` is interested all the time and choked in
      every state. */
  ghost predicate Starves<T>(run: seq<State<T>>, c: T)
  {
    && run != []
    && (forall k :: 0 <= k < |run| - 1 ==> Next(run[k], run[k + 1]))
    && (exists i :: 0 <= i < |run[0].slots| && WaitsAt(run[0], c, i))
    && (forall k, i :: 0 <= k < |run| && 0 <= i < |run[k].slots| && run[k].slots[i].who == c ==>
          run[k].slots[i].interested && run[k].slots[i].choked)
  }

  lemma {:induction false} StarvesShort<T>(run: seq<State<T>>, c: T, i: nat)
    requires Starves(run, c) && WaitsAt(run[0], c, i) && HeadFree(run[0])
    ensures run[|run| - 1].ticks - run[0].ticks < Patience(i, run[0].ticks)
    decreases |run|
  {
    if |run| > 1 {
      assert Next(run[0], run[0 + 1]);
      var i' := StepNears(run[0], run[1], c, i);
      var rest := run[1..];
      assert forall k :: 0 <= k < |rest| ==> rest[k] == run[k + 1];
      assert forall k :: 0 <= k < |rest| - 1 ==> Next(rest[k], rest[k + 1]);
      StarvesShort(rest, c, i');
    }
  }

  /** Nobody starves: with n connections, one that stays interested cannot stay choked over 3n - 2 ticks. */
  lemma {:induction false} NobodyStarves<T>(run: seq<State<T>>, c: T)
    requires Starves(run, c)
    ensures run[|run| - 1].ticks - run[0].ticks <= 3 * |run[0].slots| - 3
    decreases |run|
  {
    var i :| 0 <= i < |run[0].slots| && WaitsAt(run[0], c, i);
    if HeadFree(run[0]) {
      StarvesShort(run, c, i);
    } else if |run| > 1 {
      assert Next(run[0], run[0 + 1]);
      var i' := StepNears(run[0], run[1], c, i);
      var rest := run[1..];
      assert forall k :: 0 <= k < |rest| ==> rest[k] == run[k + 1];
      assert forall k :: 0 <= k < |rest| - 1 ==> Next(rest[k], rest[k + 1]);
      assert Starves(rest, c);
      if HeadFree(run[1]) {
        StarvesShort(rest, c, i');
      } else {
        NobodyStarves(rest, c);
      }
    }
  }
}
