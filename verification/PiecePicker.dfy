/** Which piece to ask for next: an index of the pieces by how many peers have them
    (wubi/src/bittorrent/PiecePicker.py). */
module Picker {
  import opened Wrappers

  /** How many connected peers have each piece; None for the pieces we have ourselves (`numinterests`). */
  type Counts = seq<Option<nat>>

  const BEST_START: nat := 0x4000_0000

  // --- Random choices: any outcome the library may give ---

  method RandRange(n: nat) returns (k: nat)
    requires n > 0
    ensures k < n
  {
    assert UpTo(n)[0] in UpTo(n);
    k :| k in UpTo(n);
  }

  method Choice(s: seq<nat>) returns (x: nat)
    requires s != []
    ensures x in s
  {
    assert s[0] in s;
    x :| x in s;
  }

  method Shuffle<T(==)>(s: seq<T>) returns (r: seq<T>)
    ensures multiset(r) == multiset(s)
  {
    r := s;
  }

  function UpTo(n: nat): (r: seq<nat>)
    ensures |r| == n && forall i :: 0 <= i < n ==> r[i] == i
  {
    seq(n, i requires 0 <= i => i)
  }

  // --- What the choice of a piece goes by ---

  /** The pieces under way, for any peer and for seeds, whether the cutoff is reached, the buckets, and the scrambled
      order. */
  datatype Order = Order(started: seq<nat>, seedstarted: seq<nat>, past: bool, interests: seq<seq<nat>>,
                         scrambled: seq<nat>)

  /** What `requested` notes. */
  function Noted(order: Order, piece: nat, seed: bool): Order
  {
    order.(started := if piece in order.started then order.started else order.started + [piece],
           seedstarted := if !seed || piece in order.seedstarted then order.seedstarted
                          else order.seedstarted + [piece])
  }

  /** What the choice goes by from `before` on, once a block of `piece` came in; `done` is whether it was completed. */
  function WithStarted(order: Order, started: seq<nat>, seedstarted: seq<nat>, piece: nat, done: bool): Order
  {
    order.(started := if done then Without(started, piece) else started,
           seedstarted := if done then Without(seedstarted, piece) else seedstarted)
  }

  lemma {:induction false} WithStartedIs(order: Order, order': Order, started: seq<nat>, seedstarted: seq<nat>,
                                         piece: nat, done: bool)
    requires order' == order.(started := order'.started, seedstarted := order'.seedstarted)
    requires order.started == if done then Without(started, piece) else started
    requires order.seedstarted == if done then Without(seedstarted, piece) else seedstarted
    ensures WithStarted(order', started, seedstarted, piece, done) == order
  {
  }

  /** `piece` went to the end of its bucket. */
  ghost predicate MovedBack(interests: seq<seq<nat>>, interests': seq<seq<nat>>, piece: nat)
  {
    exists n :: 0 <= n < |interests| && piece in interests[n]
                && interests' == interests[n := Without(interests[n], piece) + [piece]]
  }

  lemma {:induction false} MovedBackFrom(interests: seq<seq<nat>>, interests': seq<seq<nat>>, n: nat, piece: nat)
    requires n < |interests| == |interests'| && piece in interests[n]
    requires interests'[n] == Without(interests[n], piece) + [piece]
    requires forall k :: 0 <= k < |interests| && k != n ==> interests'[k] == interests[k]
    ensures MovedBack(interests, interests', piece)
  {
  }

  // --- What each event does to the counts ---

  function Uncounted(n: nat): (num: Counts)
    ensures |num| == n
  {
    seq(n, _ => Some(0))
  }

  function CountUp(num: Counts, p: nat): Counts
  {
    if p < |num| && num[p].Some? then num[p := Some(num[p].value + 1)] else num
  }

  function CountDown(num: Counts, p: nat): Counts
  {
    if p < |num| && num[p].Some? && num[p].value > 0 then num[p := Some(num[p].value - 1)] else num
  }

  function Done(num: Counts, p: nat): Counts
  {
    if p < |num| then num[p := None] else num
  }

  // --- The index ---

  /** Entry `j` of bucket `k` is a piece counted `k` times whose recorded position is `j`. */
  ghost predicate Entry(pos: seq<nat>, num: Counts, k: nat, j: nat, p: nat)
  {
    p < |num| == |pos| && num[p] == Some(k) && pos[p] == j
  }

  /** Piece `p`, if it is counted, is found at its recorded position of its bucket. */
  ghost predicate Found(interests: seq<seq<nat>>, pos: seq<nat>, num: Counts, p: nat)
  {
    p < |num| == |pos| &&
    (num[p].Some? ==>
       num[p].value < |interests| && pos[p] < |interests[num[p].value]| && interests[num[p].value][pos[p]] == p)
  }

  /** The buckets hold exactly the counted pieces, each where `pos` says. */
  ghost predicate Indexed(interests: seq<seq<nat>>, pos: seq<nat>, num: Counts)
  {
    && |pos| == |num|
    && (forall k, j :: 0 <= k < |interests| && 0 <= j < |interests[k]| ==> Entry(pos, num, k, j, interests[k][j]))
    && (forall p {:trigger Found(interests, pos, num, p)} :: 0 <= p < |num| ==> Found(interests, pos, num, p))
  }

  /** Bucket `k` holds the pieces counted `k` times, each once. */
  lemma {:induction false} BucketExact(interests: seq<seq<nat>>, pos: seq<nat>, num: Counts, k: nat)
    requires Indexed(interests, pos, num) && k < |interests|
    ensures forall p: nat :: p in interests[k] <==> p < |num| && num[p] == Some(k)
    ensures forall i, j :: 0 <= i < j < |interests[k]| ==> interests[k][i] != interests[k][j]
  {
    forall p: nat | p < |num| && num[p] == Some(k)
      ensures p in interests[k]
    {
      assert Found(interests, pos, num, p);
    }
    forall i, j | 0 <= i < j < |interests[k]|
      ensures interests[k][i] != interests[k][j]
    {
      assert Entry(pos, num, k, i, interests[k][i]) && Entry(pos, num, k, j, interests[k][j]);
    }
  }

  /** Bucket `b` with its entry `p` overwritten by the last one, which is dropped. */
  function SwapOut(b: seq<nat>, p: nat): seq<nat>
    requires p < |b|
  {
    b[p := b[|b| - 1]][..|b| - 1]
  }

  lemma {:induction false} SwapOutIndexed(interests: seq<seq<nat>>, pos: seq<nat>, num: Counts, piece: nat)
    requires Indexed(interests, pos, num) && piece < |num| && num[piece].Some?
    ensures Found(interests, pos, num, piece)
    ensures var k := num[piece].value;
      var b := interests[k];
      b[|b| - 1] < |pos| && Indexed(interests[k := SwapOut(b, pos[piece])], pos[b[|b| - 1] := pos[piece]],
                                    num[piece := None])
  {
    assert Found(interests, pos, num, piece);
    var k := num[piece].value;
    var b := interests[k];
    var last := b[|b| - 1];
    assert Entry(pos, num, k, |b| - 1, last);
    var interests', pos', num' := interests[k := SwapOut(b, pos[piece])], pos[last := pos[piece]], num[piece := None];
    forall q | 0 <= q < |num'|
      ensures Found(interests', pos', num', q)
    {
      assert Found(interests, pos, num, q);
    }
    forall i, j | 0 <= i < |interests'| && 0 <= j < |interests'[i]|
      ensures Entry(pos', num', i, j, interests'[i][j])
    {
      if i == k && j == pos[piece] {
        assert interests'[i][j] == last;
      } else {
        assert Entry(pos, num, i, j, interests[i][j]);
      }
    }
  }

  /** Bucket `b` with `piece` at `at`, and what was there at the end. */
  function SwapIn(b: seq<nat>, at: nat, piece: nat): seq<nat>
    requires at <= |b|
  {
    if at == |b| then b + [piece] else (b + [b[at]])[at := piece]
  }

  lemma {:induction false} SwapInIndexed(interests: seq<seq<nat>>, pos: seq<nat>, num: Counts, piece: nat, k: nat,
                                         at: nat)
    requires Indexed(interests, pos, num) && piece < |num| && num[piece].None?
    requires k < |interests| && at <= |interests[k]|
    ensures at < |interests[k]| ==> interests[k][at] < |pos|
    ensures var b := interests[k];
      Indexed(interests[k := SwapIn(b, at, piece)], (if at < |b| then pos[b[at] := |b|] else pos)[piece := at],
              num[piece := Some(k)])
  {
    var b := interests[k];
    assert at < |b| ==> Entry(pos, num, k, at, b[at]);
    var interests', num' := interests[k := SwapIn(b, at, piece)], num[piece := Some(k)];
    var pos' := (if at < |b| then pos[b[at] := |b|] else pos)[piece := at];
    forall q | 0 <= q < |num'|
      ensures Found(interests', pos', num', q)
    {
      assert Found(interests, pos, num, q);
    }
    forall i, j | 0 <= i < |interests'| && 0 <= j < |interests'[i]|
      ensures Entry(pos', num', i, j, interests'[i][j])
    {
      if i == k && j == at {
        assert interests'[i][j] == piece;
      } else if i == k && j == |b| {
        assert interests'[i][j] == b[at];
      } else {
        assert Entry(pos, num, i, j, interests[i][j]);
      }
    }
  }

  class PiecePicker {
    const rarestFirstCutoff: nat
    const numpieces: nat
    var interests: seq<seq<nat>>
    var posInInterests: seq<nat>
    var numinterests: Counts
    var started: seq<nat>
    var seedstarted: seq<nat>
    var numgot: nat
    var scrambled: seq<nat>

    ghost predicate Valid()
      reads this
    {
      && |interests| > 0 && |numinterests| == numpieces
      && Indexed(interests, posInInterests, numinterests)
      && NoDuplicates(started) && NoDuplicates(seedstarted)
      && (forall p :: p in started ==> p < numpieces)
      && (forall p :: p in seedstarted ==> p in started)
      && numgot == CountNone(numinterests)
      && (forall p: nat :: p in scrambled <==> p < numpieces)
    }

    constructor (numpieces: nat, rarestFirstCutoff: nat)
      ensures Valid()
      ensures this.numpieces == numpieces && this.rarestFirstCutoff == rarestFirstCutoff
      ensures numinterests == Uncounted(numpieces) && started == [] && seedstarted == [] && |interests| == 1
    {
      this.rarestFirstCutoff, this.numpieces := rarestFirstCutoff, numpieces;
      interests, posInInterests := [UpTo(numpieces)], UpTo(numpieces);
      numinterests := Uncounted(numpieces);
      started, seedstarted, numgot := [], [], 0;
      new;
      scrambled := Shuffle(UpTo(numpieces));
      ScrambledIs(scrambled, numpieces);
      NoneInitially(numpieces);
      forall p | 0 <= p < numpieces
        ensures Found(interests, posInInterests, numinterests, p)
      {
      }
    }

    /** `_shift_over(piece, interests[from], interests[to])`; the count is already the new one. */
    method ShiftOver(piece: nat, from: nat, to: nat)
      requires piece < |numinterests| && numinterests[piece] == Some(to) && to < |interests| && from != to
      requires Indexed(interests, posInInterests, numinterests[piece := Some(from)])
      modifies this`interests, this`posInInterests
      ensures Indexed(interests, posInInterests, numinterests) && |interests| == |old(interests)|
    {
      ghost var num0 := numinterests[piece := Some(from)];
      SwapOutIndexed(interests, posInInterests, num0, piece);
      var l1 := interests[from];
      var p := posInInterests[piece];
      l1 := l1[p := l1[|l1| - 1]];
      posInInterests := posInInterests[l1[|l1| - 1] := p];
      l1 := l1[..|l1| - 1];
      interests := interests[from := l1];
      var l2 := interests[to];
      var newp := RandRange(|l2| + 1);
      SwapInIndexed(interests, posInInterests, num0[piece := None], piece, to, newp);
      if newp == |l2| {
        posInInterests := posInInterests[piece := |l2|];
        l2 := l2 + [piece];
      } else {
        var was := l2[newp];
        posInInterests := posInInterests[was := |l2|];
        l2 := l2 + [was];
        l2 := l2[newp := piece];
        posInInterests := posInInterests[piece := newp];
      }
      interests := interests[to := l2];
      assert num0[piece := None][piece := Some(to)] == numinterests;
    }

    method GotHave(piece: nat)
      requires Valid() && piece < numpieces
      modifies this`interests, this`posInInterests, this`numinterests
      ensures Valid() && numinterests == CountUp(old(numinterests), piece)
      ensures |interests| == |old(interests)| || numinterests[piece] == Some(|interests| - 1)
    {
      if numinterests[piece].None? {
        return;
      }
      CountNoneKept(numinterests, piece, numinterests[piece].value + 1);
      assert Found(interests, posInInterests, numinterests, piece);
      var numint := numinterests[piece].value;
      if numint == |interests| - 1 {
        EmptyBucketIndexed(interests, posInInterests, numinterests);
        interests := interests + [[]];
      }
      numinterests := numinterests[piece := Some(numint + 1)];
      assert numinterests[piece := Some(numint)] == old(numinterests);
      ShiftOver(piece, numint, numint + 1);
    }

    /** A peer that had the piece is gone, so the piece was counted. */
    method LostHave(piece: nat)
      requires Valid() && piece < numpieces && numinterests[piece] != Some(0)
      modifies this`interests, this`posInInterests, this`numinterests
      ensures Valid() && numinterests == CountDown(old(numinterests), piece) && |interests| == |old(interests)|
    {
      if numinterests[piece].None? {
        return;
      }
      CountNoneKept(numinterests, piece, numinterests[piece].value - 1);
      assert Found(interests, posInInterests, numinterests, piece);
      var numint := numinterests[piece].value;
      numinterests := numinterests[piece := Some(numint - 1)];
      assert numinterests[piece := Some(numint)] == old(numinterests);
      ShiftOver(piece, numint, numint - 1);
    }

    method Requested(piece: nat, seed: bool)
      requires Valid() && piece < numpieces
      modifies this`started, this`seedstarted
      ensures Valid()
      ensures started == if piece in old(started) then old(started) else old(started) + [piece]
      ensures seedstarted == if !seed || piece in old(seedstarted) then old(seedstarted) else old(seedstarted) + [piece]
      ensures Current() == Noted(old(Current()), piece, seed)
    {
      if piece !in started {
        started := started + [piece];
      }
      if seed && piece !in seedstarted {
        seedstarted := seedstarted + [piece];
      }
    }

    method Complete(piece: nat)
      requires Valid() && piece < numpieces && numinterests[piece].Some?
      modifies this`interests, this`posInInterests, this`numinterests, this`started, this`seedstarted, this`numgot
      ensures Valid() && numinterests == Done(old(numinterests), piece)
      ensures numgot == old(numgot) + 1 && |interests| == |old(interests)|
      ensures started == Without(old(started), piece) && seedstarted == Without(old(seedstarted), piece)
    {
      CountNoneDone(numinterests, piece);
      SwapOutIndexed(interests, posInInterests, numinterests, piece);
      numgot := numgot + 1;
      var k := numinterests[piece].value;
      var l := interests[k];
      var p := posInInterests[piece];
      l := l[p := l[|l| - 1]];
      posInInterests := posInInterests[l[|l| - 1] := p];
      l := l[..|l| - 1];
      interests := interests[k := l];
      numinterests := numinterests[piece := None];
      WithoutIs(started, piece);
      WithoutIs(seedstarted, piece);
      if piece !in started {
        WithoutAbsent(started, piece);
      }
      if piece !in seedstarted {
        WithoutAbsent(seedstarted, piece);
      }
      // The first failing `remove` ends the attempt: a piece that is not started is not seed-started either.
      if piece in started {
        started := Without(started, piece);
        if piece in seedstarted {
          seedstarted := Without(seedstarted, piece);
        }
      }
    }

    predicate AmIComplete()
      reads this`numgot
    {
      numgot == numpieces
    }

    /** `am_I_complete` tells whether every piece has been completed. */
    lemma {:induction false} CompleteMeansAll()
      requires Valid()
      ensures AmIComplete() <==> forall p :: 0 <= p < numpieces ==> numinterests[p].None?
    {
      CountNoneAll(numinterests);
    }

    /** Bucket `k` holds exactly the incomplete pieces counted `k` times. */
    lemma {:induction false} BucketsAgree(k: nat)
      requires Valid() && k < |interests|
      ensures forall p: nat :: p in interests[k] <==> p < numpieces && numinterests[p] == Some(k)
      ensures NoDuplicates(interests[k])
    {
      BucketExact(interests, posInInterests, numinterests, k);
    }

    /** Every piece of a bucket is where its recorded position says. */
    lemma {:induction false} PositionsAgree(k: nat)
      requires Valid() && k < |interests|
      ensures forall j :: 0 <= j < |interests[k]| ==>
        interests[k][j] < |posInInterests| && posInInterests[interests[k][j]] == j
    {
      assert forall j :: 0 <= j < |interests[k]| ==> Entry(posInInterests, numinterests, k, j, interests[k][j]);
    }

    /** The piece goes to the end of its bucket; those behind it move up. */
    method Bump(piece: nat)
      requires Valid() && piece < numpieces && numinterests[piece].Some?
      modifies this`interests, this`posInInterests
      ensures Valid() && |interests| == |old(interests)| && numinterests[piece].value < |interests|
      ensures piece in old(interests)[numinterests[piece].value]
      ensures forall k :: 0 <= k < |interests| && k != numinterests[piece].value ==> interests[k] == old(interests)[k]
      ensures interests[numinterests[piece].value] == Without(old(interests)[numinterests[piece].value],
                                                              piece) + [piece]
    {
      assert Found(interests, posInInterests, numinterests, piece);
      ghost var interests0, pos0 := interests, posInInterests;
      var k := numinterests[piece].value;
      var l := interests[k];
      var pos := posInInterests[piece];
      BumpedBucket(interests, pos0, numinterests, piece);
      l := l[..pos] + l[pos + 1..];
      l := l + [piece];
      interests := interests[k := l];
      RenumberedNone(l, pos0, pos);
      for i := pos to |l|
        invariant interests == interests0[k := l] && NoDuplicates(l)
        invariant Renumbered(l, pos0, pos, i, posInInterests)
      {
        RenumberedNext(l, pos0, pos, i, posInInterests);
        posInInterests := posInInterests[l[i] := i];
      }
      BumpIndexed(interests0, pos0, numinterests, piece, l, posInInterests);
    }

    /** A piece to ask for among those `want` accepts. `want` accepts no piece that is complete. */
    method Next(want: nat -> bool, seed: bool) returns (r: Option<nat>)
      requires Valid() && |interests| <= BEST_START
      requires forall i: nat :: i < numpieces && want(i) ==> numinterests[i].Some?
      // None: no started piece is wanted, and either the cutoff is not reached and no piece at all is wanted, or no
      // wanted piece is held by a peer
      ensures r.None? <==>
        && (forall i :: i in Pool(seed) ==> !want(i))
        && (forall i: nat :: i < numpieces && want(i) ==> numgot >= rarestFirstCutoff && numinterests[i] == Some(0))
      ensures r.Some? ==> r.value < numpieces && want(r.value)
      // some started piece is wanted: a least common one of these
      ensures r.Some? && (exists i :: i in Pool(seed) && want(i)) ==>
        && r.value in Pool(seed)
        && forall i :: i in Pool(seed) && want(i) ==> numinterests[r.value].value <= numinterests[i].value
      // otherwise, before the cutoff: the first in the scrambled order
      ensures r.Some? && (forall i :: i in Pool(seed) ==> !want(i)) && numgot < rarestFirstCutoff ==>
        First(scrambled, want, r.value)
      // otherwise, past it: a least common one of all wanted pieces that a peer has
      ensures r.Some? && (forall i :: i in Pool(seed) ==> !want(i)) && numgot >= rarestFirstCutoff ==>
        && 0 < numinterests[r.value].value < |interests|
        && (forall i: nat :: i < numpieces && want(i) && numinterests[i].value > 0 ==>
              numinterests[r.value].value <= numinterests[i].value)
        && First(interests[numinterests[r.value].value], want, r.value)
    {
      var bests: seq<nat> := [];
      var bestnum := BEST_START;
      var s := Pool(seed);
      assert forall i :: i in s ==> i < numpieces;
      for k := 0 to |s|
        invariant forall i :: i in bests ==> i in s && want(i) && i < numpieces && numinterests[i].value == bestnum
        invariant forall j :: 0 <= j < k && want(s[j]) ==>
          bests != [] && s[j] < numpieces && numinterests[s[j]].Some? && bestnum <= numinterests[s[j]].value
        invariant bests == [] ==> bestnum == BEST_START
      {
        var i := s[k];
        assert i in s;
        if want(i) {
          assert Found(interests, posInInterests, numinterests, i);
          if numinterests[i].value < bestnum {
            bests := [i];
            bestnum := numinterests[i].value;
          } else if numinterests[i].value == bestnum {
            bests := bests + [i];
          }
        }
      }
      if bests != [] {
        var best := Choice(bests);
        return Some(best);
      }
      if numgot < rarestFirstCutoff {
        for k := 0 to |scrambled|
          invariant forall j :: 0 <= j < k ==> !want(scrambled[j])
        {
          assert scrambled[k] in scrambled;
          if want(scrambled[k]) {
            return Some(scrambled[k]);
          }
        }
        forall q: nat | q < numpieces
          ensures !want(q)
        {
          assert q in scrambled;
        }
        return None;
      }
      var top := if bestnum < |interests| then bestnum else |interests|;
      var i := 1;
      while i < top
        invariant 1 <= i
        invariant forall q: nat :: q < numpieces && want(q) ==> numinterests[q].value == 0 || numinterests[q].value >= i
      {
        for j := 0 to |interests[i]|
          invariant forall m :: 0 <= m < j ==> !want(interests[i][m])
        {
          assert Entry(posInInterests, numinterests, i, j, interests[i][j]);
          if want(interests[i][j]) {
            return Some(interests[i][j]);
          }
        }
        forall q: nat | q < numpieces && numinterests[q] == Some(i)
          ensures !want(q)
        {
          assert Found(interests, posInInterests, numinterests, q);
        }
        i := i + 1;
      }
      forall q: nat | q < numpieces && want(q)
        ensures numinterests[q] == Some(0)
      {
        assert Found(interests, posInInterests, numinterests, q);
      }
      return None;
    }

    /** What the next choice goes by. */
    function Current(): Order
      reads this`started, this`seedstarted, this`numgot, this`interests, this`scrambled
    {
      Order(started, seedstarted, numgot >= rarestFirstCutoff, interests, scrambled)
    }

    lemma {:induction false} CurrentIs()
      ensures Current() == Order(started, seedstarted, numgot >= rarestFirstCutoff, interests, scrambled)
    {
    }

    lemma {:induction false} StartedOnce()
      requires Valid()
      ensures NoDuplicates(started) && forall p :: p in seedstarted ==> p in started
    {
    }

    lemma {:induction false} PoolIs(seed: bool)
      ensures Pool(seed) == if seed then Current().seedstarted else Current().started
      ensures Current().past <==> numgot >= rarestFirstCutoff
      ensures Current().interests == interests && Current().scrambled == scrambled && Current().started == started
    {
    }

    /** The pieces already under way: for a seed those started with seeds. */
    function Pool(seed: bool): seq<nat>
      reads this`started, this`seedstarted
    {
      if seed then seedstarted else started
    }
  }

  /** `x` comes first of those in `s` that are wanted. */
  ghost predicate First(s: seq<nat>, want: nat -> bool, x: nat)
  {
    exists k :: 0 <= k < |s| && s[k] == x && forall j :: 0 <= j < k ==> !want(s[j])
  }

  ghost predicate NoDuplicates(s: seq<nat>)
  {
    forall i, j :: 0 <= i < j < |s| ==> s[i] != s[j]
  }

  function CountNone(num: Counts): nat
  {
    if num == [] then 0 else CountNone(num[..|num| - 1]) + if num[|num| - 1].None? then 1 else 0
  }

  /** All pieces are there exactly when none is counted. */
  lemma {:induction false} CountNoneAll(num: Counts)
    ensures CountNone(num) <= |num|
    ensures CountNone(num) == |num| <==> forall p :: 0 <= p < |num| ==> num[p].None?
    decreases |num|
  {
    if num != [] {
      CountNoneAll(num[..|num| - 1]);
    }
  }

  lemma {:induction false} CountNoneDone(num: Counts, p: nat)
    requires p < |num| && num[p].Some?
    ensures CountNone(num[p := None]) == CountNone(num) + 1
    decreases |num|
  {
    var n := |num| - 1;
    if p < n {
      CountNoneDone(num[..n], p);
      assert num[p := None][..n] == num[..n][p := None];
    } else {
      assert num[p := None][..n] == num[..n];
    }
  }

  lemma {:induction false} CountNoneKept(num: Counts, p: nat, v: nat)
    requires p < |num| && num[p].Some?
    ensures CountNone(num[p := Some(v)]) == CountNone(num)
    decreases |num|
  {
    var n := |num| - 1;
    if p < n {
      CountNoneKept(num[..n], p, v);
      assert num[p := Some(v)][..n] == num[..n][p := Some(v)];
    } else {
      assert num[p := Some(v)][..n] == num[..n];
    }
  }

  lemma {:induction false} NoneInitially(n: nat)
    ensures CountNone(Uncounted(n)) == 0
  {
    if n > 0 {
      NoneInitially(n - 1);
      assert Uncounted(n)[..n - 1] == Uncounted(n - 1);
    }
  }

  lemma {:induction false} ScrambledIs(s: seq<nat>, n: nat)
    requires multiset(s) == multiset(UpTo(n))
    ensures forall p: nat :: p in s <==> p < n
  {
    forall p: nat
      ensures p in s <==> p < n
    {
      var u := UpTo(n);
      assert p in s <==> p in multiset(s);
      assert p in multiset(u) <==> p in u;
      if p < n {
        assert u[p] == p;
      }
    }
  }

  lemma {:induction false} EmptyBucketIndexed(interests: seq<seq<nat>>, pos: seq<nat>, num: Counts)
    requires Indexed(interests, pos, num)
    ensures Indexed(interests + [[]], pos, num)
  {
    forall p | 0 <= p < |num|
      ensures Found(interests + [[]], pos, num, p)
    {
      assert Found(interests, pos, num, p);
    }
  }

  /** `list.remove(x)`, or nothing if `x` is not there. */
  function Without(s: seq<nat>, x: nat): seq<nat>
  {
    if s == [] then [] else if s[0] == x then s[1..] else [s[0]] + Without(s[1..], x)
  }

  lemma {:induction false} WithoutNone(x: nat)
    ensures Without([], x) == []
  {
  }

  lemma {:induction false} WithoutIs(s: seq<nat>, x: nat)
    requires NoDuplicates(s)
    ensures NoDuplicates(Without(s, x))
    ensures forall y :: y in Without(s, x) <==> y in s && y != x
    decreases |s|
  {
    if s != [] {
      var rest := s[1..];
      assert forall i, j :: 0 <= i < j < |rest| ==> rest[i] == s[i + 1] && rest[j] == s[j + 1];
      assert s[0] !in rest;
      WithoutIs(rest, x);
      assert forall y :: y in s <==> y == s[0] || y in rest;
    }
  }

  lemma {:induction false} WithoutAbsent(s: seq<nat>, x: nat)
    requires x !in s
    ensures Without(s, x) == s
    decreases |s|
  {
    if s != [] {
      WithoutAbsent(s[1..], x);
      assert s == [s[0]] + s[1..];
    }
  }

  lemma {:induction false} WithoutAt(s: seq<nat>, x: nat, k: nat)
    requires k < |s| && s[k] == x && forall j :: 0 <= j < k ==> s[j] != x
    ensures Without(s, x) == s[..k] + s[k + 1..]
    decreases k
  {
    if k > 0 {
      WithoutAt(s[1..], x, k - 1);
      assert s[..k] == [s[0]] + s[1..][..k - 1];
    }
  }

  lemma {:induction false} BumpedBucket(interests: seq<seq<nat>>, pos: seq<nat>, num: Counts, piece: nat)
    requires Indexed(interests, pos, num) && piece < |num| && num[piece].Some?
    ensures Found(interests, pos, num, piece)
    ensures var b := interests[num[piece].value];
      && Without(b, piece) == b[..pos[piece]] + b[pos[piece] + 1..]
      && (forall j :: 0 <= j < |b| ==> b[j] < |pos|)
      && NoDuplicates(b[..pos[piece]] + b[pos[piece] + 1..] + [piece])
  {
    assert Found(interests, pos, num, piece);
    var k := num[piece].value;
    var b := interests[k];
    assert forall j :: 0 <= j < |b| ==> Entry(pos, num, k, j, b[j]);
    WithoutAt(b, piece, pos[piece]);
    WithoutIs(b, piece);
    NoDuplicatesSnoc(Without(b, piece), piece);
  }

  lemma {:induction false} NoDuplicatesSnoc(s: seq<nat>, x: nat)
    requires NoDuplicates(s) && x !in s
    ensures NoDuplicates(s + [x])
  {
  }

  /** What `Bump` makes of the bucket `l` and the positions `pos'`. */
  ghost predicate Bumped(interests: seq<seq<nat>>, pos: seq<nat>, num: Counts, piece: nat, l: seq<nat>, pos': seq<nat>)
  {
    && piece < |num| && num[piece].Some? && Found(interests, pos, num, piece)
    && l == interests[num[piece].value][..pos[piece]] + interests[num[piece].value][pos[piece] + 1..] + [piece]
    && Renumbered(l, pos, pos[piece], |l|, pos')
  }

  lemma {:induction false} BumpedAt(interests: seq<seq<nat>>, pos: seq<nat>, num: Counts, piece: nat, l: seq<nat>,
                                    pos': seq<nat>, j: nat)
    requires Indexed(interests, pos, num) && Bumped(interests, pos, num, piece, l, pos') && j < |l|
    ensures Entry(pos', num, num[piece].value, j, l[j])
    ensures l[j] == var b := interests[num[piece].value];
      if j < pos[piece] then b[j] else if j + 1 < |b| then b[j + 1] else piece
  {
    var k, at := num[piece].value, pos[piece];
    var b := interests[k];
    assert forall i :: 0 <= i < |b| ==> Entry(pos, num, k, i, b[i]);
    assert forall i :: 0 <= i < |l| ==> l[i] == if i < at then b[i] else if i + 1 < |b| then b[i + 1] else piece;
  }

  /** From `at` to `i` the pieces of `l` have their new positions, all other pieces what they had. */
  ghost predicate Renumbered(l: seq<nat>, pos: seq<nat>, at: nat, i: nat, pos': seq<nat>)
  {
    && i <= |l| && |pos'| == |pos| && (forall j :: 0 <= j < |l| ==> l[j] < |pos|)
    && (forall j :: at <= j < i ==> pos'[l[j]] == j)
    && (forall q :: 0 <= q < |pos| && (forall j :: at <= j < i ==> l[j] != q) ==> pos'[q] == pos[q])
  }

  lemma {:induction false} RenumberedNone(l: seq<nat>, pos: seq<nat>, at: nat)
    requires at <= |l| && forall j :: 0 <= j < |l| ==> l[j] < |pos|
    ensures Renumbered(l, pos, at, at, pos)
  {
  }

  lemma {:induction false} RenumberedNext(l: seq<nat>, pos: seq<nat>, at: nat, i: nat, pos': seq<nat>)
    requires Renumbered(l, pos, at, i, pos') && at <= i < |l| && NoDuplicates(l)
    ensures l[i] < |pos'| && Renumbered(l, pos, at, i + 1, pos'[l[i] := i])
  {
    forall q | 0 <= q < |pos| && (forall j :: at <= j < i + 1 ==> l[j] != q)
      ensures pos'[l[i] := i][q] == pos[q]
    {
      assert l[i] != q;
    }
    forall j | at <= j < i + 1
      ensures pos'[l[i] := i][l[j]] == j
    {
    }
  }

  lemma {:induction false} BumpIndexed(interests: seq<seq<nat>>, pos: seq<nat>, num: Counts, piece: nat, l: seq<nat>,
                                       pos': seq<nat>)
    requires Indexed(interests, pos, num) && Bumped(interests, pos, num, piece, l, pos')
    ensures num[piece].value < |interests| && Indexed(interests[num[piece].value := l], pos', num)
  {
    var k, at := num[piece].value, pos[piece];
    var interests' := interests[k := l];
    assert Found(interests, pos, num, piece);
    assert forall j :: 0 <= j < |l| ==> Entry(pos', num, k, j, l[j]) by {
      forall j | 0 <= j < |l|
        ensures Entry(pos', num, k, j, l[j])
      {
        BumpedAt(interests, pos, num, piece, l, pos', j);
      }
    }
    forall q | 0 <= q < |num|
      ensures Found(interests', pos', num, q)
    {
      assert Found(interests, pos, num, q);
      if num[q] == Some(k) {
        BumpedAt(interests, pos, num, piece, l, pos',
                 if q == piece then |l| - 1 else if pos[q] < at then pos[q] else pos[q] - 1);
      }
    }
    forall i, j | 0 <= i < |interests'| && 0 <= j < |interests'[i]|
      ensures Entry(pos', num, i, j, interests'[i][j])
    {
      if i != k {
        assert Entry(pos, num, i, j, interests[i][j]);
      }
    }
  }
}
