/** The sections of webui/runner.go and webui/retention.go that run under the mutex, over the table of jobs. */
module Runner {
  import opened Wrappers
  import opened Bytes
  import opened BuildQueue

  const KEEP_BUILDS: nat := 3

  /** A job row; `iso` is its retention class. */
  datatype Row = Row(state: State, iso: bool, artifacts: seq<string>, favorite: bool, pruned: bool)

  type Rows = map<nat, Row>

  function States(rows: Rows): (table: Table)
    ensures table.Keys == rows.Keys && forall id :: id in rows ==> table[id] == rows[id].state
  {
    map id | id in rows :: rows[id].state
  }

  lemma {:induction false} StatesUpdate(rows: Rows, id: nat, state: State)
    requires id in rows
    ensures States(rows[id := rows[id].(state := state)]) == States(rows)[id := state]
  {
  }

  /** Nothing but states differs. */
  ghost predicate SameButStates(rows: Rows, rows': Rows)
  {
    rows'.Keys == rows.Keys && forall id :: id in rows ==> rows'[id] == rows[id].(state := rows'[id].state)
  }

  // --- Retention ---

  /** A build that has artifacts to reclaim. */
  predicate Holding(r: Row) { r.state.Succeeded? && !r.pruned && r.artifacts != [] }

  /** The builds of the same class that are no older, itself included. */
  ghost function NoOlder(rows: Rows, id: nat): set<nat>
    requires id in rows
  {
    set k | k in rows && Holding(rows[k]) && rows[k].iso == rows[id].iso && k >= id
  }

  /** Out of its window, and neither a favourite nor booted right now. */
  ghost predicate Reclaimed(rows: Rows, held: set<nat>, id: nat)
  {
    id in rows && Holding(rows[id]) && |NoOlder(rows, id)| > KEEP_BUILDS && !rows[id].favorite && id !in held
  }

  function Emptied(r: Row): Row { r.(artifacts := [], pruned := true) }

  /** What retention leaves; `held` are the builds being booted, and those that cannot be removed. */
  ghost function Pruned(rows: Rows, held: set<nat>): (r: Rows)
    ensures r.Keys == rows.Keys
  {
    map id | id in rows :: if Reclaimed(rows, held, id) then Emptied(rows[id]) else rows[id]
  }

  /** Those of `ids` from `t` on. */
  ghost function From(ids: set<nat>, t: nat): set<nat>
  {
    set k | k in ids && k >= t
  }

  /** The `n` largest of `ids`. */
  lemma {:induction false} Largest(ids: set<nat>, n: nat) returns (top: set<nat>)
    requires n <= |ids|
    ensures top <= ids && |top| == n && forall t :: t in top ==> |From(ids, t)| <= n && From(ids, t) <= top
    decreases n
  {
    if n == 0 {
      top := {};
    } else {
      top := Largest(ids, n - 1);
      var rest := ids - top;
      assert ids == top + rest;
      assert rest != {};
      var m := Newest(rest);
      top := top + {m};
      forall t | t in top
        ensures |From(ids, t)| <= n && From(ids, t) <= top
      {
        if t == m {
          assert From(ids, m) <= top;
        }
        SubsetSize(From(ids, t), top);
      }
    }
  }

  ghost function Newest(ids: set<nat>): (m: nat)
    requires ids != {}
    ensures m in ids && forall k :: k in ids ==> k <= m
  {
    var any :| any in ids;
    if ids == {any} then any
    else
      assert ids == {any} + (ids - {any});
      var m := Newest(ids - {any});
      if m < any then any else m
  }

  /** The window is not filled up from below: what was reclaimed had enough newer builds, which are all still there. */
  lemma {:induction false} StillOut(rows: Rows, held: set<nat>, id: nat)
    requires id in rows && Holding(rows[id]) && |NoOlder(rows, id)| > KEEP_BUILDS && Pruned(rows, held)[id] == rows[id]
    ensures |NoOlder(Pruned(rows, held), id)| > KEEP_BUILDS
  {
    var once := Pruned(rows, held);
    var all := NoOlder(rows, id);
    var top := Largest(all, KEEP_BUILDS);
    assert From(all, id) == all;
    assert id !in top;
    forall t | t in top
      ensures t in NoOlder(once, id)
    {
      assert NoOlder(rows, t) == From(all, t);
    }
    SubsetSize(top + {id}, NoOlder(once, id));
  }

  /** Pruning twice reclaims what either pass may: what is held now, or cannot be removed, is reclaimed by a later
      pass and nothing else is; so a second pass with the same exceptions reclaims nothing more. */
  lemma {:induction false} PruneTwice(rows: Rows, held: set<nat>, later: set<nat>)
    ensures Pruned(Pruned(rows, held), later) == Pruned(rows, held * later)
  {
    var once := Pruned(rows, held);
    forall id | id in rows
      ensures Pruned(once, later)[id] == Pruned(rows, held * later)[id]
    {
      if Reclaimed(rows, held, id) {
        assert !Holding(once[id]);
      } else if Holding(rows[id]) {
        assert once[id] == rows[id];
        SubsetSize(NoOlder(once, id), NoOlder(rows, id));
        if |NoOlder(rows, id)| > KEEP_BUILDS {
          StillOut(rows, held, id);
        }
      }
    }
  }

  /** Exactly these builds lose their artifacts: those that succeeded and have any, with three or more newer such builds
      of their class, that are neither favourites nor held; nothing else changes. */
  lemma {:induction false} PrunedExactly(rows: Rows, held: set<nat>, id: nat)
    requires id in rows
    ensures var newer := set k | k in rows && rows[k].state.Succeeded? && !rows[k].pruned && rows[k].artifacts != []
                                 && rows[k].iso == rows[id].iso && k > id;
      Pruned(rows, held)[id] ==
        if rows[id].state.Succeeded? && !rows[id].pruned && rows[id].artifacts != [] && |newer| >= 3 && !rows[id].favorite
           && id !in held
        then rows[id].(artifacts := [], pruned := true) else rows[id]
  {
    var newer := set k | k in rows && rows[k].state.Succeeded? && !rows[k].pruned && rows[k].artifacts != []
                         && rows[k].iso == rows[id].iso && k > id;
    if Holding(rows[id]) {
      assert NoOlder(rows, id) == newer + {id};
    }
  }

  /** The newest builds of each class are left alone, and so are favourites, builds being booted, and every state. */
  lemma {:induction false} PruneSpares(rows: Rows, held: set<nat>, id: nat)
    requires id in rows
    ensures States(Pruned(rows, held)) == States(rows)
    ensures rows[id].favorite || id in held || !Holding(rows[id]) || |NoOlder(rows, id)| <= KEEP_BUILDS ==> Pruned(rows, held)[id] == rows[id]
    ensures Pruned(rows, held)[id] != rows[id] ==>
      Pruned(rows, held)[id].artifacts == [] && |NoOlder(rows, id)| > KEEP_BUILDS
  {
  }

  /** The row of a job that has ended: cancelled if that was asked for meanwhile, whatever came of it. */
  ghost function Ended(rows: Rows, id: nat, outcome: State, artifacts: seq<string>): Rows
    requires id in rows
  {
    rows[id := rows[id].(state := if rows[id].state.Cancelling? then Cancelled else outcome, artifacts := artifacts)]
  }

  lemma {:induction false} EndedIs(rows: Rows, id: nat, outcome: State, artifacts: seq<string>)
    requires id in rows
    ensures Ended(rows, id, outcome, artifacts) ==
      rows[id := rows[id].(state := if rows[id].state.Cancelling? then Cancelled else outcome, artifacts := artifacts)]
    ensures States(Ended(rows, id, outcome, artifacts)) == FinishTable(States(rows), id, outcome)
  {
  }

  lemma {:induction false} FinishTableIs(table: Table, id: nat, outcome: State)
    ensures id !in table ==> FinishTable(table, id, outcome) == table
  {
  }

  lemma {:induction false} StatesIs(rows: Rows)
    ensures States(rows).Keys == rows.Keys
  {
  }

  // --- The table, newest first ---

  /** All ids, descending: `ORDER BY id DESC`. */
  ghost predicate NewestFirst(rows: Rows, js: seq<nat>)
  {
    && (forall i, k :: 0 <= i < k < |js| ==> js[i] > js[k])
    && (forall id: nat :: id in js <==> id in rows)
  }

  method Insert(js: seq<nat>, id: nat) returns (r: seq<nat>)
    requires (forall i, k :: 0 <= i < k < |js| ==> js[i] > js[k]) && id !in js
    ensures forall i, k :: 0 <= i < k < |r| ==> r[i] > r[k]
    ensures forall x :: x in r <==> x == id || x in js
  {
    var n := 0;
    while n < |js| && js[n] > id
      invariant 0 <= n <= |js| && forall i :: 0 <= i < n ==> js[i] > id
    {
      n := n + 1;
    }
    assert n < |js| ==> js[n] in js;
    r := js[..n] + [id] + js[n..];
    InsertedDescends(js, id, n);
  }

  lemma {:induction false} InsertedDescends(js: seq<nat>, id: nat, n: nat)
    requires n <= |js| && forall i, k :: 0 <= i < k < |js| ==> js[i] > js[k]
    requires (forall i :: 0 <= i < n ==> js[i] > id) && (n < |js| ==> js[n] < id)
    ensures var r := js[..n] + [id] + js[n..];
      (forall i, k :: 0 <= i < k < |r| ==> r[i] > r[k]) && forall x :: x in r <==> x == id || x in js
  {
    var r := js[..n] + [id] + js[n..];
    assert forall i :: 0 <= i < |r| ==> r[i] == if i < n then js[i] else if i == n then id else js[i - 1];
    assert js == js[..n] + js[n..];
  }

  class App {
    var rows: Rows

    constructor ()
      ensures rows == map[]
    {
      rows := map[];
    }

    /** `jobs`. */
    method Jobs() returns (js: seq<nat>)
      ensures NewestFirst(rows, js)
    {
      js := [];
      var left := rows.Keys;
      while left != {}
        invariant left <= rows.Keys
        invariant forall i, k :: 0 <= i < k < |js| ==> js[i] > js[k]
        invariant forall id: nat :: id in js <==> id in rows && id !in left
        decreases left
      {
        var id :| id in left;
        js := Insert(js, id);
        left := left - {id};
      }
    }

    /** The section of `submit` that queues a job. */
    method Submit(id: nat, iso: bool)
      requires id !in rows
      modifies this
      ensures rows == old(rows)[id := Row(Queued, iso, [], false, false)]
    {
      rows := rows[id := Row(Queued, iso, [], false, false)];
    }

    /** The section of `worker` that picks a job; None if there is none to run. `enough` is whether there is storage
        to start one, `saved` whether the database takes the row. */
    method PickNext(enough: bool, saved: bool) returns (next: Option<nat>)
      modifies this
      ensures SameButStates(old(rows), rows)
      ensures next.Some? ==> IsNext(States(old(rows)), next.value)
      ensures States(rows) == if next.Some? && States(old(rows))[next.value].Queued?
                            then States(old(rows))[next.value := Starting]
                            else States(old(rows))
      ensures next.None? ==> forall id :: id in old(rows) ==>
        Terminal(old(rows)[id].state) || (old(rows)[id].state.Queued? && !(enough && saved))
    {
      ghost var table := States(rows);
      var js := Jobs();
      next := Oldest(js, false);
      if next.None? {
        next := Oldest(js, true);
      }
      if next.Some? && rows[next.value].state.Queued? {
        if !enough {
          next := None;
        } else if !saved {
          next := None;
        } else {
          rows := rows[next.value := rows[next.value].(state := Starting)];
          assert States(rows) == table[next.value := Starting];
        }
      }
    }

    /** The last of `js` that is queued, or that is active. */
    method Oldest(js: seq<nat>, queued: bool) returns (next: Option<nat>)
      requires NewestFirst(rows, js)
      ensures next.Some? ==> next.value in rows && Wanted(rows[next.value].state, queued)
      ensures next.Some? ==> forall id :: id in rows && Wanted(rows[id].state, queued) ==> next.value <= id
      ensures next.None? ==> forall id :: id in rows ==> !Wanted(rows[id].state, queued)
    {
      var i := |js|;
      while i > 0
        invariant 0 <= i <= |js|
        invariant forall k :: i <= k < |js| ==> js[k] in rows && !Wanted(rows[js[k]].state, queued)
      {
        i := i - 1;
        assert js[i] in js;
        if Wanted(rows[js[i]].state, queued) {
          forall id | id in rows && Wanted(rows[id].state, queued)
            ensures js[i] <= id
          {
            assert id in js;
          }
          return Some(js[i]);
        }
      }
      forall id | id in rows
        ensures !Wanted(rows[id].state, queued)
      {
        assert id in js;
      }
      return None;
    }

    /** `cancel`. */
    method Cancel(id: nat, saved: bool)
      modifies this
      ensures SameButStates(old(rows), rows)
      ensures States(rows) == if saved then CancelTable(States(old(rows)), id) else States(old(rows))
    {
      if id !in rows {
        return;
      }
      var j := rows[id];
      StatesUpdate(rows, id, if j.state.Queued? then Cancelled else Cancelling);
      if Terminal(j.state) {
        return;
      }
      hide States;
      if j.state.Queued? {
        j := j.(state := Cancelled);
      } else {
        j := j.(state := Cancelling);
      }
      if saved {
        rows := rows[id := j];
      }
    }

    /** The section of `run` that declares the job running; `ok` is whether `run` goes on. */
    method MarkRunning(id: nat, saved: bool) returns (ok: bool)
      modifies this
      ensures SameButStates(old(rows), rows)
      ensures States(rows) == if ok then MarkTable(States(old(rows)), id) else States(old(rows))
      ensures ok <==> id in old(rows) && (old(rows)[id].state.Cancelling? || saved)
    {
      if id !in rows {
        return false;
      }
      if !rows[id].state.Cancelling? {
        if !saved {
          return false;
        }
        StatesUpdate(rows, id, Running);
        hide States;
        rows := rows[id := rows[id].(state := Running)];
      }
      return true;
    }

    /** `finish`. */
    method Finish(id: nat, outcome: State, artifacts: seq<string>, saved: bool, held: set<nat>, failing: set<nat>)
      modifies this
      ensures States(rows) == if saved then FinishTable(States(old(rows)), id, outcome) else States(old(rows))
      ensures rows ==
        if id !in old(rows) then old(rows)
        else Pruned(if saved then Ended(old(rows), id, outcome, artifacts) else old(rows), held + failing)
    {
      hide *;
      StatesIs(rows);
      FinishTableIs(States(rows), id, outcome);
      if id !in rows {
        return;
      }
      EndedIs(rows, id, outcome, artifacts);
      var latest := rows[id];
      var state := if latest.state.Cancelling? then Cancelled else outcome;
      if saved {
        rows := rows[id := latest.(state := state, artifacts := artifacts)];
      }
      PruneSpares(rows, held + failing, id);
      PruneLocked(held, failing);
    }

    /** `pruneLocked`; `held` are the builds being booted, `failing` those of which a file cannot be removed or the
        row not saved. */
    method PruneLocked(held: set<nat>, failing: set<nat>)
      modifies this
      ensures rows == Pruned(old(rows), held + failing)
    {
      hide *;
      ghost var rows0, spared := rows, held + failing;
      var js := Jobs();
      var window: map<bool, nat> := map[];
      NothingPruned(rows0, spared, js);
      for i := 0 to |js|
        invariant PrunedTo(rows0, rows, spared, js, i, window)
      {
        PrunedNext(rows0, rows, spared, js, i, window);
        var j := rows[js[i]];
        if j.state.Succeeded? && !j.pruned && j.artifacts != [] {
          var kind := j.iso;
          window := window[kind := (if kind in window then window[kind] else 0) + 1];
          if window[kind] > KEEP_BUILDS && !j.favorite && js[i] !in held {
            if js[i] !in failing {
              rows := rows[js[i] := Emptied(j)];
            }
          }
        }
      }
      AllPruned(rows0, rows, spared, js, window);
    }

    /** `setFavorite`; the answer is the HTTP status. `saved` is whether the database takes the row, `found` whether
        it is read back afterwards. */
    method SetFavorite(id: nat, on: bool, saved: bool, found: bool, held: set<nat>, failing: set<nat>)
      returns (status: nat)
      modifies this
      ensures status ==
        if id !in old(rows) then 404
        else if on && (old(rows)[id].pruned || !old(rows)[id].state.Succeeded?) then 409
        else if saved && found then 200 else 500
      ensures rows ==
        if status == 200 || (status == 500 && saved) then Pruned(old(rows)[id := old(rows)[id].(favorite := on)],
                                                                 held + failing)
        else old(rows)
    {
      if id !in rows {
        return 404;
      }
      var j := rows[id];
      if on && j.pruned {
        return 409;
      }
      if on && !j.state.Succeeded? {
        return 409;
      }
      if !saved {
        return 500;
      }
      rows := rows[id := j.(favorite := on)];
      PruneLocked(held, failing);
      return if found then 200 else 500;
    }
  }

  predicate Wanted(state: State, queued: bool)
  {
    if queued then state.Queued? else Active(state)
  }

  /** The builds of class `c` among `ids` that hold artifacts. */
  ghost function Before(rows: Rows, ids: seq<nat>, c: bool): set<nat>
  {
    set k | k in ids && k in rows && Holding(rows[k]) && rows[k].iso == c
  }

  lemma {:induction false} BeforeSnoc(rows: Rows, ids: seq<nat>, x: nat, c: bool)
    requires x !in ids && x in rows
    ensures |Before(rows, ids + [x], c)| == |Before(rows, ids, c)| + if Holding(rows[x]) && rows[x].iso == c then 1 else 0
  {
    assert x !in Before(rows, ids, c);
    assert Before(rows, ids + [x], c) ==
           Before(rows, ids, c) + if Holding(rows[x]) && rows[x].iso == c then {x} else {};
  }

  lemma {:induction false} BeforeStep(rows: Rows, js: seq<nat>, i: nat)
    requires NewestFirst(rows, js) && i < |js|
    ensures js[i] in rows
    ensures forall c :: |Before(rows, js[..i + 1], c)| == |Before(rows, js[..i], c)| + if Holding(rows[js[i]]) && rows[js[i]].iso == c then 1 else 0
  {
    hide Before, Holding;
    assert js[i] in js;
    assert js[..i + 1] == js[..i] + [js[i]];
    BeforeSnoc(rows, js[..i], js[i], true);
    BeforeSnoc(rows, js[..i], js[i], false);
  }

  lemma {:induction false} RankIs(rows: Rows, js: seq<nat>, i: nat)
    requires NewestFirst(rows, js) && i < |js|
    ensures js[i] in rows && NoOlder(rows, js[i]) == Before(rows, js[..i + 1], rows[js[i]].iso)
  {
    assert js[i] in js;
    var upTo := js[..i + 1];
    forall k | k in NoOlder(rows, js[i])
      ensures k in upTo
    {
      assert k in js;
      var m :| 0 <= m < |js| && js[m] == k;
      assert upTo[m] == k;
    }
    assert forall m :: 0 <= m < |upTo| ==> upTo[m] == js[m] && js[m] >= js[i];
  }

  /** Whether build `js[i]` is to be reclaimed, by its rank in the window of its class. */
  lemma {:induction false} PrunedAt(rows: Rows, held: set<nat>, js: seq<nat>, i: nat)
    requires NewestFirst(rows, js) && i < |js|
    ensures js[i] in rows
    ensures Pruned(rows, held)[js[i]] ==
      var j := rows[js[i]];
      if Holding(j) && |Before(rows, js[..i + 1], j.iso)| > KEEP_BUILDS && !j.favorite && js[i] !in held then Emptied(j) else j
  {
    RankIs(rows, js, i);
  }

  /** The builds before the `i`-th have been looked at, and counted by class. */
  ghost predicate PrunedTo(rows0: Rows, rows: Rows, spared: set<nat>, js: seq<nat>, i: nat, window: map<bool, nat>)
  {
    && NewestFirst(rows0, js) && i <= |js| && rows.Keys == rows0.Keys
    && (forall k :: 0 <= k < i ==> js[k] in rows0 && rows[js[k]] == Pruned(rows0, spared)[js[k]])
    && (forall k :: i <= k < |js| ==> js[k] in rows0 && rows[js[k]] == rows0[js[k]])
    && (forall c :: (if c in window then window[c] else 0) == |Before(rows0, js[..i], c)|)
  }

  lemma {:induction false} NothingPruned(rows: Rows, spared: set<nat>, js: seq<nat>)
    requires NewestFirst(rows, js)
    ensures PrunedTo(rows, rows, spared, js, 0, map[])
  {
    NewestFirstIs(rows, js);
    NoneBefore(rows);
    assert js[..0] == [];
    assert forall k :: 0 <= k < |js| ==> js[k] in js;
  }

  /** What the loop makes of the `i`-th build. */
  lemma {:induction false} PrunedNext(rows0: Rows, rows: Rows, spared: set<nat>, js: seq<nat>, i: nat,
                                      window: map<bool, nat>)
    requires PrunedTo(rows0, rows, spared, js, i, window) && i < |js|
    ensures js[i] in rows
    ensures var j := rows[js[i]];
      var window' := window[j.iso := (if j.iso in window then window[j.iso] else 0) + 1];
      if j.state.Succeeded? && !j.pruned && j.artifacts != [] then
        PrunedTo(rows0,
                 if window'[j.iso] > KEEP_BUILDS && !j.favorite && js[i] !in spared then rows[js[i] := Emptied(j)]
                 else rows,
                 spared, js, i + 1, window')
      else PrunedTo(rows0, rows, spared, js, i + 1, window)
  {
    hide Pruned, Before, NewestFirst;
    NewestFirstIs(rows0, js);
    BeforeStep(rows0, js, i);
    PrunedAt(rows0, spared, js, i);
  }

  lemma {:induction false} AllPruned(rows0: Rows, rows: Rows, spared: set<nat>, js: seq<nat>, window: map<bool, nat>)
    requires PrunedTo(rows0, rows, spared, js, |js|, window)
    ensures rows == Pruned(rows0, spared)
  {
    hide Pruned, Before;
    forall id | id in rows0
      ensures rows[id] == Pruned(rows0, spared)[id]
    {
      assert id in js;
    }
  }

  lemma {:induction false} NewestFirstIs(rows: Rows, js: seq<nat>)
    ensures NewestFirst(rows, js) <==>
      && (forall i, k :: 0 <= i < k < |js| ==> js[i] > js[k])
      && (forall id: nat :: id in js <==> id in rows)
  {
  }

  lemma {:induction false} NoneBefore(rows: Rows)
    ensures forall c :: Before(rows, [], c) == {}
  {
  }
}
