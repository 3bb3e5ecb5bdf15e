/** The build queue of webui/runner.go as a system of steps. */
module BuildQueue {
  // The worker, the handlers, the Docker daemon, crashes and restarts are interleaved in any order. Each part that the
  // source runs under its mutex is one step.

  import opened Wrappers
  import opened Bytes

  datatype State = Queued | Starting | Running | Cancelling | Succeeded | Failed | Cancelled

  predicate Terminal(s: State) { s.Succeeded? || s.Failed? || s.Cancelled? }

  /** Neither terminal nor queued. */
  predicate Active(s: State) { s.Starting? || s.Running? || s.Cancelling? }

  /** The states of the jobs by id; ids ascend with time of submission. */
  type Table = map<nat, State>

  // --- What the mutex-protected sections do to the table ---

  /** `cancel`. */
  function CancelTable(table: Table, id: nat): Table
  {
    if id !in table || Terminal(table[id]) then table
    else table[id := if table[id].Queued? then Cancelled else Cancelling]
  }

  /** `finish`. */
  function FinishTable(table: Table, id: nat, outcome: State): Table
  {
    if id !in table then table else table[id := if table[id].Cancelling? then Cancelled else outcome]
  }

  /** The section of `run` that declares the job running. */
  function MarkTable(table: Table, id: nat): Table
  {
    if id in table && !table[id].Cancelling? then table[id := Running] else table
  }

  /** The worker's choice: the oldest active job, or else the oldest queued one. */
  ghost predicate IsNext(table: Table, id: nat)
  {
    id in table &&
    if Active(table[id]) then forall k :: k in table && Active(table[k]) ==> id <= k
    else table[id].Queued? && (forall k :: k in table ==> !Active(table[k])) && forall k :: k in table && table[k].Queued? ==> id <= k
  }

  /** What the sections do to the job they are about, and that they do nothing to others: a queued job that is cancelled
      is over and one under way will be; a job that ends ends as it did unless it was to be cancelled; a job runs unless
      it is to be cancelled. */
  lemma {:induction false} TablesExactly(table: Table, id: nat, outcome: State, other: nat)
    ensures id in table && table[id].Queued? ==> CancelTable(table, id) == table[id := Cancelled]
    ensures id in table && Active(table[id]) ==> CancelTable(table, id) == table[id := Cancelling]
    ensures id !in table || Terminal(table[id]) ==> CancelTable(table, id) == table
    ensures id in table && !table[id].Cancelling? ==>
      FinishTable(table, id, outcome) == table[id := outcome] && MarkTable(table, id) == table[id := Running]
    ensures id in table && table[id].Cancelling? ==>
      FinishTable(table, id, outcome) == table[id := Cancelled] && MarkTable(table, id) == table
    ensures id !in table ==> FinishTable(table, id, outcome) == MarkTable(table, id) == table
    ensures id in table ==>
      (Active(table[id]) <==> table[id].Starting? || table[id].Running? || table[id].Cancelling?)
      && (Terminal(table[id]) <==> table[id].Succeeded? || table[id].Failed? || table[id].Cancelled?)
  {
  }

  // --- The system ---

  /** The container of a job, as `docker inspect` tells it. */
  datatype Box = Missing | Created | Up | Exited(code: int)

  /** A container, all it has printed, and the job's log file. */
  datatype World = World(box: Box, output: seq<byte>, log: seq<byte>)

  /** Where the worker is in `run`; `local` and `current` are states it read and that may be out of date. */
  datatype Phase =
    | Inspect(local: State)
    | Launching
    | Recheck
    | Start
    | Mark
    | Watch
    | Seen(current: State)
    | Gone(current: State, code: int)
    | Finish(outcome: State)

  datatype Worker = Down | Idle | Busy(id: nat, phase: Phase)

  /** The goroutine of `captureLogs`: before it has opened the file; with the size that it found in it, which it
      drops from the container's log, and how much of that log it was given; and whether it succeeded. */
  datatype Capture = NoCapture | Opening | Copying(skip: nat, pos: nat) | Copied(ok: bool)

  datatype Sys = Sys(table: Table, worlds: map<nat, World>, worker: Worker, capture: Capture)

  datatype Action =
    | Submit(id: nat) | Cancel(id: nat, saved: bool) | Delete(id: nat)
    | Crash | Restart
    | DaemonCreates | DaemonStarts(id: nat) | Outputs(id: nat, bytes: seq<byte>) | Exits(id: nat, code: int) | Removed(id: nat)
    | Pick(id: nat, saved: bool)
    | Inspected(unknown: bool) | Launched(ok: bool) | Rechecked(unknown: bool) | Started(ok: bool) | Marked(saved: bool)
    | Read | Looked(unknown: bool) | Decide(collected: bool) | Finishes(saved: bool)
    | OpensLog(ok: bool) | Copy(n: nat) | CaptureEnds(ok: bool)

  function WorldOf(s: Sys, id: nat): World
  {
    if id in s.worlds then s.worlds[id] else World(Missing, [], [])
  }

  function WithBox(s: Sys, id: nat, box: Box): Sys
  {
    if id in s.worlds then s.(worlds := s.worlds[id := s.worlds[id].(box := box)]) else s
  }

  /** The handlers, the process, and the daemon with what it runs. */
  function Around(s: Sys, a: Action): Sys
  {
    match a
    case Submit(id) =>
      if id in s.table || id in s.worlds then s
      else s.(table := s.table[id := Queued], worlds := s.worlds[id := World(Missing, [], [])])
    case Cancel(id, saved) =>
      if saved then s.(table := CancelTable(s.table, id)) else s
    case Delete(id) =>
      if id in s.table && Terminal(s.table[id]) && !WorldOf(s, id).box.Up? then s.(table := s.table - {id}, worlds := s.worlds - {id}) else s
    case Crash => s.(worker := Down, capture := NoCapture)
    case Restart => if s.worker.Down? then s.(worker := Idle) else s
    case DaemonCreates =>
      if s.worker.Busy? && s.worker.phase.Launching? && WorldOf(s, s.worker.id).box.Missing? && s.worker.id in s.worlds
      then s.(worlds := s.worlds[s.worker.id := World(Created, [], s.worlds[s.worker.id].log)]) else s
    case DaemonStarts(id) => if WorldOf(s, id).box.Created? then WithBox(s, id, Up) else s
    case Outputs(id, bytes) =>
      if id in s.worlds && s.worlds[id].box.Up? then s.(worlds := s.worlds[id := s.worlds[id].(output := s.worlds[id].output + bytes)]) else s
    case Exits(id, code) => if WorldOf(s, id).box.Up? then WithBox(s, id, Exited(code)) else s
    case Removed(id) => WithBox(s, id, Missing)
    case _ => s
  }

  /** `captureLogs`. Docker replays the container's log from its beginning: the bytes that the file already had are read
      and dropped, and those after them are appended to the file. Docker ends the stream well only once the container
      prints no more and all of it was given; the end is an error if it comes before everything that was in the file. */
  function Capturing(s: Sys, a: Action): Sys
  {
    if !s.worker.Busy? || s.worker.id !in s.worlds then s
    else
      var id, w := s.worker.id, s.worlds[s.worker.id];
      match (s.capture, a)
      case (Opening, OpensLog(ok)) => s.(capture := if ok then Copying(|w.log|, 0) else Copied(false))
      case (Copying(skip, pos), Copy(n)) =>
        var next := Min(pos + n, |w.output|);
        s.(capture := Copying(skip, Max(pos, next)),
           worlds := if Max(skip, pos) < next then s.worlds[id := w.(log := w.log + w.output[Max(skip, pos)..next])]
                     else s.worlds)
      case (Copying(skip, pos), CaptureEnds(ok)) =>
        if !ok then s.(capture := Copied(false))
        else if !w.box.Up? && !w.box.Created? && pos == |w.output| then s.(capture := Copied(pos >= skip))
        else s
      case _ => s
  }

  function Goto(s: Sys, phase: Phase): Sys
  {
    if s.worker.Busy? then s.(worker := Busy(s.worker.id, phase)) else s
  }

  /** The worker. */
  ghost function Working(s: Sys, a: Action): Sys
  {
    match s.worker
    case Down => s
    case Idle =>
      if a.Pick? && IsNext(s.table, a.id) then
        if !s.table[a.id].Queued? then s.(worker := Busy(a.id, Inspect(s.table[a.id])))
        else if a.saved then s.(table := s.table[a.id := Starting], worker := Busy(a.id, Inspect(Starting)))
        else s
      else s
    case Busy(id, phase) =>
      var box := WorldOf(s, id).box;
      match (phase, a)
      case (Inspect(local), Inspected(unknown)) =>
        if unknown then s.(worker := Idle)
        else if box.Missing? then
          if local.Cancelling? then Goto(s, Finish(Cancelled))
          else if !local.Starting? then Goto(s, Finish(Failed))
          else Goto(s, Launching)
        else if box.Created? then Goto(s, Start)
        else Goto(s, Mark)
      case (Launching, Launched(ok)) => Goto(s, if ok then Mark else Recheck)
      case (Recheck, Rechecked(unknown)) =>
        if unknown then s.(worker := Idle) else if box.Missing? then Goto(s, Finish(Failed)) else Goto(s, Mark)
      case (Start, Started(ok)) =>
        Goto(s, if ok then Mark else Finish(Failed))
      case (Mark, Marked(saved)) =>
        if id in s.table && !s.table[id].Cancelling? && !saved then s.(worker := Idle)
        else Goto(s, Watch).(table := MarkTable(s.table, id), capture := Opening)
      case (Watch, Read) => if id in s.table then Goto(s, Seen(s.table[id])) else s
      case (Seen(current), Looked(unknown)) =>
        if unknown || box.Up? || box.Created? then Goto(s, Watch)
        else if box.Missing? then Goto(s, Finish(Failed)).(capture := NoCapture)
        else Goto(s, Gone(current, box.code))
      case (Gone(current, code), Decide(collected)) =>
        if !s.capture.Copied? then s
        else
          var outcome := if current.Cancelling? then Cancelled
                         else if code != 0 || !s.capture.ok || !collected then Failed else Succeeded;
          Goto(s, Finish(outcome)).(capture := NoCapture)
      case (Finish(outcome), Finishes(saved)) =>
        s.(worker := Idle, table := if saved then FinishTable(s.table, id, outcome) else s.table)
      case _ => s
  }

  ghost function Do(s: Sys, a: Action): Sys
  {
    match a
    case Submit(_) => Around(s, a)
    case Cancel(_, _) => Around(s, a)
    case Delete(_) => Around(s, a)
    case Crash => Around(s, a)
    case Restart => Around(s, a)
    case DaemonCreates => Around(s, a)
    case DaemonStarts(_) => Around(s, a)
    case Outputs(_, _) => Around(s, a)
    case Exits(_, _) => Around(s, a)
    case Removed(_) => Around(s, a)
    case OpensLog(_) => Capturing(s, a)
    case Copy(_) => Capturing(s, a)
    case CaptureEnds(_) => Capturing(s, a)
    case _ => Working(s, a)
  }

  const INITIAL: Sys := Sys(map[], map[], Down, NoCapture)

  // --- The invariant ---

  ghost predicate OneActive(table: Table)
  {
    forall j, k :: j in table && k in table && Active(table[j]) && Active(table[k]) ==> j == k
  }

  /** What holds of job `id` whoever is at work. */
  ghost predicate JobOk(s: Sys, id: nat)
  {
    && id in s.worlds
    && (!Over(s.worlds[id]) ==> id in s.table && !s.table[id].Queued?)
    && s.worlds[id].log <= s.worlds[id].output
    && (id in s.table && (s.table[id].Queued? || s.table[id].Starting?) ==> s.worlds[id].log == [])
    && (id in s.table && s.table[id].Succeeded? ==> EndedWell(s.worlds[id]) && s.worlds[id].log == s.worlds[id].output)
  }

  /** The container exited with 0, and may have been removed since. */
  predicate EndedWell(w: World) { w.box.Missing? || w.box == Exited(0) }

  /** The container prints no more. */
  predicate Over(w: World) { !w.box.Up? && !w.box.Created? }

  ghost predicate PhaseOk(state: State, w: World, phase: Phase)
  {
    match phase
    case Inspect(local) => Active(local) && (local == state || state.Cancelling?) && (local.Starting? ==> w.log == [])
    case Launching => w.log == []
    case Recheck => w.log == []
    case Start => true
    case Mark => true
    case Watch => !state.Starting?
    case Seen(current) => !state.Starting? && Active(current) && (current.Cancelling? ==> state.Cancelling?)
    case Gone(current, code) => !state.Starting? && Active(current) && (current.Cancelling? ==> state.Cancelling?)
                                  && (w.box.Missing? || w.box == Exited(code))
    case Finish(outcome) => Terminal(outcome) && (outcome.Succeeded? ==> EndedWell(w) && w.log == w.output)
  }

  ghost predicate CaptureOk(w: World, phase: Phase, capture: Capture)
  {
    && (!capture.NoCapture? ==> phase.Watch? || phase.Seen? || phase.Gone?)
    && (capture.Copying? ==>
          capture.skip <= |w.output| && capture.pos <= |w.output| && w.log == w.output[..Max(capture.skip, capture.pos)])
    && (capture.Copied? && capture.ok ==> w.log == w.output && Over(w))
  }

  ghost predicate WorkerOk(s: Sys)
  {
    match s.worker
    case Busy(id, phase) =>
      && id in s.table && Active(s.table[id]) && id in s.worlds
      && PhaseOk(s.table[id], s.worlds[id], phase) && CaptureOk(s.worlds[id], phase, s.capture)
    case _ => s.capture.NoCapture?
  }

  ghost predicate Inv(s: Sys)
  {
    && s.table.Keys <= s.worlds.Keys
    && OneActive(s.table)
    && (forall id :: id in s.worlds ==> JobOk(s, id))
    && WorkerOk(s)
  }

  lemma {:induction false} InvInitial()
    ensures Inv(INITIAL)
  {
  }

  /** A change of container `id` alone. */
  lemma {:induction false} WorldKeeps(s: Sys, s': Sys, id: nat, w: World)
    requires Inv(s) && id in s.worlds && s' == s.(worlds := s.worlds[id := w])
    requires w.log <= w.output && (!Over(w) ==> id in s.table && !s.table[id].Queued?)
    requires id in s.table && (s.table[id].Queued? || s.table[id].Starting?) ==> w.log == []
    requires id in s.table && s.table[id].Succeeded? ==> EndedWell(w) && w.log == w.output
    requires s.worker.Busy? && s.worker.id == id ==>
      PhaseOk(s.table[id], w, s.worker.phase) && CaptureOk(w, s.worker.phase, s.capture)
    ensures Inv(s')
  {
    hide PhaseOk, CaptureOk;
    forall k | k in s'.worlds
      ensures JobOk(s', k)
    {
      assert JobOk(s, k);
    }
  }

  lemma {:induction false} DaemonKeeps(s: Sys, a: Action)
    requires Inv(s) && (a.DaemonCreates? || a.DaemonStarts? || a.Outputs? || a.Exits? || a.Removed?)
    ensures Inv(Around(s, a))
  {
    var id := if a.DaemonCreates? then (if s.worker.Busy? then s.worker.id else 0)
              else if a.Outputs? then a.id else if a.Exits? then a.id else if a.DaemonStarts? then a.id else a.id;
    if id in s.worlds {
      assert JobOk(s, id);
      var w := s.worlds[id];
      if Around(s, a) != s {
        WorldKeeps(s, Around(s, a), id, Around(s, a).worlds[id]);
      }
    }
  }

  lemma {:induction false} ProcessKeeps(s: Sys, a: Action)
    requires Inv(s) && (a.Crash? || a.Restart?)
    ensures Inv(Around(s, a))
  {
    WorkerKeeps(s, Around(s, a));
  }

  lemma {:induction false} SubmitKeeps(s: Sys, a: Action)
    requires Inv(s) && a.Submit?
    ensures Inv(Around(s, a))
  {
    var s' := Around(s, a);
    hide PhaseOk, CaptureOk;
    forall id | id in s'.worlds
      ensures JobOk(s', id)
    {
      assert id in s.worlds ==> JobOk(s, id);
    }
  }

  lemma {:induction false} CancelKeeps(s: Sys, a: Action)
    requires Inv(s) && a.Cancel?
    ensures Inv(Around(s, a))
  {
    var s', id := Around(s, a), a.id;
    if s' != s {
      assert JobOk(s, id);
      TableKeeps(s, s', id, if s.table[id].Queued? then Cancelled else Cancelling);
    }
  }

  lemma {:induction false} DeleteKeeps(s: Sys, a: Action)
    requires Inv(s) && a.Delete?
    ensures Inv(Around(s, a))
  {
    var s' := Around(s, a);
    hide PhaseOk, CaptureOk;
    forall id | id in s'.worlds
      ensures JobOk(s', id)
    {
      assert JobOk(s, id);
    }
  }

  lemma {:induction false} AroundKeeps(s: Sys, a: Action)
    requires Inv(s)
    ensures Inv(Around(s, a))
  {
    hide Inv;
    if a.DaemonCreates? || a.DaemonStarts? || a.Outputs? || a.Exits? || a.Removed? {
      DaemonKeeps(s, a);
    } else if a.Submit? {
      SubmitKeeps(s, a);
    } else if a.Cancel? {
      CancelKeeps(s, a);
    } else if a.Delete? {
      DeleteKeeps(s, a);
    } else if a.Crash? || a.Restart? {
      ProcessKeeps(s, a);
    }
  }

  /** A change of state of job `id` alone. */
  lemma {:induction false} TableKeeps(s: Sys, s': Sys, id: nat, state: State)
    requires Inv(s) && id in s.table && s'.worlds == s.worlds && s'.table == s.table[id := state] && WorkerOk(s')
    requires Active(state) && !Active(s.table[id]) ==> forall k :: k in s.table ==> !Active(s.table[k])
    requires !state.Queued? && (state.Starting? ==> WorldOf(s, id).log == [])
    requires state.Succeeded? ==> EndedWell(WorldOf(s, id)) && WorldOf(s, id).log == WorldOf(s, id).output
    ensures Inv(s')
  {
    hide WorkerOk;
    forall k | k in s'.worlds
      ensures JobOk(s', k)
    {
      assert JobOk(s, k);
    }
  }

  lemma {:induction false} WorkerKeeps(s: Sys, s': Sys)
    requires Inv(s) && s'.worlds == s.worlds && s'.table == s.table && WorkerOk(s')
    ensures Inv(s')
  {
    hide WorkerOk;
    forall k | k in s'.worlds
      ensures JobOk(s', k)
    {
      assert JobOk(s, k);
    }
  }

  lemma {:induction false} CapturingKeeps(s: Sys, a: Action)
    requires Inv(s)
    ensures Inv(Capturing(s, a))
  {
    if s.worker.Busy? && s.worker.id in s.worlds {
      if a.Copy? && s.capture.Copying? {
        CopyKeeps(s, a.n);
      } else {
        assert JobOk(s, s.worker.id);
        WorkerKeeps(s, Capturing(s, a));
      }
    }
  }

  /** What a copy appends continues the file, however much of the output had been copied before. */
  lemma {:induction false} CopyKeeps(s: Sys, n: nat)
    requires Inv(s) && s.worker.Busy? && s.capture.Copying?
    ensures Inv(Capturing(s, Copy(n)))
  {
    hide *;
    var id := s.worker.id;
    CopyingIs(s);
    CopyIs(s, n);
    var w, skip, pos := s.worlds[id], s.capture.skip, s.capture.pos;
    var next := Min(pos + n, |w.output|);
    MinIs(pos + n, |w.output|);
    MaxIs(pos, next);
    var w' := if Max(skip, pos) < next then w.(log := w.log + w.output[Max(skip, pos)..next]) else w;
    AppendedIs(w.log, w.output, skip, pos, next);
    var s1 := s.(capture := Copying(skip, Max(pos, next)));
    CopiedKeeps(s, s1, w');
  }

  lemma {:induction false} CopyIs(s: Sys, n: nat)
    requires s.worker.Busy? && s.capture.Copying? && s.worker.id in s.worlds
    ensures var w, skip, pos := s.worlds[s.worker.id], s.capture.skip, s.capture.pos;
      var next := Min(pos + n, |w.output|);
      && 0 <= Max(skip, pos) && 0 <= next && 0 <= Max(pos, next)
      && Capturing(s, Copy(n)) == s.(
           capture := Copying(skip, Max(pos, next)),
           worlds := s.worlds[s.worker.id := if Max(skip, pos) < next then w.(log := w.log + w.output[Max(skip, pos)..next]) else w])
  {
    var w := s.worlds[s.worker.id];
    assert s.worlds == s.worlds[s.worker.id := w];
  }

  lemma {:induction false} CopyingIs(s: Sys)
    requires Inv(s) && s.worker.Busy? && s.capture.Copying?
    ensures s.worker.id in s.worlds
    ensures var w := s.worlds[s.worker.id];
      && s.capture.skip <= |w.output| && s.capture.pos <= |w.output| && w.log == w.output[..Max(s.capture.skip, s.capture.pos)]
  {
  }

  lemma {:induction false} AppendedIs(log: seq<byte>, output: seq<byte>, skip: nat, pos: nat, next: nat)
    requires skip <= |output| && pos <= |output| && next <= |output| && log == output[..Max(skip, pos)]
    ensures (if Max(skip, pos) < next then log + output[Max(skip, pos)..next] else log) == output[..Max(skip, Max(pos, next))]
  {
  }

  lemma {:induction false} CopiedKeeps(s: Sys, s1: Sys, w: World)
    requires Inv(s) && s.worker.Busy? && s.capture.Copying? && s1 == s.(capture := s1.capture) && s1.capture.Copying?
    requires s.worker.id in s.worlds && w == s.worlds[s.worker.id].(log := w.log)
    requires s1.capture.skip <= |w.output| && s1.capture.pos <= |w.output|
    requires w.log == w.output[..Max(s1.capture.skip, s1.capture.pos)]
    ensures Inv(s1.(worlds := s.worlds[s.worker.id := w]))
  {
    var s' := s1.(worlds := s.worlds[s.worker.id := w]);
    assert JobOk(s, s.worker.id);
    assert w.log <= w.output;
    forall k | k in s'.worlds
      ensures JobOk(s', k)
    {
      assert JobOk(s, k);
    }
  }

  lemma {:induction false} PickKeeps(s: Sys, a: Action)
    requires Inv(s) && s.worker.Idle?
    ensures Inv(Working(s, a))
  {
    if a.Pick? && IsNext(s.table, a.id) {
      assert JobOk(s, a.id);
      if !s.table[a.id].Queued? {
        WorkerKeeps(s, Working(s, a));
      } else if a.saved {
        TableKeeps(s, Working(s, a), a.id, Starting);
      }
    }
  }

  lemma {:induction false} MarkKeeps(s: Sys, saved: bool)
    requires Inv(s) && s.worker.Busy? && s.worker.phase.Mark?
    ensures Inv(Working(s, Marked(saved)))
  {
    var id, s' := s.worker.id, Working(s, Marked(saved));
    assert JobOk(s, id);
    if !s.table[id].Cancelling? && saved {
      TableKeeps(s, s', id, Running);
    } else {
      WorkerKeeps(s, s');
    }
  }

  lemma {:induction false} FinishKeeps(s: Sys, saved: bool)
    requires Inv(s) && s.worker.Busy? && s.worker.phase.Finish?
    ensures Inv(Working(s, Finishes(saved)))
  {
    var id, s' := s.worker.id, Working(s, Finishes(saved));
    assert JobOk(s, id);
    if saved {
      TableKeeps(s, s', id, if s.table[id].Cancelling? then Cancelled else s.worker.phase.outcome);
    } else {
      WorkerKeeps(s, s');
    }
  }

  /** The steps of `run` that leave the table alone. */
  lemma {:induction false} RunKeeps(s: Sys, a: Action)
    requires Inv(s) && s.worker.Busy? && !a.Marked? && !a.Finishes?
    ensures Inv(Working(s, a))
  {
    hide IsNext;
    assert JobOk(s, s.worker.id);
    WorkerKeeps(s, Working(s, a));
  }

  lemma {:induction false} WorkingKeeps(s: Sys, a: Action)
    requires Inv(s)
    ensures Inv(Working(s, a))
  {
    if s.worker.Idle? {
      PickKeeps(s, a);
    } else if s.worker.Busy? {
      if !a.Marked? && !a.Finishes? {
        RunKeeps(s, a);
      } else if s.worker.phase.Mark? && a.Marked? {
        MarkKeeps(s, a.saved);
      } else if s.worker.phase.Finish? && a.Finishes? {
        FinishKeeps(s, a.saved);
      } else {
        hide Inv;
        assert Working(s, a) == s;
      }
    }
  }

  /** Every step of anybody keeps the invariant. */
  lemma {:induction false} DoKeeps(s: Sys, a: Action)
    requires Inv(s)
    ensures Inv(Do(s, a))
  {
    hide Inv, Around, Capturing, Working;
    AroundKeeps(s, a);
    CapturingKeeps(s, a);
    WorkingKeeps(s, a);
  }

  // --- Safety over all runs ---

  /** The states that a sequence of actions leads through. */
  ghost function After(actions: seq<Action>): Sys
  {
    if actions == [] then INITIAL else Do(After(actions[..|actions| - 1]), actions[|actions| - 1])
  }

  lemma {:induction false} Reachable(actions: seq<Action>)
    ensures Inv(After(actions))
    decreases |actions|
  {
    hide Inv, Do;
    if actions == [] {
      InvInitial();
    } else {
      Reachable(actions[..|actions| - 1]);
      DoKeeps(After(actions[..|actions| - 1]), actions[|actions| - 1]);
    }
  }

  /** In every reachable state at most one job is under way, the log file is a prefix of what the container printed,
      and the container of a job that succeeded exited with 0 and its file has all that it printed. */
  lemma {:induction false} Safe(actions: seq<Action>, id: nat, other: nat)
    ensures var s := After(actions);
      && (id in s.table && other in s.table && Active(s.table[id]) && Active(s.table[other]) ==> id == other)
      && WorldOf(s, id).log <= WorldOf(s, id).output
      && (id in s.table && s.table[id].Succeeded? ==>
            && (WorldOf(s, id).box.Missing? || WorldOf(s, id).box == Exited(0))
            && WorldOf(s, id).log == WorldOf(s, id).output)
  {
    Reachable(actions);
    var s := After(actions);
    if id in s.worlds {
      assert JobOk(s, id);
    }
  }

  /** While the log is copied, over any number of restarts, the file has what Docker has given so far, or what it had
      when it was opened if that is more: nothing is written twice and nothing is left out. */
  lemma {:induction false} ResumedLog(actions: seq<Action>)
    ensures var s := After(actions);
      s.capture.Copying? ==>
        && s.worker.Busy? && s.capture.skip <= |WorldOf(s, s.worker.id).output| && s.capture.pos <= |WorldOf(s, s.worker.id).output|
        && WorldOf(s, s.worker.id).log == WorldOf(s, s.worker.id).output[..Max(s.capture.skip, s.capture.pos)]
  {
    Reachable(actions);
  }

  /** A container runs only for the job under way. */
  ghost predicate RunsForActive(s: Sys)
  {
    forall id :: id in s.worlds && s.worlds[id].box.Up? ==> id in s.table && Active(s.table[id])
  }

  /** The steps that leave a container running for a job that is over: the daemon starts it then, or the job is declared
      finished while it runs. */
  ghost predicate Strays(s: Sys, a: Action)
  {
    match a
    case DaemonStarts(id) => WorldOf(s, id).box.Created? && !(id in s.table && Active(s.table[id]))
    case Finishes(saved) => saved && s.worker.Busy? && s.worker.phase.Finish? && WorldOf(s, s.worker.id).box.Up?
    case _ => false
  }

  /** One step keeps containers to the job under way exactly if it is not one of these. */
  lemma {:induction false} StrayStep(s: Sys, a: Action)
    requires Inv(s) && RunsForActive(s)
    ensures RunsForActive(Do(s, a)) <==> !Strays(s, a)
  {
    var s' := Do(s, a);
    if Strays(s, a) {
      var id := if a.DaemonStarts? then a.id else s.worker.id;
      assert id in s'.worlds && s'.worlds[id].box.Up? && !(id in s'.table && Active(s'.table[id]));
    } else {
      forall id | id in s'.worlds && s'.worlds[id].box.Up?
        ensures id in s'.table && Active(s'.table[id])
      {
        StepRuns(s, a, id);
      }
    }
  }

  lemma {:induction false} StepRuns(s: Sys, a: Action, id: nat)
    requires Inv(s) && RunsForActive(s) && !Strays(s, a)
    requires id in Do(s, a).worlds && Do(s, a).worlds[id].box.Up?
    ensures id in Do(s, a).table && Active(Do(s, a).table[id])
  {
    hide *;
    DoIs(s, a);
    if Do(s, a) == Around(s, a) {
      AroundRuns(s, a, id);
    } else if Do(s, a) == Capturing(s, a) {
      CapturingRuns(s, a, id);
    } else {
      WorkingRuns(s, a, id);
    }
  }

  lemma {:induction false} DoIs(s: Sys, a: Action)
    ensures Do(s, a) == Around(s, a) || Do(s, a) == Capturing(s, a) || Do(s, a) == Working(s, a)
  {
    hide Around, Capturing, Working;
  }

  lemma {:induction false} AroundRuns(s: Sys, a: Action, id: nat)
    requires RunsForActive(s) && !Strays(s, a) && id in Around(s, a).worlds && Around(s, a).worlds[id].box.Up?
    ensures id in Around(s, a).table && Active(Around(s, a).table[id])
  {
  }

  lemma {:induction false} CapturingRuns(s: Sys, a: Action, id: nat)
    requires RunsForActive(s) && id in Capturing(s, a).worlds && Capturing(s, a).worlds[id].box.Up?
    ensures id in Capturing(s, a).table && Active(Capturing(s, a).table[id])
  {
    assert id in s.worlds && s.worlds[id].box.Up?;
  }

  lemma {:induction false} WorkingRuns(s: Sys, a: Action, id: nat)
    requires Inv(s) && RunsForActive(s) && !Strays(s, a)
    requires id in Working(s, a).worlds && Working(s, a).worlds[id].box.Up?
    ensures id in Working(s, a).table && Active(Working(s, a).table[id])
  {
    hide IsNext, OneActive, JobOk, CaptureOk, PhaseOk;
    assert Working(s, a).worlds == s.worlds;
  }

  /** In every state of the run containers run only for the job under way. */
  ghost predicate AlwaysForActive(actions: seq<Action>)
  {
    forall k :: 0 <= k <= |actions| ==> RunsForActive(After(actions[..k]))
  }

  /** No step of the run leaves a container running for a job that is over. */
  ghost predicate NeverStrays(actions: seq<Action>)
  {
    forall k :: 0 <= k < |actions| ==> !Strays(After(actions[..k]), actions[k])
  }

  /** The one holds exactly if the other does. */
  lemma {:induction false} RunsExactly(actions: seq<Action>)
    ensures AlwaysForActive(actions) <==> NeverStrays(actions)
    decreases |actions|
  {
    hide *;
    if actions == [] {
      RunsInitially();
    } else {
      var n := |actions| - 1;
      var front := actions[..n];
      RunsExactly(front);
      Reachable(front);
      AlwaysSnoc(actions);
      NeverSnoc(actions);
      AfterSnoc(actions);
      AlwaysLast(front);
      if RunsForActive(After(front)) {
        StrayStep(After(front), actions[n]);
      }
    }
  }

  lemma {:induction false} AfterSnoc(actions: seq<Action>)
    requires actions != []
    ensures After(actions) == Do(After(actions[..|actions| - 1]), actions[|actions| - 1])
  {
  }

  lemma {:induction false} AlwaysLast(actions: seq<Action>)
    ensures AlwaysForActive(actions) ==> RunsForActive(After(actions))
  {
    assert actions[..|actions|] == actions;
  }

  lemma {:induction false} AlwaysSnoc(actions: seq<Action>)
    requires actions != []
    ensures AlwaysForActive(actions) <==> AlwaysForActive(actions[..|actions| - 1]) && RunsForActive(After(actions))
  {
    hide RunsForActive, After;
    var n := |actions| - 1;
    assert actions[..n + 1] == actions;
    assert forall k :: 0 <= k <= n ==> actions[..n][..k] == actions[..k];
  }

  lemma {:induction false} NeverSnoc(actions: seq<Action>)
    requires actions != []
    ensures var n := |actions| - 1;
      NeverStrays(actions) <==> NeverStrays(actions[..n]) && !Strays(After(actions[..n]), actions[n])
  {
    hide Strays, After;
    var n := |actions| - 1;
    assert forall k :: 0 <= k < n ==> actions[..n][..k] == actions[..k] && actions[..n][k] == actions[k];
  }

  lemma {:induction false} RunsInitially()
    ensures AlwaysForActive([]) && NeverStrays([])
  {
    assert After([]) == INITIAL;
  }

  /** When a job is declared finished while its container runs, its `docker start` was reported as failed: of the
      ways to that phase only this one leaves the container able to run. */
  lemma {:induction false} StrayAfterFailedStart(s: Sys, a: Action)
    requires Inv(s) && s.worker.Busy? && !s.worker.phase.Finish?
    requires Do(s, a).worker.Busy? && Do(s, a).worker.phase.Finish?
    ensures !Over(WorldOf(s, s.worker.id)) ==>
      a == Started(false) && s.worker.phase.Start? && Do(s, a).worker.phase == Finish(Failed)
  {
    hide IsNext, OneActive, JobOk;
  }

  /** After a `docker start` that is reported as failed, and the job declared failed, containers are kept to the job
      under way exactly if the container had not come up all the same. */
  lemma {:induction false} FailedStartStrays(s: Sys)
    requires Inv(s) && RunsForActive(s) && s.worker.Busy? && s.worker.phase.Start?
    ensures RunsForActive(Do(Do(s, Started(false)), Finishes(true))) <==> !WorldOf(s, s.worker.id).box.Up?
  {
    var s1 := Do(s, Started(false));
    assert s1 == s.(worker := Busy(s.worker.id, Finish(Failed)));
    DoKeeps(s, Started(false));
    StrayStep(s, Started(false));
    StrayStep(s1, Finishes(true));
    hide Do, RunsForActive, Inv;
  }

  // --- A run that succeeds ---

  /** A job whose container prints `bytes`, with a crash after `n` of them were copied. */
  function GoodRun(bytes: seq<byte>, n: nat, code: int): seq<Action>
  {
    [Restart, Submit(0), Pick(0, true), Inspected(false), DaemonCreates, DaemonStarts(0), Launched(true), Marked(true),
     OpensLog(true), Outputs(0, bytes), Copy(n), Crash, Restart, Pick(0, true), Inspected(false), Marked(true),
     OpensLog(true), Copy(|bytes|), Exits(0, code), CaptureEnds(true), Read, Looked(false), Decide(true), Finishes(true)]
  }

  /** The states that this run leads through. */
  function GoodStage(bytes: seq<byte>, n: nat, code: int, k: nat): Sys
    requires n <= |bytes|
  {
    var none, made := map[0 := World(Missing, [], [])], map[0 := World(Created, [], [])];
    var up, part, whole := map[0 := World(Up, bytes, [])], map[0 := World(Up, bytes, bytes[..n])], map[0 := World(Up, bytes, bytes)];
    var gone := map[0 := World(Exited(code), bytes, bytes)];
    var starting, running := map[0 := Starting], map[0 := Running];
    var outcome := if code == 0 then Succeeded else Failed;
    if k == 0 then INITIAL
    else if k == 1 then Sys(map[], map[], Idle, NoCapture)
    else if k == 2 then Sys(map[0 := Queued], none, Idle, NoCapture)
    else if k == 3 then Sys(starting, none, Busy(0, Inspect(Starting)), NoCapture)
    else if k == 4 then Sys(starting, none, Busy(0, Launching), NoCapture)
    else if k == 5 then Sys(starting, made, Busy(0, Launching), NoCapture)
    else if k == 6 then Sys(starting, map[0 := World(Up, [], [])], Busy(0, Launching), NoCapture)
    else if k == 7 then Sys(starting, map[0 := World(Up, [], [])], Busy(0, Mark), NoCapture)
    else if k == 8 then Sys(running, map[0 := World(Up, [], [])], Busy(0, Watch), Opening)
    else if k == 9 then Sys(running, map[0 := World(Up, [], [])], Busy(0, Watch), Copying(0, 0))
    else if k == 10 then Sys(running, up, Busy(0, Watch), Copying(0, 0))
    else if k == 11 then Sys(running, part, Busy(0, Watch), Copying(0, n))
    else if k == 12 then Sys(running, part, Down, NoCapture)
    else if k == 13 then Sys(running, part, Idle, NoCapture)
    else if k == 14 then Sys(running, part, Busy(0, Inspect(Running)), NoCapture)
    else if k == 15 then Sys(running, part, Busy(0, Mark), NoCapture)
    else if k == 16 then Sys(running, part, Busy(0, Watch), Opening)
    else if k == 17 then Sys(running, part, Busy(0, Watch), Copying(n, 0))
    else if k == 18 then Sys(running, whole, Busy(0, Watch), Copying(n, |bytes|))
    else if k == 19 then Sys(running, gone, Busy(0, Watch), Copying(n, |bytes|))
    else if k == 20 then Sys(running, gone, Busy(0, Watch), Copied(true))
    else if k == 21 then Sys(running, gone, Busy(0, Seen(Running)), Copied(true))
    else if k == 22 then Sys(running, gone, Busy(0, Gone(Running, code)), Copied(true))
    else if k == 23 then Sys(running, gone, Busy(0, Finish(outcome)), NoCapture)
    else Sys(map[0 := outcome], gone, Idle, NoCapture)
  }

  lemma {:induction false} GoodStart(bytes: seq<byte>, n: nat, code: int, k: nat)
    requires n <= |bytes| && k < 4
    ensures Do(GoodStage(bytes, n, code, k), GoodRun(bytes, n, code)[k]) == GoodStage(bytes, n, code, k + 1)
  {
    hide Capturing;
  }

  lemma {:induction false} GoodLaunch(bytes: seq<byte>, n: nat, code: int, k: nat)
    requires n <= |bytes| && 4 <= k < 8
    ensures Do(GoodStage(bytes, n, code, k), GoodRun(bytes, n, code)[k]) == GoodStage(bytes, n, code, k + 1)
  {
    hide Capturing;
  }

  lemma {:induction false} GoodCopy(bytes: seq<byte>, n: nat, code: int, k: nat)
    requires n <= |bytes| && 8 <= k < 10
    ensures Do(GoodStage(bytes, n, code, k), GoodRun(bytes, n, code)[k]) == GoodStage(bytes, n, code, k + 1)
  {
    hide Working;
    assert [] + bytes == bytes;
  }

  lemma {:induction false} GoodHalf(bytes: seq<byte>, n: nat, code: int, k: nat)
    requires n <= |bytes| && 10 <= k < 11
    ensures Do(GoodStage(bytes, n, code, k), GoodRun(bytes, n, code)[k]) == GoodStage(bytes, n, code, k + 1)
  {
    hide Working;
    assert [] + bytes[0..n] == bytes[..n];
    assert n == 0 ==> bytes[..n] == [];
  }

  lemma {:induction false} GoodRestart(bytes: seq<byte>, n: nat, code: int, k: nat)
    requires n <= |bytes| && 11 <= k < 16
    ensures Do(GoodStage(bytes, n, code, k), GoodRun(bytes, n, code)[k]) == GoodStage(bytes, n, code, k + 1)
  {
    hide Capturing;
  }

  lemma {:induction false} GoodResume(bytes: seq<byte>, n: nat, code: int, k: nat)
    requires n <= |bytes| && 16 <= k < 18
    ensures Do(GoodStage(bytes, n, code, k), GoodRun(bytes, n, code)[k]) == GoodStage(bytes, n, code, k + 1)
  {
    hide Working;
    assert bytes[..n] + bytes[n..|bytes|] == bytes;
    assert n == |bytes| ==> bytes[..n] == bytes;
  }

  lemma {:induction false} GoodExit(bytes: seq<byte>, n: nat, code: int, k: nat)
    requires n <= |bytes| && 18 <= k < 20
    ensures Do(GoodStage(bytes, n, code, k), GoodRun(bytes, n, code)[k]) == GoodStage(bytes, n, code, k + 1)
  {
    hide Working;
  }

  lemma {:induction false} GoodLook(bytes: seq<byte>, n: nat, code: int, k: nat)
    requires n <= |bytes| && 20 <= k < 22
    ensures Do(GoodStage(bytes, n, code, k), GoodRun(bytes, n, code)[k]) == GoodStage(bytes, n, code, k + 1)
  {
    hide Capturing, Around;
  }

  lemma {:induction false} GoodEnd(bytes: seq<byte>, n: nat, code: int, k: nat)
    requires n <= |bytes| && 22 <= k < 24
    ensures Do(GoodStage(bytes, n, code, k), GoodRun(bytes, n, code)[k]) == GoodStage(bytes, n, code, k + 1)
  {
    hide Capturing, Around;
  }

  lemma {:induction false} GoodStages(bytes: seq<byte>, n: nat, code: int, k: nat)
    requires n <= |bytes| && k <= 24
    ensures After(GoodRun(bytes, n, code)[..k]) == GoodStage(bytes, n, code, k)
    decreases k
  {
    hide Do, GoodStage, GoodRun, After;
    GoodRunSize(bytes, n, code);
    if k > 0 {
      var run := GoodRun(bytes, n, code);
      GoodStages(bytes, n, code, k - 1);
      AfterSnoc(run[..k]);
      assert run[..k][..k - 1] == run[..k - 1];
      if k <= 4 {
        GoodStart(bytes, n, code, k - 1);
      } else if k <= 8 {
        GoodLaunch(bytes, n, code, k - 1);
      } else if k <= 10 {
        GoodCopy(bytes, n, code, k - 1);
      } else if k <= 11 {
        GoodHalf(bytes, n, code, k - 1);
      } else if k <= 16 {
        GoodRestart(bytes, n, code, k - 1);
      } else if k <= 18 {
        GoodResume(bytes, n, code, k - 1);
      } else if k <= 20 {
        GoodExit(bytes, n, code, k - 1);
      } else if k <= 22 {
        GoodLook(bytes, n, code, k - 1);
      } else {
        GoodEnd(bytes, n, code, k - 1);
      }
    }
  }

  lemma {:induction false} GoodRunSize(bytes: seq<byte>, n: nat, code: int)
    requires n <= |bytes|
    ensures |GoodRun(bytes, n, code)| == 24 && After([]) == INITIAL == GoodStage(bytes, n, code, 0)
  {
  }

  /** A job that is left alone, but for a crash at any point of its log, ends as succeeded exactly if its container exits
      with 0, with all that it printed in its log, and the worker is free again. */
  lemma {:induction false} RunsToTheEnd(bytes: seq<byte>, n: nat, code: int)
    requires n <= |bytes|
    ensures var s := After(GoodRun(bytes, n, code));
      && s.table == map[0 := if code == 0 then Succeeded else Failed] && s.worker.Idle?
      && WorldOf(s, 0) == World(Exited(code), bytes, bytes)
  {
    hide Do, After;
    GoodRunSize(bytes, n, code);
    GoodStages(bytes, n, code, 24);
    assert GoodRun(bytes, n, code)[..24] == GoodRun(bytes, n, code);
  }

  // --- Runs without a failed `docker start` ---

  /** A container that can run or will is that of a job under way, and a job about to be declared over has none. */
  ghost predicate Clean(s: Sys)
  {
    && (forall id :: id in s.worlds && !Over(s.worlds[id]) ==> id in s.table && Active(s.table[id]))
    && (s.worker.Busy? && s.worker.phase.Finish? ==> Over(WorldOf(s, s.worker.id)))
  }

  lemma {:induction false} AroundClean(s: Sys, a: Action)
    requires Inv(s) && Clean(s)
    ensures Clean(Around(s, a))
  {
    hide Inv, Around;
    AroundEndsClean(s, a);
    forall id | id in Around(s, a).worlds && !Over(Around(s, a).worlds[id])
      ensures id in Around(s, a).table && Active(Around(s, a).table[id])
    {
      AroundActive(s, a, id);
    }
  }

  lemma {:induction false} AroundEndsClean(s: Sys, a: Action)
    requires Inv(s) && Clean(s)
    ensures var s' := Around(s, a);
      s'.worker.Busy? && s'.worker.phase.Finish? ==> Over(WorldOf(s', s'.worker.id))
  {
    hide OneActive, CaptureOk, PhaseOk, JobOk, CancelTable;
  }

  lemma {:induction false} AroundActive(s: Sys, a: Action, id: nat)
    requires Inv(s) && Clean(s) && id in Around(s, a).worlds && !Over(Around(s, a).worlds[id])
    ensures id in Around(s, a).table && Active(Around(s, a).table[id])
  {
    hide OneActive, CaptureOk, PhaseOk;
    if id in s.worlds {
      assert JobOk(s, id);
    }
  }

  lemma {:induction false} CapturingClean(s: Sys, a: Action)
    requires Clean(s)
    ensures Clean(Capturing(s, a))
  {
  }

  lemma {:induction false} WorkingClean(s: Sys, a: Action)
    requires Inv(s) && Clean(s) && a != Started(false)
    ensures Clean(Working(s, a))
  {
    hide Inv, Working;
    WorkingEndsClean(s, a);
    forall id | id in Working(s, a).worlds && !Over(Working(s, a).worlds[id])
      ensures id in Working(s, a).table && Active(Working(s, a).table[id])
    {
      WorkingActive(s, a, id);
    }
  }

  /** The worker declares a job over only when its container is. */
  lemma {:induction false} WorkingEndsClean(s: Sys, a: Action)
    requires Inv(s) && Clean(s) && a != Started(false)
    ensures var s' := Working(s, a);
      s'.worlds == s.worlds && (s'.worker.Busy? && s'.worker.phase.Finish? ==> Over(WorldOf(s', s'.worker.id)))
  {
    hide IsNext, OneActive, JobOk, CaptureOk, MarkTable, FinishTable;
  }

  lemma {:induction false} WorkingActive(s: Sys, a: Action, id: nat)
    requires Clean(s) && id in s.worlds && !Over(s.worlds[id])
    ensures id in Working(s, a).table && Active(Working(s, a).table[id])
  {
    hide IsNext;
  }

  lemma {:induction false} CleanRuns(s: Sys)
    requires Clean(s)
    ensures RunsForActive(s)
  {
  }

  /** As long as no `docker start` is reported as failed, containers run only for the job under way. */
  lemma {:induction false} NoFailedStart(actions: seq<Action>)
    requires Started(false) !in actions
    ensures AlwaysForActive(actions)
    decreases |actions|
  {
    hide *;
    CleanAfter(actions);
    CleanRuns(After(actions));
    if actions == [] {
      RunsInitially();
    } else {
      NoFailedStart(actions[..|actions| - 1]);
      AlwaysSnoc(actions);
    }
  }

  lemma {:induction false} CleanAfter(actions: seq<Action>)
    requires Started(false) !in actions
    ensures Clean(After(actions))
    decreases |actions|
  {
    hide Inv, Do, Clean;
    if actions == [] {
      CleanInitially();
    } else {
      var front, a := actions[..|actions| - 1], actions[|actions| - 1];
      CleanAfter(front);
      Reachable(front);
      DoIs(After(front), a);
      AroundClean(After(front), a);
      CapturingClean(After(front), a);
      WorkingClean(After(front), a);
    }
  }

  lemma {:induction false} CleanInitially()
    ensures Clean(INITIAL)
  {
  }

  /** A run to that failure: the server is killed between `docker create` and `docker start`; after the restart the
      daemon starts the container, `docker start` is reported as failed all the same, and the job is declared failed
      while its container runs on. */
  const STRAY_RUN: seq<Action> :=
    [Restart, Submit(0), Pick(0, true), Inspected(false), DaemonCreates, Crash, Restart, Pick(0, true), Inspected(false),
     DaemonStarts(0), Started(false), Finishes(true)]

  /** The states that this run leads through. */
  function StrayStage(k: nat): Sys
  {
    var none, made, up := map[0 := World(Missing, [], [])], map[0 := World(Created, [], [])], map[0 := World(Up, [], [])];
    var starting := map[0 := Starting];
    if k == 0 then INITIAL
    else if k == 1 then Sys(map[], map[], Idle, NoCapture)
    else if k == 2 then Sys(map[0 := Queued], none, Idle, NoCapture)
    else if k == 3 then Sys(starting, none, Busy(0, Inspect(Starting)), NoCapture)
    else if k == 4 then Sys(starting, none, Busy(0, Launching), NoCapture)
    else if k == 5 then Sys(starting, made, Busy(0, Launching), NoCapture)
    else if k == 6 then Sys(starting, made, Down, NoCapture)
    else if k == 7 then Sys(starting, made, Idle, NoCapture)
    else if k == 8 then Sys(starting, made, Busy(0, Inspect(Starting)), NoCapture)
    else if k == 9 then Sys(starting, made, Busy(0, Start), NoCapture)
    else if k == 10 then Sys(starting, up, Busy(0, Start), NoCapture)
    else if k == 11 then Sys(starting, up, Busy(0, Finish(Failed)), NoCapture)
    else Sys(map[0 := Failed], up, Idle, NoCapture)
  }

  lemma {:induction false} StrayRunStep(k: nat)
    requires k < |STRAY_RUN|
    ensures Do(StrayStage(k), STRAY_RUN[k]) == StrayStage(k + 1)
  {
    hide *;
    if k < 4 {
      StrayRunEarly(k);
    } else if k < 8 {
      StrayRunMiddle(k);
    } else {
      StrayRunLate(k);
    }
  }

  lemma {:induction false} StrayRunEarly(k: nat)
    requires k < 4
    ensures Do(StrayStage(k), STRAY_RUN[k]) == StrayStage(k + 1)
  {
    hide Capturing;
  }

  lemma {:induction false} StrayRunMiddle(k: nat)
    requires 4 <= k < 8
    ensures Do(StrayStage(k), STRAY_RUN[k]) == StrayStage(k + 1)
  {
    hide Capturing;
  }

  lemma {:induction false} StrayRunLate(k: nat)
    requires 8 <= k < |STRAY_RUN|
    ensures Do(StrayStage(k), STRAY_RUN[k]) == StrayStage(k + 1)
  {
    hide Capturing;
  }

  lemma {:induction false} StrayRunStages(k: nat)
    requires k <= |STRAY_RUN|
    ensures After(STRAY_RUN[..k]) == StrayStage(k)
    decreases k
  {
    hide Do, StrayStage;
    if k == 0 {
      StrayStarts();
    } else {
      StrayRunStages(k - 1);
      StrayRunStep(k - 1);
      assert STRAY_RUN[..k][..k - 1] == STRAY_RUN[..k - 1];
    }
  }

  lemma {:induction false} StrayStarts()
    ensures After([]) == INITIAL == StrayStage(0)
  {
  }

  lemma {:induction false} FailedStartStraysRun()
    ensures var s := After(STRAY_RUN);
      s.table == map[0 := Failed] && WorldOf(s, 0).box.Up? && !RunsForActive(s)
  {
    hide Do;
    StrayRunStages(12);
    assert STRAY_RUN[..12] == STRAY_RUN;
  }

  /** How one step may change the state of a job that stays in the table. */
  ghost predicate Allowed(before: State, after: State)
  {
    match before
    case Queued => after.Queued? || after.Starting? || after.Cancelled?
    case Starting => !after.Queued?
    case Running => !after.Queued? && !after.Starting?
    case Cancelling => after.Cancelling? || after.Cancelled?
    case _ => after == before
  }

  /** What a step from `s` to `s'` may do to job `id`. */
  ghost predicate Steady(s: Sys, s': Sys, id: nat)
  {
    && (id in s.table && id in s'.table ==> Allowed(s.table[id], s'.table[id]))
    && (id in s.worlds && id in s'.worlds ==>
          && s.worlds[id].log <= s'.worlds[id].log
          && (id in s.table && Terminal(s.table[id]) ==>
                id in s'.table && s'.table[id] == s.table[id] && s'.worlds[id].log == s.worlds[id].log))
  }

  lemma {:induction false} AroundSteady(s: Sys, a: Action, id: nat)
    requires Inv(s)
    ensures Steady(s, Around(s, a), id)
  {
    hide Inv, OneActive, WorkerOk, JobOk;
  }

  lemma {:induction false} CapturingSteady(s: Sys, a: Action, id: nat)
    requires Inv(s)
    ensures Steady(s, Capturing(s, a), id)
  {
    if id in s.worlds {
      assert JobOk(s, id);
    }
  }

  lemma {:induction false} WorkingSteady(s: Sys, a: Action, id: nat)
    requires Inv(s)
    ensures Steady(s, Working(s, a), id)
  {
    hide IsNext, OneActive, JobOk;
    if s.worker.Idle? {
      PickSteady(s, a, id);
    }
  }

  lemma {:induction false} PickSteady(s: Sys, a: Action, id: nat)
    requires s.worker.Idle?
    ensures Steady(s, Working(s, a), id)
  {
  }

  lemma {:induction false} StepSteady(s: Sys, a: Action, id: nat)
    requires Inv(s)
    ensures Steady(s, Do(s, a), id)
  {
    hide Inv, Around, Capturing, Working, Steady;
    AroundSteady(s, a, id);
    CapturingSteady(s, a, id);
    WorkingSteady(s, a, id);
  }

  lemma {:induction false} StepAllowed(s: Sys, a: Action, id: nat)
    requires Inv(s) && id in s.table && id in Do(s, a).table
    ensures Allowed(s.table[id], Do(s, a).table[id])
    ensures Terminal(s.table[id]) ==> WorldOf(Do(s, a), id).log == WorldOf(s, id).log
  {
    DoKeeps(s, a);
    hide Do;
    StepSteady(s, a, id);
  }

  /** The job is there all the time from step `from` on. */
  ghost predicate Stays(actions: seq<Action>, from: nat, id: nat)
  {
    from <= |actions| && forall k :: from <= k <= |actions| ==> id in After(actions[..k]).table
  }

  lemma {:induction false} StaysFront(actions: seq<Action>, from: nat, id: nat)
    requires Stays(actions, from, id) && from < |actions|
    ensures Stays(actions[..|actions| - 1], from, id)
  {
    var front := actions[..|actions| - 1];
    forall k | from <= k <= |front|
      ensures id in After(front[..k]).table
    {
      assert front[..k] == actions[..k];
    }
  }

  /** Terminal states are final, with the log as it is, and a job once being cancelled ends as cancelled or not at all,
      whatever its build does, across crashes and restarts. */
  lemma {:induction false} FinalStates(actions: seq<Action>, from: nat, id: nat)
    requires Stays(actions, from, id)
    ensures id in After(actions).table && id in After(actions[..from]).table
    ensures var before, after := After(actions[..from]), After(actions);
      && (Terminal(before.table[id]) ==>
            after.table[id] == before.table[id] && WorldOf(after, id).log == WorldOf(before, id).log)
      && (before.table[id].Cancelling? ==> after.table[id].Cancelling? || after.table[id].Cancelled?)
    decreases |actions|
  {
    hide Do, Inv;
    assert actions[..|actions|] == actions;
    if from < |actions| {
      var front := actions[..|actions| - 1];
      StaysFront(actions, from, id);
      FinalStates(front, from, id);
      assert front[..from] == actions[..from];
      Reachable(front);
      StepAllowed(After(front), actions[|actions| - 1], id);
    }
  }

  /** A queued job is started only if no older one is queued and none is under way. */
  lemma {:induction false} OldestFirst(s: Sys, a: Action, id: nat, other: nat)
    requires Inv(s) && id in s.table && id in Do(s, a).table && s.table[id].Queued? && Active(Do(s, a).table[id])
    ensures other in s.table && s.table[other].Queued? ==> id <= other
    ensures other in s.table ==> !Active(s.table[other])
  {
    StartIsPick(s, a, id);
  }

  /** Only the worker's choice makes a queued job active. */
  lemma {:induction false} StartIsPick(s: Sys, a: Action, id: nat)
    requires Inv(s) && id in s.table && id in Do(s, a).table && s.table[id].Queued? && Active(Do(s, a).table[id])
    ensures a == Pick(id, true) && IsNext(s.table, id)
  {
    hide IsNext, OneActive, JobOk;
  }

  // --- What a reader of the log relies on ---

  lemma {:induction false} LogGrows(s: Sys, a: Action, id: nat)
    requires Inv(s) && id in s.worlds && id in Do(s, a).worlds
    ensures s.worlds[id].log <= Do(s, a).worlds[id].log
    ensures id in s.table && Terminal(s.table[id]) ==>
      id in Do(s, a).table && Do(s, a).table[id] == s.table[id] && Do(s, a).worlds[id].log == s.worlds[id].log
  {
    hide Do;
    StepSteady(s, a, id);
  }

  lemma {:induction false} StaysDeleted(s: Sys, a: Action, id: nat)
    requires Inv(s) && id !in s.worlds && a != Submit(id)
    ensures id !in Do(s, a).worlds
  {
    hide IsNext, OneActive, JobOk, PhaseOk, CaptureOk;
  }
}
