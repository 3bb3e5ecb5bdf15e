/** How `events` of webui/runner.go streams a log to a client. */
module LogStream {
  import opened Wrappers
  import opened Bytes
  import opened BuildQueue
  import opened Utf8

  /** The size of `buf`. */
  const BUFFER: nat := 16384

  /** A log event: the offset after it, and the text that the bytes before that offset were turned into. */
  datatype Event = Event(id: nat, text: seq<nat>)

  datatype ReaderPhase = Reading | AtEnd | SawTerminal | Done

  /** A client of `events`: the open file as it sees it, from where it reads, how far it is, and what it was sent. */
  datatype Reader = Reader(id: nat, start: nat, offset: nat, phase: ReaderPhase, file: seq<byte>, sent: seq<Event>)

  /** A read gives at most `n` bytes, and at most a buffer full. */
  datatype ReaderAction = ReadChunk(n: nat) | AskState | CheckSize

  function Follow(r: Reader, s: Sys): Reader
  {
    if r.id in s.worlds then r.(file := s.worlds[r.id].log) else r
  }

  /** A step of the loop of `events`. */
  function Stream(r: Reader, s: Sys, a: ReaderAction): Reader
  {
    match (r.phase, a)
    case (Reading, ReadChunk(n)) =>
      if r.offset < |r.file| && n > 0 then
        var stop := Min(r.offset + Min(n, BUFFER), |r.file|);
        r.(sent := r.sent + [Event(stop, Text(r.file[r.offset..stop]))], offset := stop)
      else if r.offset >= |r.file| then r.(phase := AtEnd)
      else r
    case (AtEnd, AskState) =>
      if r.id in s.table && Terminal(s.table[r.id]) then r.(phase := SawTerminal) else r.(phase := Reading)
    case (SawTerminal, CheckSize) => if |r.file| > r.offset then r.(phase := Reading) else r.(phase := Done)
    case _ => r
  }

  /** Where the `k`-th event begins: where the one before ended. */
  function Begin(start: nat, sent: seq<Event>, k: nat): nat
    requires k <= |sent|
  {
    if k == 0 then start else sent[k - 1].id
  }

  /** The `k`-th event has the text of the bytes of its range, which is neither empty nor larger than the buffer. */
  ghost predicate Covers(start: nat, sent: seq<Event>, file: seq<byte>, k: nat)
  {
    && k < |sent|
    && Begin(start, sent, k) < sent[k].id <= |file| && sent[k].id - Begin(start, sent, k) <= BUFFER
    && sent[k].text == Text(file[Begin(start, sent, k)..sent[k].id])
  }

  /** The events sent follow each other from the start to the offset without gap or overlap; once the job was seen to be
      over, the file is final. */
  ghost predicate ReaderOk(r: Reader, s: Sys)
  {
    && r.start <= r.offset == Begin(r.start, r.sent, |r.sent|) <= |r.file|
    && (forall k :: 0 <= k < |r.sent| ==> Covers(r.start, r.sent, r.file, k))
    && (r.id in s.worlds ==> r.file == s.worlds[r.id].log)
    && (r.phase.SawTerminal? || r.phase.Done? ==> r.id !in s.worlds || (r.id in s.table && Terminal(s.table[r.id])))
    && (r.phase.Done? ==> r.offset == |r.file|)
  }

  /** `events` on a job that exists, from an offset that the file has. */
  lemma {:induction false} StreamStarts(s: Sys, id: nat, start: nat)
    requires Inv(s) && id in s.table && start <= |WorldOf(s, id).log|
    ensures ReaderOk(Reader(id, start, start, Reading, WorldOf(s, id).log, []), s)
  {
  }

  lemma {:induction false} StreamKeeps(r: Reader, s: Sys, a: ReaderAction)
    requires Inv(s) && ReaderOk(r, s)
    ensures ReaderOk(Stream(r, s, a), s)
  {
    hide Inv, Text;
    var r' := Stream(r, s, a);
    forall k | 0 <= k < |r'.sent|
      ensures Covers(r'.start, r'.sent, r'.file, k)
    {
      if k < |r.sent| {
        assert Covers(r.start, r.sent, r.file, k);
      }
    }
  }

  lemma {:induction false} FollowKeeps(r: Reader, s: Sys, a: Action)
    requires Inv(s) && ReaderOk(r, s) && (r.id !in s.worlds ==> r.id !in Do(s, a).worlds)
    ensures ReaderOk(Follow(r, Do(s, a)), Do(s, a))
  {
    hide Do, Inv, Text, Covers;
    var s' := Do(s, a);
    var r' := Follow(r, s');
    if r.id in s.worlds && r.id in s'.worlds {
      LogGrows(s, a, r.id);
      CoversMore(r.start, r.sent, r.file, r'.file);
    }
  }

  /** A client gets on: while there is more in the file every read of the loop sends some of it, and once it has all of
      the log of a job that is over, three steps later it is told so. */
  lemma {:induction false} GetsOn(r: Reader, s: Sys, n: nat)
    requires r.phase.Reading?
    ensures r.offset < |r.file| && n > 0 ==>
      var r' := Stream(r, s, ReadChunk(n));
      r'.phase.Reading? && r'.offset == Min(r.offset + Min(n, 16384), |r.file|) > r.offset && |r'.sent| == |r.sent| + 1
    ensures r.offset >= |r.file| && r.id in s.table && Terminal(s.table[r.id]) ==>
      Stream(Stream(Stream(r, s, ReadChunk(n)), s, AskState), s, CheckSize) == r.(phase := Done)
  {
    hide Text;
  }

  /** A file that grows has the same ranges. */
  lemma {:induction false} CoversMore(start: nat, sent: seq<Event>, file: seq<byte>, file': seq<byte>)
    requires file <= file' && forall k :: 0 <= k < |sent| ==> Covers(start, sent, file, k)
    ensures forall k :: 0 <= k < |sent| ==> Covers(start, sent, file', k)
  {
    hide Text;
    assert file'[..|file|] == file;
    forall k | 0 <= k < |sent|
      ensures Covers(start, sent, file', k)
    {
      assert Covers(start, sent, file, k);
      var from, to := Begin(start, sent, k), sent[k].id;
      assert file'[from..to] == file'[..|file|][from..to];
    }
  }

  /** When `done` is sent everything from the start on has been covered, and that is the whole log of a job that is
      over. */
  lemma {:induction false} DoneIsComplete(r: Reader, s: Sys)
    requires Inv(s) && ReaderOk(r, s) && r.phase.Done?
    ensures r.offset == |r.file|
    ensures r.id in s.table ==>
      Terminal(s.table[r.id]) && r.file == WorldOf(s, r.id).log && (s.table[r.id].Succeeded? ==> r.file == WorldOf(s, r.id).output)
  {
    if r.id in s.table {
      assert JobOk(s, r.id);
    }
  }

  // --- What the client makes of it ---

  /** The texts of the events, one after the other. */
  function Received(sent: seq<Event>): seq<nat>
  {
    if sent == [] then [] else Received(sent[..|sent| - 1]) + sent[|sent| - 1].text
  }

  /** Every event had whole characters only. */
  ghost predicate WholeCharacters(start: nat, sent: seq<Event>, file: seq<byte>)
  {
    forall k :: 0 <= k < |sent| ==> WholeEvent(start, sent, file, k)
  }

  ghost predicate WholeEvent(start: nat, sent: seq<Event>, file: seq<byte>, k: nat)
  {
    k < |sent| && Begin(start, sent, k) <= sent[k].id <= |file| && WellFormed(file[Begin(start, sent, k)..sent[k].id])
  }

  /** The client's text is the log. */
  ghost predicate Right(r: Reader)
  {
    r.start <= r.offset <= |r.file| && EncodedText(Received(r.sent)) == r.file[r.start..r.offset]
  }

  /** The text that the client has is the log up to the offset exactly if the range of every event is well-formed by
      itself. */
  lemma {:induction false} RightExactly(r: Reader, s: Sys)
    requires ReaderOk(r, s)
    ensures Right(r) <==> WholeCharacters(r.start, r.sent, r.file)
  {
    ReceivedIs(r.start, r.sent, r.file);
  }

  lemma {:induction false} ReceivedIs(start: nat, sent: seq<Event>, file: seq<byte>)
    requires start <= |file| && forall k :: 0 <= k < |sent| ==> Covers(start, sent, file, k)
    ensures start <= Begin(start, sent, |sent|) <= |file|
    ensures var n, to := |EncodedText(Received(sent))|, Begin(start, sent, |sent|);
      && n >= to - start
      && (n == to - start <==> WholeCharacters(start, sent, file))
      && (WholeCharacters(start, sent, file) ==> EncodedText(Received(sent)) == file[start..to])
    decreases |sent|
  {
    hide *;
    if sent == [] {
      NothingReceived(start, file);
    } else {
      var n := |sent| - 1;
      var front := sent[..n];
      CoversFront(start, sent, file);
      ReceivedIs(start, front, file);
      WholeSnoc(start, sent, file);
      var from, to := Begin(start, sent, n), sent[n].id;
      TextIsLonger(file[from..to]);
      EncodedJoin(Received(front), sent[n].text);
      assert file[start..to] == file[start..from] + file[from..to];
    }
  }

  lemma {:induction false} NothingReceived(start: nat, file: seq<byte>)
    ensures Received([]) == [] && EncodedText([]) == []
    ensures Begin(start, [], 0) == start && WholeCharacters(start, [], file)
  {
  }

  lemma {:induction false} CoversFront(start: nat, sent: seq<Event>, file: seq<byte>)
    requires sent != [] && forall k :: 0 <= k < |sent| ==> Covers(start, sent, file, k)
    ensures var n := |sent| - 1;
      && (forall k :: 0 <= k < n ==> Covers(start, sent[..n], file, k))
      && Begin(start, sent, n + 1) == sent[n].id && Begin(start, sent[..n], n) == Begin(start, sent, n) < sent[n].id <= |file|
      && Received(sent) == Received(sent[..n]) + sent[n].text && sent[n].text == Text(file[Begin(start, sent, n)..sent[n].id])
      && (WholeEvent(start, sent, file, n) <==> WellFormed(file[Begin(start, sent, n)..sent[n].id]))
  {
    hide Text, WellFormed;
    var n := |sent| - 1;
    assert Covers(start, sent, file, n);
    forall k | 0 <= k < n
      ensures Covers(start, sent[..n], file, k)
    {
      assert Covers(start, sent, file, k);
    }
  }

  lemma {:induction false} WholeSnoc(start: nat, sent: seq<Event>, file: seq<byte>)
    requires sent != []
    ensures var n := |sent| - 1;
      WholeCharacters(start, sent, file) <==> WholeCharacters(start, sent[..n], file) && WholeEvent(start, sent, file, n)
  {
    var n := |sent| - 1;
    forall k | 0 <= k < n
      ensures WholeEvent(start, sent[..n], file, k) <==> WholeEvent(start, sent, file, k)
    {
      assert Begin(start, sent[..n], k) == Begin(start, sent, k);
    }
  }

  /** An ASCII log arrives right however it is read. */
  lemma {:induction false} AsciiIsRight(r: Reader, s: Sys)
    requires ReaderOk(r, s) && r.start <= |r.file| && Ascii(r.file[r.start..])
    ensures Right(r)
  {
    RightExactly(r, s);
    forall k | 0 <= k < |r.sent|
      ensures WholeEvent(r.start, r.sent, r.file, k)
    {
      assert Covers(r.start, r.sent, r.file, k);
      BeginsLater(r, s, k);
      AsciiRange(r.file, r.start, Begin(r.start, r.sent, k), r.sent[k].id);
    }
  }

  lemma {:induction false} AsciiRange(file: seq<byte>, start: nat, from: nat, to: nat)
    requires start <= from <= to <= |file| && Ascii(file[start..])
    ensures WellFormed(file[from..to])
  {
    hide WellFormed;
    assert forall j :: from <= j < to ==> file[j] == file[start..][j - start];
    AsciiIsWellFormed(file[from..to]);
  }

  lemma {:induction false} BeginsLater(r: Reader, s: Sys, k: nat)
    requires ReaderOk(r, s) && k < |r.sent|
    ensures r.start <= Begin(r.start, r.sent, k)
    decreases k
  {
    if k > 0 {
      BeginsLater(r, s, k - 1);
      assert Covers(r.start, r.sent, r.file, k - 1);
    }
  }

  /** Reads of the given sizes. */
  ghost function Reads(r: Reader, s: Sys, sizes: seq<nat>): Reader
  {
    if sizes == [] then r else Stream(Reads(r, s, sizes[..|sizes| - 1]), s, ReadChunk(sizes[|sizes| - 1]))
  }

  lemma {:induction false} ReadsKeep(r: Reader, s: Sys, sizes: seq<nat>)
    requires Inv(s) && ReaderOk(r, s)
    ensures var r' := Reads(r, s, sizes);
      ReaderOk(r', s) && r'.file == r.file && r'.start == r.start && r'.id == r.id
    decreases |sizes|
  {
    if sizes != [] {
      hide Inv, ReaderOk;
      ReadsKeep(r, s, sizes[..|sizes| - 1]);
      StreamKeeps(Reads(r, s, sizes[..|sizes| - 1]), s, ReadChunk(sizes[|sizes| - 1]));
    }
  }

  function Ones(n: nat): (ones: seq<nat>)
    ensures |ones| == n && forall k :: 0 <= k < n ==> ones[k] == 1
  {
    seq(n, _ => 1)
  }

  /** Reading byte by byte. */
  lemma {:induction false} ByteByByte(r: Reader, s: Sys, n: nat)
    requires Inv(s) && ReaderOk(r, s) && r.phase.Reading? && r.offset + n <= |r.file|
    ensures var r' := Reads(r, s, Ones(n));
      r'.offset == r.offset + n && r'.phase.Reading? && |r'.sent| == |r.sent| + n
    decreases n
  {
    if n > 0 {
      assert Ones(n)[..n - 1] == Ones(n - 1);
      hide Inv, ReaderOk;
      ByteByByte(r, s, n - 1);
      ReadsKeep(r, s, Ones(n - 1));
    }
  }

  /** Whatever the sizes of the reads, the client has the right text: that is so exactly if the log from the start on
      is ASCII. */
  lemma {:induction false} AnyTiming(r: Reader, s: Sys)
    requires Inv(s) && ReaderOk(r, s) && r.phase.Reading? && r.sent == []
    ensures (forall sizes: seq<nat> :: Right(Reads(r, s, sizes))) <==> Ascii(r.file[r.start..])
  {
    if Ascii(r.file[r.start..]) {
      forall sizes: seq<nat>
        ensures Right(Reads(r, s, sizes))
      {
        ReadsKeep(r, s, sizes);
        AsciiIsRight(Reads(r, s, sizes), s);
      }
    } else {
      var k :| 0 <= k < |r.file[r.start..]| && r.file[r.start..][k] >= 0x80;
      var r' := Reads(r, s, Ones(k + 1));
      ReadsKeep(r, s, Ones(k));
      ReadsKeep(r, s, Ones(k + 1));
      ByteByByte(r, s, k);
      ByteByByte(r, s, k + 1);
      assert Ones(k + 1)[..k] == Ones(k);
      RightExactly(r', s);
      LastByteAlone(r', s);
    }
  }

  lemma {:induction false} LastByteAlone(r: Reader, s: Sys)
    requires ReaderOk(r, s) && r.sent != []
    requires Begin(r.start, r.sent, |r.sent| - 1) == r.offset - 1 && r.file[r.offset - 1] >= 0x80
    ensures !WholeCharacters(r.start, r.sent, r.file)
  {
    var n := |r.sent| - 1;
    assert r.file[r.offset - 1..r.offset] == [r.file[r.offset - 1]];
    LoneByte(r.file[r.offset - 1]);
    assert !WholeEvent(r.start, r.sent, r.file, n);
  }

  /** "é" read in two halves reaches the client as two replacement characters, with offsets that look right. */
  lemma {:induction false} SplitCharacter(s: Sys)
    ensures var r := Reader(0, 0, 0, Reading, [0xC3, 0xA9], []);
      var halves, whole := Reads(r, s, [1, 1]), Reads(r, s, [2]);
      && halves.sent == [Event(1, [REPLACEMENT]), Event(2, [REPLACEMENT])] && halves.offset == 2
      && whole.sent == [Event(2, [0xE9])] && whole.offset == 2
  {
    var r := Reader(0, 0, 0, Reading, [0xC3, 0xA9], []);
    assert [1, 1][..1] == [1] && [1][..0] == [] && [2][..0] == [];
    assert Reads(r, s, []) == r;
    assert r.file[0..1] == [0xC3] && r.file[1..2] == [0xA9] && r.file[0..2] == [0xC3, 0xA9];
    TextOfHalves();
    hide Text;
    var r1 := Stream(r, s, ReadChunk(1));
    assert r1 == r.(sent := [Event(1, [REPLACEMENT])], offset := 1);
    assert Reads(r, s, [1]) == r1 && Reads(r, s, [1, 1]) == Stream(r1, s, ReadChunk(1));
    assert Reads(r, s, [2]) == Stream(r, s, ReadChunk(2));
  }

  lemma {:induction false} TextOfHalves()
    ensures Text([0xC3]) == [REPLACEMENT] && Text([0xA9]) == [REPLACEMENT] && Text([0xC3, 0xA9]) == [0xE9]
  {
    var a: seq<byte>, b: seq<byte>, c: seq<byte> := [0xC3], [0xA9], [0xC3, 0xA9];
    assert a[1..] == [] && b[1..] == [] && c[2..] == [];
    assert Size(a) == 0 && Size(b) == 0 && Size(c) == 2 && Code(c) == 0xE9;
    assert Text([]) == [];
  }

  // --- Whole runs ---

  /** Anything that may happen while a client reads a log. */
  datatype Move = Elsewhere(a: Action) | Client(c: ReaderAction)

  /** Where system and client are after `moves`. */
  ghost function WatchLog(s: Sys, r: Reader, moves: seq<Move>): (Sys, Reader)
  {
    if moves == [] then (s, r)
    else
      var (s1, r1) := WatchLog(s, r, moves[..|moves| - 1]);
      match moves[|moves| - 1]
      case Elsewhere(a) => (Do(s1, a), Follow(r1, Do(s1, a)))
      case Client(c) => (s1, Stream(r1, s1, c))
  }

  ghost predicate NotResubmitted(id: nat, moves: seq<Move>)
  {
    forall k :: 0 <= k < |moves| ==> moves[k] != Elsewhere(Submit(id))
  }

  lemma {:induction false} WatchKeeps(s: Sys, r: Reader, moves: seq<Move>)
    requires Inv(s) && ReaderOk(r, s) && NotResubmitted(r.id, moves)
    ensures var (s', r') := WatchLog(s, r, moves);
      Inv(s') && ReaderOk(r', s') && r'.id == r.id && r'.start == r.start
    decreases |moves|
  {
    if moves != [] {
      var front, last := moves[..|moves| - 1], moves[|moves| - 1];
      var (s1, r1) := WatchLog(s, r, front);
      hide Do, Inv, ReaderOk;
      WatchKeeps(s, r, front);
      match last
      case Elsewhere(a) =>
        DoKeeps(s1, a);
        if r1.id !in s1.worlds {
          StaysDeleted(s1, a, r1.id);
        }
        FollowKeeps(r1, s1, a);
      case Client(c) =>
        StreamKeeps(r1, s1, c);
    }
  }

  /** Whatever happens while a client reads, restarts included, the ranges of the events sent follow each other from
      the asked offset on; what the client has is the log so far exactly if each range was well-formed UTF-8 by
      itself, and so always if the log is ASCII. Once it was told that the job is done, the ranges reach to the end
      of the log, which has all that the container of a successful job printed. */
  lemma {:induction false} StreamedWhole(actions: seq<Action>, id: nat, start: nat, moves: seq<Move>)
    requires id in After(actions).table && start <= |WorldOf(After(actions), id).log| && NotResubmitted(id, moves)
    ensures var s := After(actions);
      var (s', r) := WatchLog(s, Reader(id, start, start, Reading, WorldOf(s, id).log, []), moves);
      && start == r.start <= r.offset == Begin(start, r.sent, |r.sent|) <= |r.file| && (id in s'.worlds ==> r.file == WorldOf(s', id).log)
      && (forall k :: 0 <= k < |r.sent| ==> Covers(start, r.sent, r.file, k))
      && (Right(r) <==> WholeCharacters(start, r.sent, r.file))
      && (Ascii(r.file[start..]) ==> Right(r))
      && (r.phase.Done? ==> r.offset == |r.file|)
      && (r.phase.Done? && id in s'.table ==> Terminal(s'.table[id]) && r.file == WorldOf(s', id).log)
      && (r.phase.Done? && id in s'.table && s'.table[id].Succeeded? ==> r.file == WorldOf(s', id).output)
  {
    var s := After(actions);
    var r := Reader(id, start, start, Reading, WorldOf(s, id).log, []);
    Reachable(actions);
    StreamStarts(s, id, start);
    WatchKeeps(s, r, moves);
    var (s', r') := WatchLog(s, r, moves);
    hide Do, After, WatchLog, Inv, Right, WholeCharacters;
    RightExactly(r', s');
    if Ascii(r'.file[start..]) {
      AsciiIsRight(r', s');
    }
    if r'.phase.Done? {
      DoneIsComplete(r', s');
    }
  }
}
