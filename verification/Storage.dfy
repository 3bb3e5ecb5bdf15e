/** One flat space of bytes laid over the files of a torrent (wubi/src/bittorrent/Storage.py). Which files a range of
    the space touches, and what reading and writing it does to them, is said of values first; the class at the end
    has the loops. */
module FlatStorage {
  import opened Bytes

  datatype Range = Range(begin: nat, end: nat, file: string)

  /** A stretch [begin, end) of one file. */
  datatype Interval = Interval(file: string, begin: int, end: int)

  /** The ranges are nonempty, follow each other from byte 0 to `total`, and name distinct files. */
  ghost predicate Layout(ranges: seq<Range>, total: nat)
  {
    && (forall k :: 0 <= k < |ranges| ==> ranges[k].begin < ranges[k].end)
    && (forall j, k :: 0 <= j < k < |ranges| && k == j + 1 ==> ranges[j].end == ranges[k].begin)
    && (|ranges| == 0 ==> total == 0)
    && (|ranges| > 0 ==> ranges[0].begin == 0 && ranges[|ranges| - 1].end == total)
    && (forall j, k :: 0 <= j < k < |ranges| ==> ranges[j].file != ranges[k].file)
  }

  lemma {:induction false} RangesAscend(ranges: seq<Range>, total: nat, j: nat, k: nat)
    requires Layout(ranges, total) && j <= k < |ranges|
    ensures j < k ==> ranges[j].end <= ranges[k].begin
    ensures ranges[k].end <= total
    decreases |ranges| - j
  {
    if j < k {
      RangesAscend(ranges, total, j + 1, k);
    } else if k + 1 < |ranges| {
      RangesAscend(ranges, total, k + 1, |ranges| - 1);
    }
  }

  function LastAtMostIn(ranges: seq<Range>, pos: int, n: nat): (p: nat)
    requires n <= |ranges|
    ensures p <= n && (n > 0 ==> p < n)
    ensures n > 0 && ranges[0].begin <= pos ==> ranges[p].begin <= pos
    ensures p + 1 < n ==> pos < ranges[p + 1].begin
  {
    if n <= 1 then 0
    else if ranges[n - 1].begin <= pos then n - 1
    else LastAtMostIn(ranges, pos, n - 1)
  }

  /** Index of the last range that starts at or before `pos`: `bisect_right(begins, pos) - 1`. */
  function LastAtMost(ranges: seq<Range>, pos: int): (p: nat)
    ensures p <= |ranges| && (|ranges| > 0 ==> p < |ranges|)
    ensures |ranges| > 0 && ranges[0].begin <= pos ==> ranges[p].begin <= pos
    ensures p + 1 < |ranges| ==> pos < ranges[p + 1].begin
  {
    LastAtMostIn(ranges, pos, |ranges|)
  }

  lemma {:induction false} LastAtMostIs(ranges: seq<Range>, total: nat, k: nat, i: int)
    requires Layout(ranges, total) && k < |ranges| && ranges[k].begin <= i < ranges[k].end
    ensures LastAtMost(ranges, i) == k
  {
    RangesAscend(ranges, total, 0, k);
    var p := LastAtMost(ranges, i);
    if p < k {
      RangesAscend(ranges, total, p + 1, k);
    } else if k < p {
      RangesAscend(ranges, total, k, p);
    }
  }

  lemma {:induction false} LastAtMostCovers(ranges: seq<Range>, total: nat, i: nat)
    requires Layout(ranges, total) && i < total
    ensures |ranges| > 0
    ensures ranges[LastAtMost(ranges, i)].begin <= i < ranges[LastAtMost(ranges, i)].end
  {
    var p := LastAtMost(ranges, i);
    if p + 1 < |ranges| {
      assert ranges[p].end == ranges[p + 1].begin;
    }
  }

  function FileContent(disk: map<string, seq<byte>>, file: string): seq<byte>
  {
    if file in disk then disk[file] else []
  }

  /** A byte past the end of a file reads as zero: writing further on fills the gap with zeros. */
  function ByteOf(content: seq<byte>, offset: int): byte
  {
    if 0 <= offset < |content| then content[offset] else 0
  }

  ghost predicate OnDisk(ranges: seq<Range>, disk: map<string, seq<byte>>)
  {
    forall k :: 0 <= k < |ranges| ==>
      ranges[k].file in disk && |disk[ranges[k].file]| <= ranges[k].end - ranges[k].begin
  }

  /** Byte `i` of the flat space. */
  ghost function FlatByte(ranges: seq<Range>, disk: map<string, seq<byte>>, i: int): byte
  {
    var k := LastAtMost(ranges, i);
    if k < |ranges| then ByteOf(FileContent(disk, ranges[k].file), i - ranges[k].begin) else 0
  }

  /** The flat byte space that the files make up. */
  ghost function FlatOf(ranges: seq<Range>, disk: map<string, seq<byte>>, total: nat): (flat: seq<byte>)
    ensures |flat| == total
  {
    seq(total, i => FlatByte(ranges, disk, i))
  }

  /** Bytes [pos, stop) all lie inside the present contents of their files. */
  ghost predicate PresentIn(ranges: seq<Range>, disk: map<string, seq<byte>>, pos: nat, stop: nat)
  {
    pos < stop ==> forall k :: 0 <= k < |ranges| && ranges[k].begin < stop && pos < ranges[k].end ==>
      Min(ranges[k].end, stop) - ranges[k].begin <= |FileContent(disk, ranges[k].file)|
  }

  /** The part of range `r` that [pos, stop) touches, in the file's own offsets. */
  function Clip(r: Range, pos: nat, stop: nat): (iv: Interval)
  {
    Interval(r.file, Max(pos, r.begin) - r.begin, Min(r.end, stop) - r.begin)
  }

  /** The intervals of [pos, stop), from range `p` on. */
  function IntervalsFrom(ranges: seq<Range>, p: nat, pos: nat, stop: nat): (ivs: seq<Interval>)
    requires p <= |ranges|
    decreases |ranges| - p
  {
    if p < |ranges| && ranges[p].begin < stop
    then [Clip(ranges[p], pos, stop)] + IntervalsFrom(ranges, p + 1, pos, stop)
    else []
  }

  lemma {:induction false} IntervalsCons(ranges: seq<Range>, p: nat, pos: nat, stop: nat)
    requires p < |ranges| && ranges[p].begin < stop
    ensures IntervalsFrom(ranges, p, pos, stop) == [Clip(ranges[p], pos, stop)] + IntervalsFrom(ranges, p + 1, pos, stop)
    ensures Clip(ranges[p], pos, stop) ==
      Interval(ranges[p].file, Max(pos, ranges[p].begin) - ranges[p].begin, Min(ranges[p].end, stop) - ranges[p].begin)
  {
  }

  lemma {:induction false} IntervalsOneMore(ranges: seq<Range>, p: nat, pos: nat, stop: nat, r: seq<Interval>)
    requires p < |ranges| && ranges[p].begin < stop
    ensures r + IntervalsFrom(ranges, p, pos, stop) == (r + [Clip(ranges[p], pos, stop)]) + IntervalsFrom(ranges, p + 1, pos, stop)
  {
    hide *;
    IntervalsCons(ranges, p, pos, stop);
  }

  lemma {:induction false} IntervalsEnd(ranges: seq<Range>, p: nat, pos: nat, stop: nat)
    requires p <= |ranges| && (p < |ranges| ==> ranges[p].begin >= stop)
    ensures IntervalsFrom(ranges, p, pos, stop) == []
  {
  }

  /** The intervals, the first of them in range `p`, cover exactly the flat bytes [from, to), in order. */
  ghost predicate Tiles(ranges: seq<Range>, p: nat, ivs: seq<Interval>, from: int, to: int)
    decreases |ivs|
  {
    if ivs == [] then from == to
    else
      && p < |ranges|
      && ivs[0].file == ranges[p].file
      && 0 <= ivs[0].begin <= ivs[0].end <= ranges[p].end - ranges[p].begin
      && from == ranges[p].begin + ivs[0].begin
      && Tiles(ranges, p + 1, ivs[1..], ranges[p].begin + ivs[0].end, to)
  }

  lemma {:induction false} TilesFirst(ranges: seq<Range>, p: nat, ivs: seq<Interval>, from: int, to: int)
    requires Tiles(ranges, p, ivs, from, to) && ivs != []
    ensures p < |ranges| && ivs[0].file == ranges[p].file
    ensures 0 <= ivs[0].begin <= ivs[0].end <= ranges[p].end - ranges[p].begin
    ensures from == ranges[p].begin + ivs[0].begin && ranges[p].begin + ivs[0].end <= to
    ensures Tiles(ranges, p + 1, ivs[1..], ranges[p].begin + ivs[0].end, to)
  {
    TilesBounded(ranges, p + 1, ivs[1..], ranges[p].begin + ivs[0].end, to);
  }

  lemma {:induction false} TilesAt(ranges: seq<Range>, p: nat, ivs: seq<Interval>, j: nat, from: int, to: int)
    requires j < |ivs| && Tiles(ranges, p + j, ivs[j..], from, to)
    ensures p + j < |ranges| && ivs[j].file == ranges[p + j].file
    ensures 0 <= ivs[j].begin <= ivs[j].end <= ranges[p + j].end - ranges[p + j].begin
    ensures from == ranges[p + j].begin + ivs[j].begin && ranges[p + j].begin + ivs[j].end <= to
    ensures Tiles(ranges, p + j + 1, ivs[j + 1..], ranges[p + j].begin + ivs[j].end, to)
  {
    hide *;
    TilesFirst(ranges, p + j, ivs[j..], from, to);
    assert ivs[j..][1..] == ivs[j + 1..];
  }

  lemma {:induction false} TilesNone(ranges: seq<Range>, p: nat, ivs: seq<Interval>, from: int, to: int)
    requires Tiles(ranges, p, ivs, from, to) && ivs == []
    ensures from == to
  {
  }

  lemma {:induction false} TilesOfNone(ranges: seq<Range>, p: nat, to: int)
    ensures Tiles(ranges, p, [], to, to)
  {
  }

  lemma {:induction false} TilesCons(ranges: seq<Range>, p: nat, iv: Interval, rest: seq<Interval>, to: int)
    requires p < |ranges| && iv.file == ranges[p].file && 0 <= iv.begin <= iv.end <= ranges[p].end - ranges[p].begin
    requires Tiles(ranges, p + 1, rest, ranges[p].begin + iv.end, to)
    ensures Tiles(ranges, p, [iv] + rest, ranges[p].begin + iv.begin, to)
  {
    assert ([iv] + rest)[1..] == rest;
  }

  lemma {:induction false} RangesMeet(ranges: seq<Range>, total: nat, p: nat)
    requires Layout(ranges, total) && p < |ranges|
    ensures ranges[p].begin < ranges[p].end <= total
    ensures if p + 1 < |ranges| then ranges[p].end == ranges[p + 1].begin < ranges[p + 1].end
            else ranges[p].end == total
  {
    RangesAscend(ranges, total, p, |ranges| - 1);
  }

  lemma {:induction false} IntervalsTileFrom(ranges: seq<Range>, total: nat, p: nat, pos: nat, stop: nat)
    requires Layout(ranges, total) && p < |ranges| && pos <= ranges[p].end && pos <= stop
    requires ranges[p].begin < stop
    ensures Tiles(ranges, p, IntervalsFrom(ranges, p, pos, stop), Max(pos, ranges[p].begin), Min(stop, total))
    decreases |ranges| - p
  {
    hide *;
    var rest := IntervalsFrom(ranges, p + 1, pos, stop);
    RangesMeet(ranges, total, p);
    IntervalsCons(ranges, p, pos, stop);
    MaxIs(pos, ranges[p].begin);
    MinIs(ranges[p].end, stop);
    MinIs(stop, total);
    if p + 1 < |ranges| && ranges[p + 1].begin < stop {
      IntervalsTileFrom(ranges, total, p + 1, pos, stop);
      MaxIs(pos, ranges[p + 1].begin);
    } else {
      IntervalsEnd(ranges, p + 1, pos, stop);
      TilesOfNone(ranges, p + 1, Min(stop, total));
    }
    TilesCons(ranges, p, Clip(ranges[p], pos, stop), rest, Min(stop, total));
  }

  /** `_intervals` cuts [pos, stop), clipped at the end of the space, into file stretches in order. */
  lemma {:induction false} IntervalsTile(ranges: seq<Range>, total: nat, pos: nat, stop: nat)
    requires Layout(ranges, total) && |ranges| > 0 && pos <= total && pos <= stop
    ensures Tiles(ranges, LastAtMost(ranges, pos), IntervalsFrom(ranges, LastAtMost(ranges, pos), pos, stop), pos,
                  Min(stop, total))
  {
    var p := LastAtMost(ranges, pos);
    if ranges[p].begin < stop {
      if p + 1 < |ranges| {
        RangesAscend(ranges, total, p, p + 1);
        assert ranges[p].end == ranges[p + 1].begin;
      }
      IntervalsTileFrom(ranges, total, p, pos, stop);
    }
  }

  lemma {:induction false} TilesBounded(ranges: seq<Range>, p: nat, ivs: seq<Interval>, from: int, to: int)
    requires Tiles(ranges, p, ivs, from, to)
    ensures from <= to
    decreases |ivs|
  {
    if ivs != [] {
      TilesBounded(ranges, p + 1, ivs[1..], ranges[p].begin + ivs[0].end, to);
    }
  }

  /** Seek to `begin` and read up to `end`; a read stops at the end of the file. */
  function Chunk(disk: map<string, seq<byte>>, iv: Interval): seq<byte>
  {
    var content := FileContent(disk, iv.file);
    if 0 <= iv.begin <= iv.end && iv.begin <= |content| then content[iv.begin..Min(iv.end, |content|)] else []
  }

  function Chunks(disk: map<string, seq<byte>>, ivs: seq<Interval>): seq<byte>
  {
    if ivs == [] then [] else Chunks(disk, ivs[..|ivs| - 1]) + Chunk(disk, ivs[|ivs| - 1])
  }

  lemma {:induction false} ChunksFront(disk: map<string, seq<byte>>, ivs: seq<Interval>)
    requires ivs != []
    ensures Chunks(disk, ivs) == Chunk(disk, ivs[0]) + Chunks(disk, ivs[1..])
    decreases |ivs|
  {
    if |ivs| > 1 {
      var front, last := ivs[..|ivs| - 1], ivs[|ivs| - 1];
      ChunksFront(disk, front);
      assert front[1..] == ivs[1..][..|ivs| - 2] && ivs[1..][|ivs| - 2] == last;
      assert Chunks(disk, ivs[1..]) == Chunks(disk, front[1..]) + Chunk(disk, last);
    }
  }

  lemma {:induction false} ChunkIsFlat(ranges: seq<Range>, disk: map<string, seq<byte>>, total: nat, p: nat,
                                       iv: Interval)
    requires Layout(ranges, total) && OnDisk(ranges, disk) && p < |ranges| && iv.file == ranges[p].file
    requires 0 <= iv.begin <= iv.end <= ranges[p].end - ranges[p].begin
    requires iv.begin < iv.end ==> iv.end <= |FileContent(disk, iv.file)|
    ensures ranges[p].begin + iv.end <= total
    ensures Chunk(disk, iv) == FlatOf(ranges, disk, total)[ranges[p].begin + iv.begin..ranges[p].begin + iv.end]
  {
    hide *;
    RangesAscend(ranges, total, p, p);
    var flat := FlatOf(ranges, disk, total);
    var from, to := ranges[p].begin + iv.begin, ranges[p].begin + iv.end;
    ChunkSize(disk, iv);
    forall i | from <= i < to
      ensures flat[i] == Chunk(disk, iv)[i - from]
    {
      ChunkAt(ranges, disk, total, p, iv, i);
    }
    assert flat[from..to] == Chunk(disk, iv);
  }

  lemma {:induction false} ChunkSize(disk: map<string, seq<byte>>, iv: Interval)
    requires 0 <= iv.begin <= iv.end && (iv.begin < iv.end ==> iv.end <= |FileContent(disk, iv.file)|)
    ensures |Chunk(disk, iv)| == iv.end - iv.begin
  {
  }

  lemma {:induction false} ChunkAt(ranges: seq<Range>, disk: map<string, seq<byte>>, total: nat, p: nat, iv: Interval,
                                   i: nat)
    requires Layout(ranges, total) && p < |ranges| && iv.file == ranges[p].file && i < total
    requires 0 <= iv.begin <= iv.end <= ranges[p].end - ranges[p].begin && iv.end <= |FileContent(disk, iv.file)|
    requires ranges[p].begin + iv.begin <= i < ranges[p].begin + iv.end
    ensures |Chunk(disk, iv)| == iv.end - iv.begin
    ensures FlatOf(ranges, disk, total)[i] == Chunk(disk, iv)[i - ranges[p].begin - iv.begin]
  {
    hide Layout, LastAtMost;
    LastAtMostIs(ranges, total, p, i);
  }

  lemma {:induction false} PresentLater(ranges: seq<Range>, disk: map<string, seq<byte>>, pos: nat, mid: nat, stop: nat)
    requires PresentIn(ranges, disk, pos, stop) && pos <= mid
    ensures PresentIn(ranges, disk, mid, stop)
  {
  }

  lemma {:induction false} PresentWithin(ranges: seq<Range>, disk: map<string, seq<byte>>, from: nat, pos: nat,
                                         stop: nat, to: nat)
    requires PresentIn(ranges, disk, from, to) && from <= pos <= stop <= to
    ensures PresentIn(ranges, disk, pos, stop)
  {
  }

  lemma {:induction false} PresentHere(ranges: seq<Range>, disk: map<string, seq<byte>>, p: nat, pos: nat, mid: nat,
                                       stop: nat)
    requires PresentIn(ranges, disk, pos, stop) && p < |ranges|
    requires ranges[p].begin <= pos <= mid <= stop && mid <= ranges[p].end
    ensures pos < mid ==> mid - ranges[p].begin <= |FileContent(disk, ranges[p].file)|
  {
  }

  /** Reading the tiles of [from, to) in order gives the flat bytes [from, to) once they are present. */
  lemma {:induction false} ChunksAreFlat(ranges: seq<Range>, disk: map<string, seq<byte>>, total: nat, p: nat,
                                         ivs: seq<Interval>,
                                         from: nat, to: nat)
    requires Layout(ranges, total) && OnDisk(ranges, disk) && to <= total
    requires Tiles(ranges, p, ivs, from, to) && PresentIn(ranges, disk, from, to)
    ensures from <= to
    ensures Chunks(disk, ivs) == FlatOf(ranges, disk, total)[from..to]
    decreases |ivs|
  {
    hide FlatOf, Chunk, PresentIn, OnDisk, Layout;
    TilesBounded(ranges, p, ivs, from, to);
    if ivs != [] {
      var mid := ranges[p].begin + ivs[0].end;
      TilesBounded(ranges, p + 1, ivs[1..], mid, to);
      assert PresentIn(ranges, disk, mid, to) by { PresentLater(ranges, disk, from, mid, to); }
      ChunksAreFlat(ranges, disk, total, p + 1, ivs[1..], mid, to);
      ChunksFront(disk, ivs);
      assert ivs[0].begin < ivs[0].end ==> ivs[0].end <= |FileContent(disk, ivs[0].file)| by {
        PresentHere(ranges, disk, p, from, mid, to);
      }
      ChunkIsFlat(ranges, disk, total, p, ivs[0]);
      SliceJoin(FlatOf(ranges, disk, total), from, mid, to);
    }
  }

  /** Seek to `begin` and write `data`: a gap after the old end becomes zeros, an empty write does nothing. */
  function Patched(content: seq<byte>, begin: nat, data: seq<byte>): (r: seq<byte>)
    ensures data != [] ==> |r| == Max(|content|, begin + |data|)
    ensures data == [] ==> r == content
    ensures forall o :: ByteOf(r, o) == if begin <= o < begin + |data| then data[o - begin] else ByteOf(content, o)
  {
    if data == [] then content
    else
      (if begin <= |content| then content[..begin] else content + Zeros(begin - |content|))
      + data
      + (if begin + |data| <= |content| then content[begin + |data|..] else [])
  }

  lemma {:induction false} PatchByte(ranges: seq<Range>, disk: map<string, seq<byte>>, total: nat, k: nat, begin: nat,
                                     data: seq<byte>, i: nat)
    requires Layout(ranges, total) && k < |ranges| && i < total
    requires begin + |data| <= ranges[k].end - ranges[k].begin
    ensures FlatByte(ranges, disk[ranges[k].file := Patched(FileContent(disk, ranges[k].file), begin, data)], i)
         == var at := ranges[k].begin + begin;
            if at <= i < at + |data| then data[i - at] else FlatByte(ranges, disk, i)
  {
    var q := LastAtMost(ranges, i);
    LastAtMostCovers(ranges, total, i);
    if q < k {
      RangesAscend(ranges, total, q, k);
    } else if k < q {
      RangesAscend(ranges, total, k, q);
    }
  }

  lemma {:induction false} PatchOnDisk(ranges: seq<Range>, disk: map<string, seq<byte>>, total: nat, k: nat, begin: nat,
                                       data: seq<byte>)
    requires Layout(ranges, total) && OnDisk(ranges, disk) && k < |ranges|
    requires begin + |data| <= ranges[k].end - ranges[k].begin
    ensures OnDisk(ranges, disk[ranges[k].file := Patched(FileContent(disk, ranges[k].file), begin, data)])
  {
  }

  /** Writing inside one file is a splice of the flat space. */
  lemma {:induction false} PatchIsSplice(ranges: seq<Range>, disk: map<string, seq<byte>>, total: nat, k: nat,
                                         begin: nat, data: seq<byte>)
    requires Layout(ranges, total) && OnDisk(ranges, disk) && k < |ranges|
    requires begin + |data| <= ranges[k].end - ranges[k].begin
    ensures ranges[k].begin + begin + |data| <= total
    ensures OnDisk(ranges, disk[ranges[k].file := Patched(FileContent(disk, ranges[k].file), begin, data)])
    ensures FlatOf(ranges, disk[ranges[k].file := Patched(FileContent(disk, ranges[k].file), begin, data)], total)
         == Splice(FlatOf(ranges, disk, total), ranges[k].begin + begin, data)
  {
    hide *;
    RangesAscend(ranges, total, k, k);
    PatchOnDisk(ranges, disk, total, k, begin, data);
    var disk' := disk[ranges[k].file := Patched(FileContent(disk, ranges[k].file), begin, data)];
    forall i | 0 <= i < total
      ensures FlatOf(ranges, disk', total)[i] ==
              if ranges[k].begin + begin <= i < ranges[k].begin + begin + |data| then data[i - ranges[k].begin - begin]
              else FlatOf(ranges, disk, total)[i]
    {
      PatchByte(ranges, disk, total, k, begin, data, i);
      FlatAt(ranges, disk, total, i);
      FlatAt(ranges, disk', total, i);
    }
    IsSplice(FlatOf(ranges, disk, total), FlatOf(ranges, disk', total), ranges[k].begin + begin, data);
  }

  lemma {:induction false} FlatAt(ranges: seq<Range>, disk: map<string, seq<byte>>, total: nat, i: nat)
    requires i < total
    ensures FlatOf(ranges, disk, total)[i] == FlatByte(ranges, disk, i)
  {
  }

  lemma {:induction false} IsSplice(flat: seq<byte>, after: seq<byte>, at: nat, data: seq<byte>)
    requires at + |data| <= |flat| == |after|
    requires forall i :: 0 <= i < |flat| ==> after[i] == if at <= i < at + |data| then data[i - at] else flat[i]
    ensures after == Splice(flat, at, data)
  {
  }

  lemma {:induction false} SpliceTwice(flat: seq<byte>, pos: nat, s: seq<byte>, m: nat, n: nat)
    requires m <= n <= |s| && pos + n <= |flat|
    ensures Splice(Splice(flat, pos, s[..m]), pos + m, s[m..n]) == Splice(flat, pos, s[..n])
  {
  }

  /** No file got shorter. */
  ghost predicate Grown(ranges: seq<Range>, before: map<string, seq<byte>>, after: map<string, seq<byte>>)
  {
    forall k :: 0 <= k < |ranges| ==> |FileContent(before, ranges[k].file)| <= |FileContent(after, ranges[k].file)|
  }

  ghost predicate Touches(ranges: seq<Range>, file: string, pos: nat, stop: nat)
  {
    exists k :: 0 <= k < |ranges| && ranges[k].file == file && pos < ranges[k].end && ranges[k].begin < stop
  }

  /** Files with no byte in [pos, stop), and files outside the layout, are as they were. */
  ghost predicate OthersKept(ranges: seq<Range>, before: map<string, seq<byte>>, after: map<string, seq<byte>>,
                             pos: nat, stop: nat)
  {
    && after.Keys == before.Keys
    && forall f :: f in before && !Touches(ranges, f, pos, stop) ==> after[f] == before[f]
  }

  /** The first `n` bytes of `s` have been written at `pos`, over the disk `before`. */
  ghost predicate Written(ranges: seq<Range>, total: nat, before: map<string, seq<byte>>, after: map<string, seq<byte>>,
                          pos: nat, s: seq<byte>, n: nat)
  {
    && OnDisk(ranges, after)
    && n <= |s| && pos + n <= total
    && FlatOf(ranges, after, total) == Splice(FlatOf(ranges, before, total), pos, s[..n])
    && Grown(ranges, before, after)
    && PresentIn(ranges, after, pos, pos + n)
    && OthersKept(ranges, before, after, pos, pos + |s|)
  }

  lemma {:induction false} PatchPresent(ranges: seq<Range>, disk: map<string, seq<byte>>, total: nat, start: nat,
                                        p: nat, begin: nat, data: seq<byte>)
    requires Layout(ranges, total) && OnDisk(ranges, disk) && p < |ranges|
    requires begin + |data| <= ranges[p].end - ranges[p].begin && start <= ranges[p].begin + begin
    requires PresentIn(ranges, disk, start, ranges[p].begin + begin)
    requires OnDisk(ranges, disk[ranges[p].file := Patched(FileContent(disk, ranges[p].file), begin, data)])
    ensures PresentIn(ranges, disk[ranges[p].file := Patched(FileContent(disk, ranges[p].file), begin, data)],
                      start, ranges[p].begin + begin + |data|)
  {
    var at := ranges[p].begin + begin;
    var stop := at + |data|;
    var after := disk[ranges[p].file := Patched(FileContent(disk, ranges[p].file), begin, data)];
    if start < stop {
      forall k | 0 <= k < |ranges| && ranges[k].begin < stop && start < ranges[k].end
        ensures Min(ranges[k].end, stop) - ranges[k].begin <= |FileContent(after, ranges[k].file)|
      {
        if k < p {
          RangesAscend(ranges, total, k, p);
          assert start < at;
          assert Min(ranges[k].end, at) - ranges[k].begin <= |FileContent(disk, ranges[k].file)|;
        } else if p < k {
          RangesAscend(ranges, total, p, k);
        } else if data == [] {
          assert Min(ranges[k].end, at) - ranges[k].begin <= |FileContent(disk, ranges[k].file)|;
        }
      }
    }
  }

  lemma {:induction false} PatchKeeps(ranges: seq<Range>, before: map<string, seq<byte>>, disk: map<string, seq<byte>>,
                                      p: nat, begin: nat, data: seq<byte>,
                   pos: nat, stop: nat)
    requires p < |ranges| && ranges[p].file in disk
    requires Grown(ranges, before, disk) && OthersKept(ranges, before, disk, pos, stop)
    requires data != [] ==> pos < ranges[p].end && ranges[p].begin < stop
    ensures Grown(ranges, before, disk[ranges[p].file := Patched(FileContent(disk, ranges[p].file), begin, data)])
    ensures OthersKept(ranges, before, disk[ranges[p].file := Patched(FileContent(disk, ranges[p].file), begin, data)],
                       pos, stop)
  {
    assert data != [] ==> Touches(ranges, ranges[p].file, pos, stop);
  }

  lemma {:induction false} WrittenStep(ranges: seq<Range>, total: nat, before: map<string, seq<byte>>,
                                       disk: map<string, seq<byte>>,
                    pos: nat, s: seq<byte>, n: nat, p: nat, begin: nat, end: nat)
    requires Layout(ranges, total) && Written(ranges, total, before, disk, pos, s, n)
    requires p < |ranges| && begin <= end <= ranges[p].end - ranges[p].begin
    requires ranges[p].begin + begin == pos + n && n + end - begin <= |s|
    ensures Written(ranges, total, before, disk[ranges[p].file := Patched(FileContent(disk, ranges[p].file), begin, s[n..n + end - begin])],
                    pos, s, n + end - begin)
  {
    hide FlatOf, Splice, Patched, LastAtMost, Grown, OthersKept, PresentIn;
    var data := s[n..n + end - begin];
    PatchIsSplice(ranges, disk, total, p, begin, data);
    SpliceTwice(FlatOf(ranges, before, total), pos, s, n, n + end - begin);
    PatchPresent(ranges, disk, total, pos, p, begin, data);
    PatchKeeps(ranges, before, disk, p, begin, data, pos, pos + |s|);
  }

  lemma {:induction false} NothingWritten(ranges: seq<Range>, total: nat, disk: map<string, seq<byte>>, pos: nat,
                                          s: seq<byte>)
    requires OnDisk(ranges, disk) && pos <= total
    ensures Written(ranges, total, disk, disk, pos, s, 0)
  {
    var flat := FlatOf(ranges, disk, total);
    assert Splice(flat, pos, s[..0]) == flat;
  }

  lemma {:induction false} WrittenAll(ranges: seq<Range>, total: nat, before: map<string, seq<byte>>,
                                      after: map<string, seq<byte>>,
                   pos: nat, s: seq<byte>, n: nat)
    requires Written(ranges, total, before, after, pos, s, n) && pos + n == Min(pos + |s|, total)
    ensures OnDisk(ranges, after) && Grown(ranges, before, after) && OthersKept(ranges, before, after, pos, pos + |s|)
    ensures FlatOf(ranges, after, total) == Splice(FlatOf(ranges, before, total), pos, s[..Min(|s|, total - pos)])
    ensures PresentIn(ranges, after, pos, Min(pos + |s|, total))
  {
  }

  /** In the loop of `write`: the stretches from `j` on are still to be written, from `pos + total` to `to`. */
  ghost predicate Writing(ranges: seq<Range>, length: nat, before: map<string, seq<byte>>, disk: map<string, seq<byte>>,
                          ivs: seq<Interval>, j: nat, pos: nat, s: seq<byte>, total: nat, to: nat)
  {
    && Layout(ranges, length) && to == Min(pos + |s|, length) && j <= |ivs|
    && Tiles(ranges, LastAtMost(ranges, pos) + j, ivs[j..], pos + total, to)
    && Written(ranges, length, before, disk, pos, s, total)
  }

  lemma {:induction false} WritingStarts(ranges: seq<Range>, length: nat, disk: map<string, seq<byte>>,
                                         ivs: seq<Interval>, pos: nat, s: seq<byte>)
    requires Layout(ranges, length) && OnDisk(ranges, disk) && |ranges| > 0 && pos <= length
    requires ivs == IntervalsFrom(ranges, LastAtMost(ranges, pos), pos, pos + |s|)
    ensures 0 <= Min(pos + |s|, length)
    ensures Writing(ranges, length, disk, disk, ivs, 0, pos, s, 0, Min(pos + |s|, length))
  {
    hide Layout, Tiles, Written, OnDisk, IntervalsFrom, LastAtMost;
    IntervalsTile(ranges, length, pos, pos + |s|);
    NothingWritten(ranges, length, disk, pos, s);
    assert ivs[0..] == ivs;
  }

  lemma {:induction false} WritingGoesOn(ranges: seq<Range>, length: nat, before: map<string, seq<byte>>,
                                         disk: map<string, seq<byte>>,
                                         ivs: seq<Interval>, j: nat, pos: nat, s: seq<byte>, total: nat, to: nat)
    requires Writing(ranges, length, before, disk, ivs, j, pos, s, total, to) && j < |ivs|
    ensures 0 <= ivs[j].begin <= ivs[j].end && total + ivs[j].end - ivs[j].begin <= |s|
    ensures var Interval(file, begin, end) := ivs[j];
      Writing(ranges, length, before, disk[file := Patched(FileContent(disk, file), begin,
                                                           s[total..total + end - begin])],
              ivs, j + 1, pos, s, total + end - begin, to)
  {
    hide Layout, Tiles, Written, Patched, FileContent, LastAtMost;
    var p := LastAtMost(ranges, pos);
    TilesAt(ranges, p, ivs, j, pos + total, to);
    MinIs(pos + |s|, length);
    WrittenStep(ranges, length, before, disk, pos, s, total, p + j, ivs[j].begin, ivs[j].end);
  }

  lemma {:induction false} WritingEnds(ranges: seq<Range>, length: nat, before: map<string, seq<byte>>,
                                       disk: map<string, seq<byte>>,
                                       ivs: seq<Interval>, pos: nat, s: seq<byte>, total: nat, to: nat)
    requires Writing(ranges, length, before, disk, ivs, |ivs|, pos, s, total, to) && pos <= length
    ensures OnDisk(ranges, disk) && Grown(ranges, before, disk) && OthersKept(ranges, before, disk, pos, pos + |s|)
    ensures 0 <= Min(|s|, length - pos) <= |s| && pos + Min(|s|, length - pos) <= length
    ensures FlatOf(ranges, disk, length) == Splice(FlatOf(ranges, before, length), pos, s[..Min(|s|, length - pos)])
    ensures 0 <= Min(pos + |s|, length) && PresentIn(ranges, disk, pos, Min(pos + |s|, length))
  {
    hide Layout, Tiles, Written, OnDisk, Grown, OthersKept, FlatOf, Splice, PresentIn, LastAtMost;
    assert ivs[|ivs|..] == [];
    TilesNone(ranges, LastAtMost(ranges, pos) + |ivs|, ivs[|ivs|..], pos + total, to);
    WrittenAll(ranges, length, before, disk, pos, s, total);
  }

  lemma {:induction false} PresentGrows(ranges: seq<Range>, before: map<string, seq<byte>>,
                                        after: map<string, seq<byte>>)
    requires Grown(ranges, before, after)
    ensures forall pos: nat, stop: nat :: PresentIn(ranges, before, pos, stop) ==> PresentIn(ranges, after, pos, stop)
  {
  }

  lemma {:induction false} GrownKeepsTops(ranges: seq<Range>, tops: map<string, nat>, before: map<string, seq<byte>>,
                                          after: map<string, seq<byte>>)
    requires TopsPresent(ranges, tops, before) && Grown(ranges, before, after)
    ensures TopsPresent(ranges, tops, after)
  {
  }

  lemma {:induction false} IntervalsHave(ranges: seq<Range>, total: nat, p: nat, k: nat, pos: nat, stop: nat)
    requires Layout(ranges, total) && p <= k < |ranges| && ranges[k].begin < stop
    ensures Clip(ranges[k], pos, stop) in IntervalsFrom(ranges, p, pos, stop)
    decreases k - p
  {
    RangesAscend(ranges, total, p, k);
    if p < k {
      IntervalsHave(ranges, total, p + 1, k, pos, stop);
    }
  }

  lemma {:induction false} IntervalsOnly(ranges: seq<Range>, total: nat, p: nat, pos: nat, stop: nat, iv: Interval)
    returns (k: nat)
    requires Layout(ranges, total) && p <= |ranges| && iv in IntervalsFrom(ranges, p, pos, stop)
    ensures p <= k < |ranges| && ranges[k].begin < stop && iv == Clip(ranges[k], pos, stop)
    decreases |ranges| - p
  {
    if iv == Clip(ranges[p], pos, stop) {
      k := p;
    } else {
      k := IntervalsOnly(ranges, total, p + 1, pos, stop, iv);
    }
  }

  function Total(files: seq<(string, nat)>): nat
  {
    if files == [] then 0 else Total(files[..|files| - 1]) + files[|files| - 1].1
  }

  /** One range per file of nonzero length. */
  function RangesOf(files: seq<(string, nat)>): seq<Range>
  {
    if files == [] then []
    else
      var front := files[..|files| - 1];
      var (file, length) := files[|files| - 1];
      RangesOf(front) + if length == 0 then [] else [Range(Total(front), Total(front) + length, file)]
  }

  lemma {:induction false} RangeSource(files: seq<(string, nat)>, k: nat) returns (q: nat)
    requires k < |RangesOf(files)|
    ensures q < |files| && files[q].1 != 0
    ensures RangesOf(files)[k].file == files[q].0
    ensures RangesOf(files)[k].end - RangesOf(files)[k].begin == files[q].1
  {
    var front := files[..|files| - 1];
    if k < |RangesOf(front)| {
      q := RangeSource(front, k);
    } else {
      q := |files| - 1;
    }
  }

  /** A file of nonzero length has its range, of that length, after all files before it; the space is as long as all
      files together. */
  lemma {:induction false} RangeOfFile(files: seq<(string, nat)>, k: nat)
    requires k < |files|
    ensures Total(files[..k + 1]) == Total(files[..k]) + files[k].1 && Total(files[..0]) == 0
    ensures files[k].1 != 0 ==>
      Range(Total(files[..k]), Total(files[..k]) + files[k].1, files[k].0) in RangesOf(files)
    decreases |files|
  {
    hide *;
    RangesAre(files);
    RangesAre(files[..k + 1]);
    RangesAre([]);
    assert files[..k + 1][..k] == files[..k] && files[..0] == [];
    if k < |files| - 1 {
      RangeOfFile(files[..|files| - 1], k);
      assert files[..|files| - 1][..k] == files[..k];
    } else {
      assert files[..k + 1] == files;
    }
  }

  lemma {:induction false} LayoutSnoc(ranges: seq<Range>, total: nat, r: Range)
    requires Layout(ranges, total) && r.begin == total && r.begin < r.end
    requires forall k :: 0 <= k < |ranges| ==> ranges[k].file != r.file
    ensures Layout(ranges + [r], r.end)
  {
  }

  lemma {:induction false} RangesAre(files: seq<(string, nat)>)
    ensures files == [] ==> RangesOf(files) == [] && Total(files) == 0
    ensures files != [] ==>
      var n := |files| - 1;
      var (file, length) := files[n];
      && Total(files) == Total(files[..n]) + length
      && (length == 0 ==> RangesOf(files) == RangesOf(files[..n]))
      && (length != 0 ==> RangesOf(files) == RangesOf(files[..n]) + [Range(Total(files[..n]), Total(files), file)])
  {
  }

  lemma {:induction false} LayoutOfNone()
    ensures Layout([], 0)
  {
  }

  lemma {:induction false} LayoutOf(files: seq<(string, nat)>)
    requires forall j, k :: 0 <= j < k < |files| ==> files[j].0 != files[k].0
    ensures Layout(RangesOf(files), Total(files))
  {
    hide *;
    RangesAre(files);
    if files == [] {
      LayoutOfNone();
    } else {
      var front := files[..|files| - 1];
      var (file, length) := files[|files| - 1];
      LayoutOf(front);
      if length != 0 {
        forall k | 0 <= k < |RangesOf(front)|
          ensures RangesOf(front)[k].file != file
        {
          var q := RangeSource(front, k);
        }
        LayoutSnoc(RangesOf(front), Total(front), Range(Total(front), Total(front) + length, file));
      }
    }
  }

  /** What opening leaves in a file: cut to its length, or empty when it did not exist. */
  function Resumed(entry: (string, nat), existing: map<string, seq<byte>>): seq<byte>
  {
    if entry.0 !in existing then [] else existing[entry.0][..Min(|existing[entry.0]|, entry.1)]
  }

  /** First pass of `__init__`: the range table, and the files of length zero that do not exist yet. */
  method Lay(files: seq<(string, nat)>, existing: map<string, seq<byte>>)
    returns (ranges: seq<Range>, total: nat, disk: map<string, seq<byte>>)
    ensures ranges == RangesOf(files) && total == Total(files)
    ensures forall f :: f in existing ==> f in disk && disk[f] == existing[f]
    ensures forall f :: f in disk && f !in existing ==> disk[f] == []
    ensures forall k :: 0 <= k < |files| && files[k].1 == 0 ==> files[k].0 in disk
  {
    ranges, total, disk := [], 0, existing;
    for i := 0 to |files|
      invariant ranges == RangesOf(files[..i]) && total == Total(files[..i])
      invariant forall f :: f in existing ==> f in disk && disk[f] == existing[f]
      invariant forall f :: f in disk && f !in existing ==> disk[f] == []
      invariant forall k :: 0 <= k < i && files[k].1 == 0 ==> files[k].0 in disk
    {
      var (file, length) := files[i];
      assert files[..i + 1][..i] == files[..i];
      if length != 0 {
        ranges := ranges + [Range(total, total + length, file)];
        total := total + length;
      } else if file !in disk {
        disk := disk[file := []];
      }
    }
    assert files[..|files|] == files;
  }

  /** Second pass of `__init__`: open every file, cut those that are too long, and note how long each was. */
  method OpenAll(files: seq<(string, nat)>, existing: map<string, seq<byte>>)
    returns (tops: map<string, nat>, whandles: set<string>, disk: map<string, seq<byte>>)
    requires forall j, k :: 0 <= j < k < |files| ==> files[j].0 != files[k].0
    ensures forall k :: 0 <= k < |files| ==> files[k].0 in disk && disk[files[k].0] == Resumed(files[k], existing)
    ensures forall k :: 0 <= k < |files| && files[k].0 in existing ==> files[k].0 in tops
    ensures forall f :: f in tops ==> f in existing && tops[f] == |existing[f]|
    ensures forall k :: 0 <= k < |files| ==>
      (files[k].0 in whandles <==> files[k].0 !in existing || |existing[files[k].0]| != files[k].1)
    ensures forall f :: f in existing && (forall k :: 0 <= k < |files| ==> files[k].0 != f) ==> f in disk && disk[f] == existing[f]
  {
    hide *;
    tops, whandles, disk := map[], {}, existing;
    NothingOpened(files, existing);
    for i := 0 to |files|
      invariant DiskTo(files, existing, i, disk) && TopsTo(files, existing, i, tops)
      invariant WritableTo(files, existing, i, whandles)
    {
      var (file, length) := files[i];
      OpensDisk(files, existing, i, disk);
      OpensTops(files, existing, i, tops);
      OpensWritable(files, existing, i, whandles);
      if file in disk {
        var l := |disk[file]|;
        if l != length {
          whandles := whandles + {file};
          if l > length {
            disk := disk[file := disk[file][..length]];
          }
        }
        tops := tops[file := l];
      } else {
        disk := disk[file := []];
        whandles := whandles + {file};
      }
    }
    AllOpened(files, existing, tops, whandles, disk);
  }

  /** The first `i` files are as opening leaves them, the others as they were. */
  ghost predicate DiskTo(files: seq<(string, nat)>, existing: map<string, seq<byte>>, i: nat,
                         disk: map<string, seq<byte>>)
  {
    && (forall k :: 0 <= k < i && k < |files| ==> files[k].0 in disk && disk[files[k].0] == Resumed(files[k], existing))
    && (forall k :: i <= k < |files| ==>
          (files[k].0 in disk <==> files[k].0 in existing) && (files[k].0 in existing ==> disk[files[k].0] == existing[files[k].0]))
    && (forall f :: f in existing && (forall k :: 0 <= k < |files| ==> files[k].0 != f) ==>
          f in disk && disk[f] == existing[f])
  }

  /** The first `i` files are noted with the lengths they had. */
  ghost predicate TopsTo(files: seq<(string, nat)>, existing: map<string, seq<byte>>, i: nat, tops: map<string, nat>)
  {
    && (forall k :: 0 <= k < i && k < |files| && files[k].0 in existing ==> files[k].0 in tops)
    && (forall f :: f in tops ==> f in existing && tops[f] == |existing[f]|)
  }

  /** Of the first `i` files those are open for writing that are new or had another length. */
  ghost predicate WritableTo(files: seq<(string, nat)>, existing: map<string, seq<byte>>, i: nat, whandles: set<string>)
  {
    && (forall k :: 0 <= k < i && k < |files| ==>
          (files[k].0 in whandles <==> files[k].0 !in existing || |existing[files[k].0]| != files[k].1))
    && (forall f :: f in whandles ==> exists k :: 0 <= k < i && k < |files| && files[k].0 == f)
  }

  lemma {:induction false} NothingOpened(files: seq<(string, nat)>, existing: map<string, seq<byte>>)
    ensures DiskTo(files, existing, 0, existing) && TopsTo(files, existing, 0, map[])
    ensures WritableTo(files, existing, 0, {})
  {
  }

  lemma {:induction false} OpensDisk(files: seq<(string, nat)>, existing: map<string, seq<byte>>, i: nat,
                                     disk: map<string, seq<byte>>)
    requires forall j, k :: 0 <= j < k < |files| ==> files[j].0 != files[k].0
    requires DiskTo(files, existing, i, disk) && i < |files|
    ensures var (file, length) := files[i];
      && (file in disk <==> file in existing) && (file in disk ==> disk[file] == existing[file])
      && DiskTo(files, existing, i + 1,
                if file !in disk then disk[file := []] else if |disk[file]| > length then disk[file := disk[file][..length]] else disk)
  {
    hide *;
    DiskToIs(files, existing, i, disk);
    var (file, length) := files[i];
    var after := if file !in disk then disk[file := []] else if |disk[file]| > length then disk[file := disk[file][..length]] else disk;
    ResumedIs(files[i], existing);
    DiskToIs(files, existing, i + 1, after);
  }

  lemma {:induction false} ResumedIs(entry: (string, nat), existing: map<string, seq<byte>>)
    ensures entry.0 !in existing ==> Resumed(entry, existing) == []
    ensures entry.0 in existing && |existing[entry.0]| > entry.1 ==>
      Resumed(entry, existing) == existing[entry.0][..entry.1]
    ensures entry.0 in existing && |existing[entry.0]| <= entry.1 ==> Resumed(entry, existing) == existing[entry.0]
  {
  }

  lemma {:induction false} DiskToIs(files: seq<(string, nat)>, existing: map<string, seq<byte>>, i: nat,
                                    disk: map<string, seq<byte>>)
    ensures DiskTo(files, existing, i, disk) <==>
      && (forall k :: 0 <= k < i && k < |files| ==>
            files[k].0 in disk && disk[files[k].0] == Resumed(files[k], existing))
      && (forall k :: i <= k < |files| ==>
            (files[k].0 in disk <==> files[k].0 in existing) && (files[k].0 in existing ==> disk[files[k].0] == existing[files[k].0]))
      && (forall f :: f in existing && (forall k :: 0 <= k < |files| ==> files[k].0 != f) ==>
            f in disk && disk[f] == existing[f])
  {
  }

  lemma {:induction false} OpensTops(files: seq<(string, nat)>, existing: map<string, seq<byte>>, i: nat,
                                     tops: map<string, nat>)
    requires TopsTo(files, existing, i, tops) && i < |files|
    ensures var file := files[i].0;
      TopsTo(files, existing, i + 1, if file in existing then tops[file := |existing[file]|] else tops)
  {
  }

  lemma {:induction false} OpensWritable(files: seq<(string, nat)>, existing: map<string, seq<byte>>, i: nat,
                                         whandles: set<string>)
    requires forall j, k :: 0 <= j < k < |files| ==> files[j].0 != files[k].0
    requires WritableTo(files, existing, i, whandles) && i < |files|
    ensures var (file, length) := files[i];
      WritableTo(files, existing, i + 1, if file !in existing || |existing[file]| != length then whandles + {file} else whandles)
  {
  }

  lemma {:induction false} AllOpened(files: seq<(string, nat)>, existing: map<string, seq<byte>>,
                                     tops: map<string, nat>, whandles: set<string>,
                                     disk: map<string, seq<byte>>)
    requires DiskTo(files, existing, |files|, disk) && TopsTo(files, existing, |files|, tops)
    requires WritableTo(files, existing, |files|, whandles)
    ensures forall k :: 0 <= k < |files| ==> files[k].0 in disk && disk[files[k].0] == Resumed(files[k], existing)
    ensures forall k :: 0 <= k < |files| && files[k].0 in existing ==> files[k].0 in tops
    ensures forall f :: f in tops ==> f in existing && tops[f] == |existing[f]|
    ensures forall k :: 0 <= k < |files| ==>
      (files[k].0 in whandles <==> files[k].0 !in existing || |existing[files[k].0]| != files[k].1)
    ensures forall f :: f in existing && (forall k :: 0 <= k < |files| ==> files[k].0 != f) ==> f in disk && disk[f] == existing[f]
  {
    hide Resumed;
  }

  lemma {:induction false} OpenedIsValid(files: seq<(string, nat)>, existing: map<string, seq<byte>>,
                                         tops: map<string, nat>, disk: map<string, seq<byte>>)
    requires forall k :: 0 <= k < |files| ==> files[k].0 in disk && disk[files[k].0] == Resumed(files[k], existing)
    requires forall f :: f in tops ==> tops[f] == if f in existing then |existing[f]| else 0
    ensures OnDisk(RangesOf(files), disk) && TopsPresent(RangesOf(files), tops, disk)
  {
    var ranges := RangesOf(files);
    forall k | 0 <= k < |ranges|
      ensures ranges[k].file in disk && |disk[ranges[k].file]| <= ranges[k].end - ranges[k].begin
      ensures ranges[k].file in tops ==>
        Min(tops[ranges[k].file], ranges[k].end - ranges[k].begin) <= |disk[ranges[k].file]|
    {
      var q := RangeSource(files, k);
    }
  }

  predicate LongEnough(ranges: seq<Range>, tops: map<string, nat>, pos: nat, length: nat)
  {
    forall iv :: iv in IntervalsFrom(ranges, LastAtMost(ranges, pos), pos, pos + length) ==>
      (if iv.file in tops then tops[iv.file] else 0) >= iv.end
  }

  /** A file still holds at least what it held when it was opened, up to its length. */
  ghost predicate TopsPresent(ranges: seq<Range>, tops: map<string, nat>, disk: map<string, seq<byte>>)
  {
    forall k :: 0 <= k < |ranges| && ranges[k].file in tops ==>
      Min(tops[ranges[k].file], ranges[k].end - ranges[k].begin) <= |FileContent(disk, ranges[k].file)|
  }

  ghost function FilesOf(ivs: seq<Interval>): set<string>
  {
    set iv | iv in ivs :: iv.file
  }

  lemma {:induction false} FilesOfMore(ivs: seq<Interval>, j: nat)
    requires j <= |ivs|
    ensures FilesOf(ivs[..0]) == {}
    ensures j < |ivs| ==> FilesOf(ivs[..j + 1]) == FilesOf(ivs[..j]) + {ivs[j].file}
  {
    if j < |ivs| {
      assert ivs[..j + 1] == ivs[..j] + [ivs[j]];
      assert forall iv :: iv in ivs[..j + 1] <==> iv in ivs[..j] || iv == ivs[j];
    }
  }

  class Storage {
    var ranges: seq<Range>
    var totalLength: nat
    var tops: map<string, nat>
    var whandles: set<string>
    /** The file system: every file the process can see, by name. */
    var disk: map<string, seq<byte>>

    ghost predicate Valid()
      reads this
    {
      && Layout(ranges, totalLength)
      && OnDisk(ranges, disk)
      && TopsPresent(ranges, tops, disk)
    }

    ghost function Flat(): (flat: seq<byte>)
      reads this
      ensures |flat| == totalLength
    {
      FlatOf(ranges, disk, totalLength)
    }

    ghost predicate Present(pos: nat, stop: nat)
      reads this
    {
      PresentIn(ranges, disk, pos, stop)
    }

    /** The files in order, with the lengths the torrent gives them, over the files already on disk. */
    constructor (files: seq<(string, nat)>, existing: map<string, seq<byte>>)
      requires forall j, k :: 0 <= j < k < |files| ==> files[j].0 != files[k].0
      ensures Valid()
      ensures ranges == RangesOf(files) && totalLength == Total(files)
      ensures forall k :: 0 <= k < |files| ==> files[k].0 in disk && disk[files[k].0] == Resumed(files[k], existing)
      ensures forall k :: 0 <= k < |files| && files[k].0 in existing ==>
        files[k].0 in tops && tops[files[k].0] == |existing[files[k].0]|
      ensures forall f :: f in tops && f !in existing ==> tops[f] == 0
      ensures forall f :: f in existing && (forall k :: 0 <= k < |files| ==> files[k].0 != f) ==> f in disk && disk[f] == existing[f]
    {
      var rs, total, d1 := Lay(files, existing);
      var t, w, d := OpenAll(files, d1);
      ranges, totalLength, tops, whandles, disk := rs, total, t, w, d;
      LayoutOf(files);
      OpenedIsValid(files, existing, t, d);
    }

    /** `_intervals`. */
    method Intervals(pos: nat, amount: nat) returns (r: seq<Interval>)
      requires Valid() && pos <= totalLength && |ranges| > 0
      ensures r == IntervalsFrom(ranges, LastAtMost(ranges, pos), pos, pos + amount)
    {
      hide *;
      r := [];
      var stop := pos + amount;
      var p := LastAtMost(ranges, pos);
      ghost var whole := IntervalsFrom(ranges, p, pos, stop);
      while p < |ranges| && ranges[p].begin < stop
        invariant 0 <= p <= |ranges|
        invariant r + IntervalsFrom(ranges, p, pos, stop) == whole
      {
        var Range(begin, end, file) := ranges[p];
        var iv := Interval(file, Max(pos, begin) - begin, Min(end, stop) - begin);
        IntervalsCons(ranges, p, pos, stop);
        IntervalsOneMore(ranges, p, pos, stop, r);
        r := r + [iv];
        p := p + 1;
      }
      IntervalsEnd(ranges, p, pos, stop);
    }

    /** `was_preallocated`: every file touched was long enough when the storage was opened. */
    predicate WasPreallocated(pos: nat, length: nat)
      reads this`ranges, this`tops
    {
      LongEnough(ranges, tops, pos, length)
    }

    lemma {:induction false} PreallocatedIsPresent(pos: nat, length: nat)
      requires Valid() && |ranges| > 0 && pos + length <= totalLength && WasPreallocated(pos, length)
      ensures Present(pos, pos + length)
    {
      hide FlatOf, IntervalsFrom;
      var p := LastAtMost(ranges, pos);
      forall k | 0 <= k < |ranges| && ranges[k].begin < pos + length && pos < ranges[k].end
        ensures Min(ranges[k].end, pos + length) - ranges[k].begin <= |FileContent(disk, ranges[k].file)|
      {
        if k < p {
          RangesAscend(ranges, totalLength, k, p);
        }
        IntervalsHave(ranges, totalLength, p, k, pos, pos + length);
      }
    }

    /** A range counts as preallocated exactly if every file that it touches had, when it was opened, all bytes up to
        the end of the part that is touched. */
    lemma {:induction false} PreallocatedExactly(pos: nat, length: nat)
      requires Valid() && |ranges| > 0 && 0 < length && pos + length <= totalLength
      ensures WasPreallocated(pos, length) <==>
        forall k :: 0 <= k < |ranges| && ranges[k].begin < pos + length && pos < ranges[k].end ==>
          (if ranges[k].file in tops then tops[ranges[k].file] else 0) >= Min(ranges[k].end, pos + length) - ranges[k].begin
    {
      hide FlatOf, IntervalsFrom, OnDisk, TopsPresent;
      var p := LastAtMost(ranges, pos);
      LastAtMostCovers(ranges, totalLength, pos);
      forall k | 0 <= k < |ranges| && ranges[k].begin < pos + length && pos < ranges[k].end
        ensures Clip(ranges[k], pos, pos + length) in IntervalsFrom(ranges, p, pos, pos + length)
      {
        if k < p {
          RangesAscend(ranges, totalLength, k, p);
        }
        IntervalsHave(ranges, totalLength, p, k, pos, pos + length);
      }
      if forall k :: 0 <= k < |ranges| && ranges[k].begin < pos + length && pos < ranges[k].end ==>
          (if ranges[k].file in tops then tops[ranges[k].file] else 0) >= Min(ranges[k].end, pos + length) - ranges[k].begin {
        forall iv | iv in IntervalsFrom(ranges, p, pos, pos + length)
          ensures (if iv.file in tops then tops[iv.file] else 0) >= iv.end
        {
          var k := IntervalsOnly(ranges, totalLength, p, pos, pos + length, iv);
          if p < k {
            RangesAscend(ranges, totalLength, p, k);
          }
        }
      }
    }

    method Read(pos: nat, amount: nat) returns (r: seq<byte>)
      requires Valid() && pos <= totalLength && |ranges| > 0
      ensures Present(pos, Min(pos + amount, totalLength)) ==> r == Flat()[pos..Min(pos + amount, totalLength)]
    {
      hide FlatOf, LastAtMost, IntervalsFrom, Chunk, Tiles, PresentIn, TopsPresent;
      var ivs := Intervals(pos, amount);
      IntervalsTile(ranges, totalLength, pos, pos + amount);
      r := [];
      for j := 0 to |ivs|
        invariant r == Chunks(disk, ivs[..j])
      {
        assert ivs[..j + 1][..j] == ivs[..j];
        r := r + Chunk(disk, ivs[j]);
      }
      assert ivs[..|ivs|] == ivs;
      if Present(pos, Min(pos + amount, totalLength)) {
        ChunksAreFlat(ranges, disk, totalLength, LastAtMost(ranges, pos), ivs, pos, Min(pos + amount, totalLength));
      }
    }

    /** Bytes past the end of the space are dropped. */
    method Write(pos: nat, s: seq<byte>)
      requires Valid() && pos <= totalLength && |ranges| > 0
      modifies this`disk, this`whandles
      ensures Valid()
      ensures Flat() == Splice(old(Flat()), pos, s[..Min(|s|, totalLength - pos)])
      ensures Present(pos, Min(pos + |s|, totalLength))
      ensures Grown(ranges, old(disk), disk)
      ensures OthersKept(ranges, old(disk), disk, pos, pos + |s|)
      // the files written to are open for writing
      ensures whandles == old(whandles) + FilesOf(IntervalsFrom(ranges, LastAtMost(ranges, pos), pos, pos + |s|))
    {
      hide *;
      ValidParts();
      var ivs := Intervals(pos, |s|);
      ghost var rs, length, before, to := ranges, totalLength, disk, Min(pos + |s|, totalLength);
      WritingStarts(rs, length, before, ivs, pos, s);
      var total := 0;
      var j := 0;
      FilesOfMore(ivs, 0);
      while j < |ivs|
        invariant 0 <= j <= |ivs| && 0 <= total
        invariant Writing(rs, length, before, disk, ivs, j, pos, s, total, to)
        invariant whandles == old(whandles) + FilesOf(ivs[..j])
      {
        FilesOfMore(ivs, j);
        var Interval(file, begin, end) := ivs[j];
        if file !in whandles {
          whandles := whandles + {file};
        }
        WritingGoesOn(rs, length, before, disk, ivs, j, pos, s, total, to);
        disk := disk[file := Patched(FileContent(disk, file), begin, s[total..total + end - begin])];
        total := total + end - begin;
        j := j + 1;
      }
      assert ivs[..j] == ivs;
      WritingEnds(rs, length, before, disk, ivs, pos, s, total, to);
      GrownKeepsTops(rs, tops, before, disk);
      ValidWhole();
    }

    lemma {:induction false} ValidParts()
      requires Valid()
      ensures Layout(ranges, totalLength) && OnDisk(ranges, disk) && TopsPresent(ranges, tops, disk)
      ensures Flat() == FlatOf(ranges, disk, totalLength)
    {
    }

    lemma {:induction false} ValidWhole()
      ensures Layout(ranges, totalLength) && OnDisk(ranges, disk) && TopsPresent(ranges, tops, disk) ==> Valid()
      ensures Flat() == FlatOf(ranges, disk, totalLength)
      ensures forall pos: nat, stop: nat :: Present(pos, stop) == PresentIn(ranges, disk, pos, stop)
    {
    }
  }
}
