/** The timestamp sequence of a run: clamp the requested range to the
    recorded window, align the start to the 10-second snapshot grid, step by
    the frame skip, and look every timestamp up in the snapshot table. */
module Timestamps {
  import opened Records

  /** First and last recorded snapshot timestamps, in milliseconds. */
  const FirstTimestamp: int := 1689858232999
  const LastTimestamp: int := 1690320892999
  /** Snapshots are 10 seconds apart, counted from FirstTimestamp. */
  const SnapshotStep: int := 10000

  /** One row of the snapshot table: a timestamp and its six tile URL slots. */
  datatype TableRow = TableRow(timestamp: int, slots: seq<Slot>)

  /** Only a start before the window is raised; a start past it is kept. */
  function ClampStart(start: int): int {
    if start < FirstTimestamp then FirstTimestamp else start
  }

  /** Only an end past the window is lowered; an end before it is kept. */
  function ClampEnd(end: int): int {
    if end > LastTimestamp then LastTimestamp else end
  }

  /** The clamped start, moved down onto the snapshot grid. */
  function AlignedStart(start: int): (s: int)
    ensures s >= FirstTimestamp && (s - FirstTimestamp) % SnapshotStep == 0
    ensures s <= ClampStart(start) < s + SnapshotStep
  {
    var c := ClampStart(start);
    c - (c - FirstTimestamp) % SnapshotStep
  }

  /** The number of values of range(lo, hi, step) for a positive step. */
  function RangeCount(lo: int, hi: int, step: int): nat
    requires step > 0
  {
    if lo >= hi then 0 else (hi - lo - 1) / step + 1
  }

  /** range(lo, hi, step) for a positive step. */
  function Range(lo: int, hi: int, step: int): (r: seq<int>)
    requires step > 0
    ensures |r| == RangeCount(lo, hi, step)
  {
    seq(RangeCount(lo, hi, step), k => lo + k * step)
  }

  /** The k-th step is still below hi exactly when k is under the count. */
  lemma RangeCountBound(lo: int, hi: int, step: int, k: nat)
    requires step > 0
    ensures k < RangeCount(lo, hi, step) <==> lo + k * step < hi
  {
    if lo < hi {
      var q := (hi - lo - 1) / step;
      assert q * step <= hi - lo - 1 < q * step + step;
      if k <= q {
        MulMonotone(k, q, step);
      } else {
        MulMonotone(q + 1, k, step);
      }
    } else {
      MulMonotone(0, k, step);
    }
  }

  /** Multiplying by a positive step keeps the order of the factors. */
  lemma MulMonotone(a: int, b: int, step: int)
    requires a <= b && step > 0
    ensures a * step <= b * step
  {
    assert b * step - a * step == (b - a) * step;
  }

  /** range(lo, hi, step) holds exactly the values lo + k * step below hi. */
  lemma RangeMembers(lo: int, hi: int, step: int)
    requires step > 0
    ensures forall t :: t in Range(lo, hi, step) <==>
      (lo <= t < hi && (t - lo) % step == 0)
  {
    var r := Range(lo, hi, step);
    forall t | lo <= t < hi && (t - lo) % step == 0
      ensures t in r
    {
      var k := (t - lo) / step;
      assert t - lo == k * step + (t - lo) % step;
      RangeCountBound(lo, hi, step, k);
      assert r[k] == t;
    }
    forall t | t in r
      ensures lo <= t < hi && (t - lo) % step == 0
    {
      var k :| 0 <= k < |r| && r[k] == t;
      RangeCountBound(lo, hi, step, k);
      MultipleMod(k, step);
    }
  }

  lemma MultipleMod(k: nat, step: int)
    requires step > 0
    ensures k * step >= 0 && (k * step) % step == 0
  {
    var d, m := (k * step) / step, (k * step) % step;
    assert k * step == step * d + m && 0 <= m < step;
    assert m == step * (k - d);
    MultipleBounds(step, k - d);
  }

  lemma MultipleBounds(step: int, x: int)
    requires step > 0
    ensures x >= 1 ==> step * x >= step
    ensures x <= -1 ==> step * x <= -step
  {
  }

  /** The frame timestamps of a run. */
  function FrameTimes(start: int, end: int, frameskip: int): seq<int>
    requires frameskip > 0
  {
    Range(AlignedStart(start), ClampEnd(end) + 1, frameskip * 1000)
  }

  /** Frame n is at the aligned start plus n frame skips, never past the
      clamped end, and the sequence stops only when the next step would be. */
  lemma FrameTimesSpec(start: int, end: int, frameskip: int)
    requires frameskip > 0
    ensures var times := FrameTimes(start, end, frameskip);
      var s := AlignedStart(start);
      (forall n :: 0 <= n < |times| ==>
        times[n] == s + n * frameskip * 1000 && s <= times[n] <= ClampEnd(end)) &&
      s + |times| * frameskip * 1000 > ClampEnd(end)
  {
    var times := FrameTimes(start, end, frameskip);
    var s, step := AlignedStart(start), frameskip * 1000;
    forall n | 0 <= n < |times|
      ensures times[n] == s + n * frameskip * 1000 && s <= times[n] <= ClampEnd(end)
    {
      RangeCountBound(s, ClampEnd(end) + 1, step, n);
      assert n * step >= 0;
      assert n * frameskip * 1000 == n * step;
    }
    RangeCountBound(s, ClampEnd(end) + 1, step, |times|);
    assert |times| * frameskip * 1000 == |times| * step;
  }

  /** A start on the window's first snapshot, an end one snapshot later and
      a 10-second frame skip give two frames. */
  lemma TwoFrameWindow()
    ensures FrameTimes(FirstTimestamp, FirstTimestamp + 10000, 10) == [FirstTimestamp, FirstTimestamp + 10000]
  {
    var r := FrameTimes(FirstTimestamp, FirstTimestamp + 10000, 10);
    assert |r| == 2;
  }

  /** The slots of the first row carrying timestamp t, or None when no row
      does; later rows with the same timestamp are ignored. */
  function Lookup(table: seq<TableRow>, t: int): (r: Option<seq<Slot>>)
    ensures r.None? <==> forall i :: 0 <= i < |table| ==> table[i].timestamp != t
    ensures r.Some? ==> exists i :: (0 <= i < |table| && table[i].timestamp == t &&
      r.value == table[i].slots && forall q :: 0 <= q < i ==> table[q].timestamp != t)
  {
    if table == [] then None
    else if table[0].timestamp == t then Some(table[0].slots)
    else
      var r := Lookup(table[1..], t);
      assert r.Some? ==> exists i :: (1 <= i < |table| && table[i].timestamp == t &&
        r.value == table[i].slots && forall q :: 0 <= q < i ==> table[q].timestamp != t) by {
        if r.Some? {
          var i :| 0 <= i < |table[1..]| && table[1..][i].timestamp == t &&
            r.value == table[1..][i].slots && forall q :: 0 <= q < i ==> table[1..][q].timestamp != t;
          assert forall q :: 1 <= q < i + 1 ==> table[q].timestamp == table[1..][q - 1].timestamp;
        }
      }
      r
  }

  /** Whichever row is the first to carry t is the one found. */
  lemma LookupFindsFirst(table: seq<TableRow>, t: int, i: int)
    requires 0 <= i < |table| && table[i].timestamp == t
    requires forall q :: 0 <= q < i ==> table[q].timestamp != t
    ensures Lookup(table, t) == Some(table[i].slots)
  {
    var r := Lookup(table, t);
    var k :| 0 <= k < |table| && table[k].timestamp == t &&
      r.value == table[k].slots && forall q :: 0 <= q < k ==> table[q].timestamp != t;
    assert k == i;
  }

  /** Clamps and aligns the range, then looks up every frame timestamp in
      order; the first timestamp without a row aborts the run. */
  method CollectFrameUrls(start: int, end: int, frameskip: int, table: seq<TableRow>)
    returns (res: Result<seq<seq<Slot>>>)
    requires frameskip > 0
    ensures var times := FrameTimes(start, end, frameskip);
      res.Ok? <==> forall k :: 0 <= k < |times| ==> Lookup(table, times[k]).Some?
    ensures var times := FrameTimes(start, end, frameskip);
      res.Ok? ==> (|res.value| == |times| &&
        forall k :: 0 <= k < |times| ==> Lookup(table, times[k]) == Some(res.value[k]))
    ensures var times := FrameTimes(start, end, frameskip);
      res.Err? ==> exists k :: (0 <= k < |times| && res.fault == MissingRow(times[k]) &&
        Lookup(table, times[k]).None? &&
        forall q :: 0 <= q < k ==> Lookup(table, times[q]).Some?)
  {
    var s := start;
    if s < FirstTimestamp {
      s := FirstTimestamp;
    }
    var e := end;
    if e > LastTimestamp {
      e := LastTimestamp;
    }
    s := s - (s - FirstTimestamp) % SnapshotStep;
    ghost var times := FrameTimes(start, end, frameskip);
    assert s == AlignedStart(start) && e == ClampEnd(end);

    var step := frameskip * 1000;
    var frames: seq<seq<Slot>> := [];
    var t := s;
    while t < e + 1
      invariant |frames| <= |times|
      invariant t == s + |frames| * step
      invariant forall k :: 0 <= k < |frames| ==> Lookup(table, times[k]) == Some(frames[k])
      decreases e + 1 - t
    {
      RangeCountBound(s, e + 1, step, |frames|);
      assert times[|frames|] == t;
      var row := Lookup(table, t);
      if row.None? {
        return Err(MissingRow(t));
      }
      frames := frames + [row.value];
      t := t + step;
    }
    RangeCountBound(s, e + 1, step, |frames|);
    return Ok(frames);
  }
}
