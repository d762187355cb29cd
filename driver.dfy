/** The sequence driver: decide which frames still have to be built (the
    resume filter), blank the slots of unneeded tiles, build every pending
    frame, and the top-level run that feeds it from the snapshot table. */
module Driver {
  import opened Records
  import opened Geometry
  import opened Raster
  import opened Output
  import opened TileSelect
  import opened Frame
  import opened Timestamps

  /** The tasks for frames 0 .. k-1 still to build: all of them, or with
      keep only those whose file is not yet present. */
  function Pending(urls: seq<seq<Slot>>, present: set<string>, keep: bool, k: nat): seq<Task>
    requires k <= |urls|
  {
    if k == 0 then []
    else
      Pending(urls, present, keep, k - 1) +
      (if keep && FrameName(k - 1) in present then [] else [Task(k - 1, urls[k - 1])])
  }

  /** Task indices strictly increase along the sequence. */
  predicate Increasing(tasks: seq<Task>) {
    forall p, q :: 0 <= p < q < |tasks| ==> tasks[p].index < tasks[q].index
  }

  /** A task is pending exactly when its index is in range, it carries that
      frame's slots, and (with keep) the frame's file is absent; the pending
      tasks are in ascending index order. */
  lemma {:induction false} PendingSpec(urls: seq<seq<Slot>>, present: set<string>, keep: bool, k: nat)
    requires k <= |urls|
    ensures forall t :: t in Pending(urls, present, keep, k) <==>
      (t.index < k && t.slots == urls[t.index] && !(keep && FrameName(t.index) in present))
    ensures Increasing(Pending(urls, present, keep, k))
    ensures forall t :: t in Pending(urls, present, keep, k) ==> t.index < k
  {
    if k > 0 {
      PendingSpec(urls, present, keep, k - 1);
    }
  }

  /** Without keep every frame is pending, in order. */
  lemma {:induction false} PendingAll(urls: seq<seq<Slot>>, present: set<string>, k: nat)
    requires k <= |urls|
    ensures Pending(urls, present, false, k) == seq(k, n requires 0 <= n < k => Task(n, urls[n]))
  {
    if k > 0 {
      PendingAll(urls, present, k - 1);
    }
  }

  /** With keep and every frame's file present, nothing is pending. */
  lemma {:induction false} NothingPending(urls: seq<seq<Slot>>, present: set<string>, k: nat)
    requires k <= |urls|
    requires forall n :: 0 <= n < k ==> FrameName(n) in present
    ensures Pending(urls, present, true, k) == []
  {
    if k > 0 {
      NothingPending(urls, present, k - 1);
    }
  }

  /** Lists the frames to build, testing each frame's file under the same
      name it is written to. */
  method PendingTasks(urls: seq<seq<Slot>>, present: set<string>, keep: bool) returns (tasks: seq<Task>)
    ensures tasks == Pending(urls, present, keep, |urls|)
  {
    if keep {
      tasks := [];
      var n := 0;
      while n < |urls|
        invariant 0 <= n <= |urls|
        invariant tasks == Pending(urls, present, keep, n)
      {
        if FrameName(n) !in present {
          tasks := tasks + [Task(n, urls[n])];
        }
        n := n + 1;
      }
    } else {
      tasks := seq(|urls|, n requires 0 <= n < |urls| => Task(n, urls[n]));
      PendingAll(urls, present, |urls|);
    }
  }

  /** The tasks with the slots of unneeded tiles blanked; indices and order
      are untouched. */
  function MaskAll(tasks: seq<Task>, b: Box): (masked: seq<Task>)
    ensures |masked| == |tasks|
  {
    seq(|tasks|, i requires 0 <= i < |tasks| =>
      Task(tasks[i].index, if |tasks[i].slots| >= TileCount then Masked(tasks[i].slots, Mask(b)) else tasks[i].slots))
  }

  predicate SixSlots(tasks: seq<Task>) {
    forall i :: 0 <= i < |tasks| ==> |tasks[i].slots| >= TileCount
  }

  /** Replaces every task, in place, by its masked version. */
  method MaskTasks(b: Box, tasks: seq<Task>) returns (masked: seq<Task>)
    requires CornersInCanvas(b) && SixSlots(tasks)
    ensures masked == MaskAll(tasks, b)
  {
    masked := tasks;
    var i := 0;
    while i < |masked|
      invariant 0 <= i <= |masked| == |tasks|
      invariant forall q :: 0 <= q < |tasks| ==>
        masked[q] == if q < i then MaskAll(tasks, b)[q] else tasks[q]
    {
      var (n, urls) := (masked[i].index, masked[i].slots);
      var opt := OptimiseCanvasFetch(b, urls);
      masked := masked[i := Task(n, opt)];
      i := i + 1;
    }
  }

  predicate AllFetchable(tasks: seq<Task>, fetch: Fetcher) {
    forall i :: 0 <= i < |tasks| ==> FetchesTiles(tasks[i].slots, fetch)
  }

  /** A map after a sequence of writes, applied in order. */
  function Written<K, V>(m: map<K, V>, writes: seq<(K, V)>): map<K, V>
  {
    if writes == [] then m
    else Written(m, writes[..|writes| - 1])[writes[|writes| - 1].0 := writes[|writes| - 1].1]
  }

  /** A key no write touches keeps its presence and value. */
  lemma {:induction false} WrittenElsewhere<K, V>(m: map<K, V>, writes: seq<(K, V)>, key: K)
    requires forall i :: 0 <= i < |writes| ==> writes[i].0 != key
    ensures (key in Written(m, writes) <==> key in m)
    ensures key in m ==> Written(m, writes)[key] == m[key]
  {
    if writes != [] {
      WrittenElsewhere(m, writes[..|writes| - 1], key);
    }
  }

  /** With distinct keys, each write's value is what the key ends up holding. */
  lemma {:induction false} WrittenAt<K, V>(m: map<K, V>, writes: seq<(K, V)>, q: int)
    requires forall p, p' :: 0 <= p < p' < |writes| ==> writes[p].0 != writes[p'].0
    requires 0 <= q < |writes|
    ensures writes[q].0 in Written(m, writes) && Written(m, writes)[writes[q].0] == writes[q].1
  {
    if q < |writes| - 1 {
      WrittenAt(m, writes[..|writes| - 1], q);
    }
  }

  /** The file writes the tasks perform, in order. */
  function Writes(tasks: seq<Task>, b: Box, fetch: Fetcher): (w: seq<(string, Image)>)
    requires IsRect(b) && AllFetchable(tasks, fetch)
    ensures |w| == |tasks|
  {
    seq(|tasks|, i requires 0 <= i < |tasks| =>
      (FrameName(tasks[i].index), RenderFrame(tasks[i].slots, fetch, b)))
  }

  /** Tasks with increasing indices write distinct files. */
  lemma DistinctWrites(tasks: seq<Task>, b: Box, fetch: Fetcher)
    requires IsRect(b) && AllFetchable(tasks, fetch) && Increasing(tasks)
    ensures var w := Writes(tasks, b, fetch);
      forall p, p' :: 0 <= p < p' < |w| ==> w[p].0 != w[p'].0
  {
    forall p, p' | 0 <= p < p' < |tasks|
      ensures FrameName(tasks[p].index) != FrameName(tasks[p'].index)
    {
      FrameNameInjective(tasks[p].index, tasks[p'].index);
    }
  }

  /** Every frame of the run is fetchable. */
  predicate FramesFetchable(urls: seq<seq<Slot>>, fetch: Fetcher) {
    forall n :: 0 <= n < |urls| ==> |urls[n]| >= TileCount && FetchesTiles(urls[n], fetch)
  }

  /** The image directory after a run over urls: reset unless keep, then
      the pending frames written from their masked slots. */
  function TimelapseFiles(files: map<string, Image>, urls: seq<seq<Slot>>, keep: bool, b: Box, fetch: Fetcher): map<string, Image>
    requires IsRect(b) && FramesFetchable(urls, fetch)
  {
    var tasks := Pending(urls, files.Keys, keep, |urls|);
    PendingSpec(urls, files.Keys, keep, |urls|);
    MaskedFetchable(tasks, b, fetch);
    Written(if keep then files else map[], Writes(MaskAll(tasks, b), b, fetch))
  }

  lemma MaskedFetchable(tasks: seq<Task>, b: Box, fetch: Fetcher)
    requires IsRect(b) && SixSlots(tasks) && AllFetchable(tasks, fetch)
    ensures AllFetchable(MaskAll(tasks, b), fetch) && SixSlots(MaskAll(tasks, b))
    ensures Increasing(tasks) ==> Increasing(MaskAll(tasks, b))
  {
    forall i | 0 <= i < |tasks|
      ensures FetchesTiles(MaskAll(tasks, b)[i].slots, fetch)
    {
      MaskPreservesFrame(tasks[i].slots, fetch, b);
    }
  }

  /** After a run every frame's file exists. A frame that was built holds
      the frame of its full, unmasked slots; with keep every file that
      already existed is left exactly as it was; and the directory holds
      nothing else. */
  lemma TimelapseOutcome(files: map<string, Image>, urls: seq<seq<Slot>>, keep: bool, b: Box, fetch: Fetcher)
    requires IsRect(b) && FramesFetchable(urls, fetch)
    ensures var r := TimelapseFiles(files, urls, keep, b, fetch);
      (forall n :: 0 <= n < |urls| ==> FrameName(n) in r) &&
      (forall n :: 0 <= n < |urls| && !(keep && FrameName(n) in files) ==>
        r[FrameName(n)] == RenderFrame(urls[n], fetch, b)) &&
      (keep ==> forall name :: name in files ==> name in r && r[name] == files[name]) &&
      (forall name :: name in r ==>
        (keep && name in files) || exists n :: 0 <= n < |urls| && name == FrameName(n))
  {
    TimelapseBuildsPending(files, urls, keep, b, fetch);
    TimelapseKeepsExisting(files, urls, keep, b, fetch);
    TimelapseWritesOnlyFrames(files, urls, keep, b, fetch);
  }

  /** Every frame that was pending holds the frame of its unmasked slots. */
  lemma TimelapseBuildsPending(files: map<string, Image>, urls: seq<seq<Slot>>, keep: bool, b: Box, fetch: Fetcher)
    requires IsRect(b) && FramesFetchable(urls, fetch)
    ensures var r := TimelapseFiles(files, urls, keep, b, fetch);
      forall n :: 0 <= n < |urls| && !(keep && FrameName(n) in files) ==>
        FrameName(n) in r && r[FrameName(n)] == RenderFrame(urls[n], fetch, b)
  {
    var tasks := Pending(urls, files.Keys, keep, |urls|);
    PendingSpec(urls, files.Keys, keep, |urls|);
    MaskedFetchable(tasks, b, fetch);
    var masked := MaskAll(tasks, b);
    var w := Writes(masked, b, fetch);
    DistinctWrites(masked, b, fetch);
    forall n | 0 <= n < |urls| && !(keep && FrameName(n) in files)
      ensures FrameName(n) in Written(if keep then files else map[], w)
      ensures Written(if keep then files else map[], w)[FrameName(n)] == RenderFrame(urls[n], fetch, b)
    {
      assert Task(n, urls[n]) in tasks;
      var q :| 0 <= q < |tasks| && tasks[q] == Task(n, urls[n]);
      WrittenAt(if keep then files else map[], w, q);
      MaskPreservesFrame(urls[n], fetch, b);
    }
  }

  /** With keep, files that already existed are neither rewritten nor lost. */
  lemma TimelapseKeepsExisting(files: map<string, Image>, urls: seq<seq<Slot>>, keep: bool, b: Box, fetch: Fetcher)
    requires IsRect(b) && FramesFetchable(urls, fetch)
    ensures var r := TimelapseFiles(files, urls, keep, b, fetch);
      keep ==> forall name :: name in files ==> name in r && r[name] == files[name]
  {
    var tasks := Pending(urls, files.Keys, keep, |urls|);
    PendingSpec(urls, files.Keys, keep, |urls|);
    MaskedFetchable(tasks, b, fetch);
    var w := Writes(MaskAll(tasks, b), b, fetch);
    if keep {
      forall name | name in files
        ensures name in Written(files, w) && Written(files, w)[name] == files[name]
      {
        forall i | 0 <= i < |w|
          ensures w[i].0 != name
        {
          assert tasks[i] in tasks;
        }
        WrittenElsewhere(files, w, name);
      }
    }
  }

  /** Besides files kept from before, the directory holds frame files only. */
  lemma TimelapseWritesOnlyFrames(files: map<string, Image>, urls: seq<seq<Slot>>, keep: bool, b: Box, fetch: Fetcher)
    requires IsRect(b) && FramesFetchable(urls, fetch)
    ensures var r := TimelapseFiles(files, urls, keep, b, fetch);
      forall name :: name in r ==>
        (keep && name in files) || exists n :: 0 <= n < |urls| && name == FrameName(n)
  {
    var tasks := Pending(urls, files.Keys, keep, |urls|);
    PendingSpec(urls, files.Keys, keep, |urls|);
    MaskedFetchable(tasks, b, fetch);
    var base: map<string, Image> := if keep then files else map[];
    var w := Writes(MaskAll(tasks, b), b, fetch);
    forall name | name in Written(base, w) && !(keep && name in files)
      ensures exists n :: 0 <= n < |urls| && name == FrameName(n)
    {
      if forall i :: 0 <= i < |w| ==> w[i].0 != name {
        WrittenElsewhere(base, w, name);
        assert false;
      }
      var i :| 0 <= i < |w| && w[i].0 == name;
      assert tasks[i] in tasks;
    }
  }

  /** A second run with keep over a finished directory builds nothing and
      changes nothing. */
  lemma ResumeAfterRunIsNoOp(files: map<string, Image>, urls: seq<seq<Slot>>, keep: bool, b: Box, fetch: Fetcher)
    requires IsRect(b) && FramesFetchable(urls, fetch)
    ensures var r := TimelapseFiles(files, urls, keep, b, fetch);
      Pending(urls, r.Keys, true, |urls|) == [] &&
      TimelapseFiles(r, urls, true, b, fetch) == r
  {
    var r := TimelapseFiles(files, urls, keep, b, fetch);
    TimelapseOutcome(files, urls, keep, b, fetch);
    NothingPending(urls, r.Keys, |urls|);
  }

  /** Builds the images directory for urls: resets it unless keep, lists
      the pending frames, masks their slots, then builds each frame in turn. */
  method Timelapse(b: Box, urls: seq<seq<Slot>>, keep: bool, fetch: Fetcher, dir: ImageDir)
    requires IsRect(b) && FramesFetchable(urls, fetch)
    modifies dir
    ensures dir.files == TimelapseFiles(old(dir.files), urls, keep, b, fetch)
  {
    ghost var before := dir.files;
    if !keep {
      dir.Reset();
    }
    var tasks := PendingTasks(urls, dir.files.Keys, keep);
    if !keep {
      PendingAll(urls, dir.files.Keys, |urls|);
      PendingAll(urls, before.Keys, |urls|);
    }
    assert tasks == Pending(urls, before.Keys, keep, |urls|);
    PendingSpec(urls, before.Keys, keep, |urls|);
    var masked := MaskTasks(b, tasks);
    MaskedFetchable(tasks, b, fetch);

    BuildFrames(masked, b, fetch, dir);
  }

  /** Builds the frames of the tasks one after the other (the source fans
      them out over a worker pool; each writes only its own file). */
  method BuildFrames(tasks: seq<Task>, b: Box, fetch: Fetcher, dir: ImageDir)
    requires IsRect(b) && AllFetchable(tasks, fetch)
    modifies dir
    ensures dir.files == Written(old(dir.files), Writes(tasks, b, fetch))
  {
    ghost var writes := Writes(tasks, b, fetch);
    var i := 0;
    while i < |tasks|
      invariant 0 <= i <= |tasks|
      invariant dir.files == Written(old(dir.files), writes[..i])
    {
      GetCanvasFrame(tasks[i], b, fetch, dir);
      assert writes[i] == (FrameName(tasks[i].index), RenderFrame(tasks[i].slots, fetch, b));
      assert writes[..i + 1][..i] == writes[..i];
      i := i + 1;
    }
    assert writes[..|tasks|] == writes;
  }

  /** The whole run: normalize the corners, collect the frame URL records
      from the table, and build the images directory; a missing table row
      aborts before the directory is touched. */
  method Run(top: int, left: int, bottom: int, right: int, start: int, end: int,
             frameskip: int, keep: bool, table: seq<TableRow>, fetch: Fetcher, dir: ImageDir)
    returns (res: Result<seq<seq<Slot>>>)
    requires frameskip > 0
    requires Ordered(FixCoords(top, left, bottom, right))
    requires forall i :: 0 <= i < |table| ==>
      |table[i].slots| >= TileCount && FetchesTiles(table[i].slots, fetch)
    modifies dir
    ensures var times := FrameTimes(start, end, frameskip);
      res.Ok? <==> forall k :: 0 <= k < |times| ==> Lookup(table, times[k]).Some?
    ensures var times := FrameTimes(start, end, frameskip);
      res.Ok? ==> (|res.value| == |times| &&
        forall k :: 0 <= k < |times| ==> Lookup(table, times[k]) == Some(res.value[k]))
    ensures res.Err? ==> dir.files == old(dir.files)
    ensures res.Ok? ==> (FramesFetchable(res.value, fetch) &&
      dir.files == TimelapseFiles(old(dir.files), res.value, keep, FixCoords(top, left, bottom, right), fetch))
  {
    var b := FixCoords(top, left, bottom, right);
    FixCoordsOrderedIff(top, left, bottom, right);
    res := CollectFrameUrls(start, end, frameskip, table);
    if res.Ok? {
      forall n | 0 <= n < |res.value|
        ensures |res.value[n]| >= TileCount && FetchesTiles(res.value[n], fetch)
      {
        LookupInTable(table, FrameTimes(start, end, frameskip)[n]);
      }
      Timelapse(b, res.value, keep, fetch, dir);
    }
  }

  lemma LookupInTable(table: seq<TableRow>, t: int)
    requires Lookup(table, t).Some?
    ensures exists i :: 0 <= i < |table| && Lookup(table, t).value == table[i].slots
  {
  }
}
