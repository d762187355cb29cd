# r/place timelapse builder — Dafny model

This project models the frame-building core of the r/place 2023 timelapse
builder, `timelapse.py`. The canvas is a fixed 3000 x 2000 pixel plane with
its origin at the centre (x in [-1500, 1499], y in [-1000, 999]). It is split
into six 1000 x 1000 tiles, two rows of three, numbered row-major. For each
snapshot timestamp, a table row holds one URL fragment slot per tile.

The builder works in these steps:

- It normalizes the requested box (`fix_coords`).
- It picks the tiles the box needs and blanks the URL slots of all the
  others (`optimise_canvas_fetch`).
- For each frame, it fetches the remaining tiles, pastes them onto a white
  canvas at their fixed offsets, crops the box and writes the result as
  `<index:06>.png` (`get_canvas_frame`).
- It can resume an interrupted run by skipping frames whose file already
  exists.
- The frame timestamps come from clamping the requested range to the
  recorded window, aligning the start to the 10-second snapshot grid and
  stepping by the frame skip.

Modules, leaves first:

- `Records` (records.dfy): Option, the fault type, and the URL slot. A slot
  is fetched only when it holds a non-empty fragment, because the source
  tests the fragment's truthiness.
- `Geometry` (geometry.dfy): canvas bounds, `FixCoords`, the tile index
  formula and tile squares.
- `Raster` (raster.dfy): RGB pixels, images as rows, and the image-library
  paste and crop. The canvas is an `array2` that paste updates in place.
- `Output` (output.dfy): the zero-padded frame file name, and the images
  directory as a class whose `files` map is what the run writes.
- `TileSelect` (tile_select.dfy): the tile mask and `OptimiseCanvasFetch`.
  The `areas` list is a local sequence updated by index in one loop over
  the four corners and two bridging conditionals; a second loop blanks the
  dropped slots of the copy.
- `Frame` (frame.dfy): fetching, compositing, cropping and writing one
  frame (`GetCanvasFrame`).
- `Timestamps` (timestamps.dfy): clamp, alignment, the `range` of frame
  timestamps, and the first-match table lookup.
- `Driver` (driver.dfy): the resume filter, masking of every task, the
  sequential frame loop, and the top-level `Run`.

Points where the code behaves differently from what its names suggest; the
model follows the code:

- Reading column 1 as starting at x = 0 is wrong: it starts at x = -500.
  So the box (-1500, -1000, -1, -1) reaches into the middle column and
  needs tiles 0 and 1, not tile 0 alone (`TileSelect.TopLeftQuarterMask`).
- The box (-10, -10, 10, 10) lies in the middle column and needs tiles 1
  and 4, not tiles 0, 1, 3 and 4 (`TileSelect.OriginBoxMask`). Its frame is
  21 x 21 (`Frame.OriginBoxFrameSize`).
- Normalization does not always give an ordered box. Only the low corner is
  clamped from below and only the high corner from above, so a box wholly
  off the canvas comes out reversed (`Geometry.FixCoordsOffCanvasUnordered`).
- The start is only raised to the window's start, and the end is only
  lowered to the window's end.
- When several table rows carry a timestamp, the first one is used and no
  fault is raised. Only a missing row is a fault.
- The frame skip is not checked for a minimum or a multiple. The model
  requires it to be positive, because `range` with step 0 raises.

## Model

| member | source | states |
|---|---|---|
| Geometry.FixCoords | timelapse.py:91-104 | result bounded by x1 >= -1500, y1 >= -1000, x2 <= 1499, y2 <= 999; each low coordinate is max(min of inputs, lower bound), each high one is min(max of inputs, upper bound) |
| Geometry.FixCoordsOrderedIff | timelapse.py:91-104 | the normalized box is ordered iff, on each axis, the input span meets the canvas (min <= upper bound and max >= lower bound); ordered and in-canvas coincide |
| Geometry.FixCoordsAxisOrdered | timelapse.py:91-104 | per axis: x1 <= x2 after normalization iff min(x inputs) <= 1499 and max(x inputs) >= -1500, and likewise for y with 999 and -1000 |
| Geometry.FixCoordsKeepsRect | timelapse.py:91-104 | an ordered in-canvas box is returned unchanged |
| Geometry.FixCoordsIdempotent | timelapse.py:91-104 | normalizing an ordered result again changes nothing |
| Geometry.FixCoordsOffCanvasUnordered | timelapse.py:91-104 | x inputs 2000 and 3000 yield x1 = 2000 > x2 = 1499: the result is not always ordered |
| Geometry.TileIndex | timelapse.py:41 | for an in-canvas point the index lies in 0..5 |
| Geometry.TileIndexContains | timelapse.py:41 | for an in-canvas point, index % 3 is the column (x+1500)/1000 and index / 3 the row (y+1000)/1000, and the point lies in that tile's 1000 x 1000 square |
| Geometry.TilesDisjoint | timelapse.py:28 | two tile squares sharing a point are the same tile |
| Geometry.TileIndexOffCanvas | timelapse.py:41-42 | some off-canvas corners give indices outside 0..5 (6 and -1); others, such as (1500, -500), give an in-range index (3) of a tile that does not contain the point |
| TileSelect.OptimiseCanvasFetch | timelapse.py:33-53 | marks the corner tiles, bridges 0&2 to 1 and 3&5 to 4, and returns a copy of the slots equal to the masked slots (same length, kept slots unchanged, dropped slots None) |
| TileSelect.MaskIsExact | timelapse.py:36-47 | for an ordered in-canvas box, tile i is marked iff its square overlaps the box: no under-selection and no over-selection |
| TileSelect.MaskedKeepsOverlapping | timelapse.py:49-53 | the masked slots of a rectangle are the original slot for every overlapping tile and None for every other tile |
| TileSelect.MaskedIdempotent | timelapse.py:49-53 | masking twice equals masking once |
| TileSelect.SingleTileRect | timelapse.py:36-47 | a rectangle whose corners share one tile marks exactly that tile |
| TileSelect.TopLeftQuarterMask | timelapse.py:36-47 | (-1500,-1000,-1,-1) yields the mask [T,T,F,F,F,F] |
| TileSelect.OriginBoxMask | timelapse.py:36-47 | (-10,-10,10,10) yields the mask [F,T,F,F,T,F] |
| TileSelect.BridgedTopRow | timelapse.py:44-45 | a full-width top strip has corner tiles 0 and 2 only, and bridging adds tile 1 |
| Raster.Paste | timelapse.py:28 | pixels of the pasted tile's square (clipped to the canvas) take the tile's pixels; all other pixels are unchanged |
| Raster.Crop | timelapse.py:30 | the crop of [left,right) x [top,bottom) is a (right-left) x (bottom-top) image whose pixel (i,j) is canvas pixel (left+i, top+j) |
| Frame.FetchTiles | timelapse.py:17-24 | returns one entry per slot: the served image for slots holding a non-empty fragment, None for the rest |
| Frame.PasteRegion | timelapse.py:28 | the square tile n is pasted on holds exactly the canvas pixels with c/1000 + 3*(r/1000) == n, at offset (c%1000, r%1000) |
| Frame.Composite | timelapse.py:25-28 | every canvas pixel (c,r) is pixel (c%1000, r%1000) of tile c/1000 + 3*(r/1000) when that slot has an image, and white otherwise |
| Frame.CropBox | timelapse.py:30 | for an ordered in-canvas box the crop box lies within [0,3000] x [0,2000] and spans (x2-x1+1) x (y2-y1+1) |
| Frame.FrameOf | timelapse.py:30 | the frame of a rectangle is (x2-x1+1) wide and (y2-y1+1) high |
| Frame.FramePixelProvenance | timelapse.py:25-30 | frame pixel (i,j) is the pixel of tile TileIndex(x1+i, y1+j) at that point's offset inside the tile, or white when that slot is blank |
| Frame.OriginBoxFrameSize | timelapse.py:30 | the frame of (-10,-10,10,10) is 21 x 21 |
| Frame.MaskPreservesFrame | timelapse.py:33-53 | blanking the slots the mask drops never changes the frame of the rectangle |
| Frame.GetCanvasFrame | timelapse.py:15-31 | writes exactly one file, named by the padded index, holding the frame of the task's slots; nothing else in the directory changes |
| Output.FrameNameRoundTrip | timelapse.py:31 | the frame index can be read back from its `{n:06}.png` name |
| Output.FrameNameInjective | timelapse.py:66 | distinct indices never share a file name, so the existence test at line 66 tests the file written at line 31 |
| Output.FrameNameWidth | timelapse.py:31 | indices below 10^6 get six-digit names (ten characters with ".png") |
| Output.ImageDir.constructor | timelapse.py:57-58 | a freshly created images directory is empty |
| Output.ImageDir.Reset | timelapse.py:59-61 | removing and recreating the directory leaves it empty |
| Output.ImageDir.Save | timelapse.py:31 | saving sets exactly one file |
| Timestamps.AlignedStart | timelapse.py:140-144 | start >= 1689858232999, (start - 1689858232999) % 10000 == 0, and start <= clamped start < start + 10000 |
| Timestamps.RangeMembers | timelapse.py:149 | range(lo, hi, step) holds exactly the values lo <= t < hi with (t - lo) % step == 0 |
| Timestamps.FrameTimesSpec | timelapse.py:140-149 | frame n has timestamp start + n*frameskip*1000 <= clamped end, and the list stops only where the next step would pass the end |
| Timestamps.TwoFrameWindow | timelapse.py:140-149 | start 1689858232999, end 10000 ms later and frameskip 10 give exactly two timestamps |
| Timestamps.Lookup | timelapse.py:150-151 | None iff no row carries the timestamp; otherwise the slots of a matching row with no earlier match |
| Timestamps.LookupFindsFirst | timelapse.py:150-151 | when rows are duplicated, the first matching row wins |
| Timestamps.CollectFrameUrls | timelapse.py:140-151 | succeeds iff every frame timestamp has a row, then returning one record per timestamp in order; otherwise fails on the first missing timestamp |
| Driver.PendingSpec | timelapse.py:63-69 | a task is pending iff its index is in range, it carries urls[n], and (with keep) file n is absent; the tasks are in strictly ascending index order |
| Driver.PendingAll | timelapse.py:68-69 | without keep every index is pending, in order |
| Driver.NothingPending | timelapse.py:63-67 | with keep and every frame file present nothing is pending |
| Driver.PendingTasks | timelapse.py:63-69 | returns the pending tasks, testing each file under its frame name |
| Driver.MaskTasks | timelapse.py:71-72 | replaces each task's slots by their masked version, keeping indices and order |
| Driver.DistinctWrites | timelapse.py:31 | tasks with ascending indices write distinct files |
| Driver.TimelapseOutcome | timelapse.py:56-78 | after a run every frame file exists; built frames equal the frame of the unmasked slots; with keep existing files are untouched; nothing else is written |
| Driver.TimelapseBuildsPending | timelapse.py:63-78 | every pending frame's file holds the frame of its full slots |
| Driver.TimelapseKeepsExisting | timelapse.py:63-67 | with keep, every file present before keeps its content |
| Driver.TimelapseWritesOnlyFrames | timelapse.py:56-78 | besides kept files, the directory holds only frame files of the run |
| Driver.ResumeAfterRunIsNoOp | timelapse.py:63-67 | a resumed second run has no pending task (no fetch) and leaves the directory unchanged |
| Driver.Timelapse | timelapse.py:56-78 | the directory afterwards is the reset-or-kept directory with every pending masked task's frame written |
| Driver.BuildFrames | timelapse.py:75-78 | the tasks' frames are written one after the other |
| Driver.Run | timelapse.py:138-153 | fails iff a frame timestamp has no row, leaving the directory untouched; otherwise returns one slot record per frame timestamp, each the first matching table row's, and the directory is the run's outcome for the normalized box |

## Left out

- HTTP tile fetch (line 21) is a function parameter from (tile index, fragment) to image. Network failures are not modelled.
- PNG decoding, colour modes and encoding (lines 22, 31) are left out. Tiles are given as RGB pixel rows.
- Frame.GetCanvasFrame: requires every fetched tile to be exactly 1000 x 1000. Pasting images of other sizes, which could overlap, is not modelled.
- Frame.GetCanvasFrame: requires an ordered in-canvas box. A box reversed by two or more pixels on an axis makes the crop raise; one reversed by exactly one pixel (such as (1500, -500, 1499, -400)) yields an empty crop, and any failure comes only when it is saved (line 31). Neither case, nor padding off-canvas crops with black, is modelled.
- TileSelect.OptimiseCanvasFetch: requires in-canvas corners. Some off-canvas corners raise an IndexError or silently wrap a negative list index (line 42), and neither is modelled.
- TileSelect.OptimiseCanvasFetch: other off-canvas corners give an in-range index of the wrong tile without any error: `fix_coords(1500, -500, 1500, -400)` gives (1500, -500, 1499, -400), whose corners mark tiles 2 and 3 (`Geometry.TileIndexOffCanvas`). This silent mis-selection is not modelled.
- Driver.Run: requires the normalized box to be ordered, which by FixCoordsOrderedIff is the same as in-canvas. Runs over off-canvas boxes are not modelled.
- Driver.Run: requires frameskip > 0. The source does not check it: a zero step raises in `range`, and a negative step gives a descending list of timestamps when the start lies above the end. Neither is modelled.
- Driver.BuildFrames: the 16-worker pool and progress bar (lines 77-78) become a sequential loop. A failure of one worker aborting the pool is not modelled.
- ffmpeg encoding and removal of an old video (lines 80-88) call a foreign library.
- Argument parsing (lines 106-136) is left out. Its values are the parameters of Driver.Run.
- CSV reading (line 147) is left out. The table is a sequence of rows with a timestamp and slots.
- Directory creation and removal (lines 57-61) become the images directory's file map: Reset for the removal, and the empty map for a new directory.
- Progress printing is left out.
- scraper.py is not part of this model. It is a network polling loop that appends CSV rows.
- headers.py is not part of this model. It holds static request headers.
