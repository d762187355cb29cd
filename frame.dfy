/** Building one frame: fetch the selected tiles, paste them onto a white
    3000 x 2000 canvas at their fixed offsets, crop the bounding rectangle and
    write the result under the frame's file name. */
module Frame {
  import opened Records
  import opened Geometry
  import opened Raster
  import opened Output
  import opened TileSelect

  /** One unit of work: a frame index and its six tile URL slots. */
  datatype Task = Task(index: nat, slots: seq<Slot>)

  /** The tile image server: the image served for a tile index and a URL
      fragment. */
  type Fetcher = (nat, string) -> Image

  const CanvasWidth: int := 3000
  const CanvasHeight: int := 2000

  /** Every slot that will be fetched is served as a 1000 x 1000 tile. */
  predicate FetchesTiles(slots: seq<Slot>, fetch: Fetcher) {
    forall n :: 0 <= n < |slots| && HasUrl(slots[n]) ==> IsTile(fetch(n, slots[n].value))
  }

  predicate TilesWellFormed(tiles: seq<Option<Image>>) {
    forall n :: 0 <= n < |tiles| && tiles[n].Some? ==> IsTile(tiles[n].value)
  }

  /** What fetching yields per slot: the served image, or None for a blank slot. */
  function Fetched(slots: seq<Slot>, fetch: Fetcher): (tiles: seq<Option<Image>>)
    ensures |tiles| == |slots|
  {
    seq(|slots|, n requires 0 <= n < |slots| =>
      if HasUrl(slots[n]) then Some(fetch(n, slots[n].value)) else None)
  }

  lemma FetchedWellFormed(slots: seq<Slot>, fetch: Fetcher)
    requires FetchesTiles(slots, fetch)
    ensures TilesWellFormed(Fetched(slots, fetch))
  {
  }

  /** Requests exactly the slots that hold a fragment, in index order. */
  method FetchTiles(slots: seq<Slot>, fetch: Fetcher) returns (tiles: seq<Option<Image>>)
    requires FetchesTiles(slots, fetch)
    ensures tiles == Fetched(slots, fetch)
    ensures TilesWellFormed(tiles)
  {
    tiles := [];
    var n := 0;
    while n < |slots|
      invariant 0 <= n <= |slots|
      invariant tiles == Fetched(slots, fetch)[..n]
    {
      if HasUrl(slots[n]) {
        tiles := tiles + [Some(fetch(n, slots[n].value))];
      } else {
        tiles := tiles + [None];
      }
      n := n + 1;
    }
  }

  /** Canvas pixel (c, r) once tiles 0 .. k-1 have been pasted. */
  function PastedPixel(tiles: seq<Option<Image>>, k: int, c: int, r: int): Pixel
    requires TilesWellFormed(tiles)
    requires 0 <= c < CanvasWidth && 0 <= r < CanvasHeight
  {
    var n := c / 1000 + 3 * (r / 1000);
    if n < k && n < |tiles| && tiles[n].Some? then tiles[n].value[r % 1000][c % 1000] else White
  }

  /** Canvas pixel (c, r) of the finished composite. */
  function CompositePixel(tiles: seq<Option<Image>>, c: int, r: int): Pixel
    requires TilesWellFormed(tiles)
    requires 0 <= c < CanvasWidth && 0 <= r < CanvasHeight
  {
    PastedPixel(tiles, |tiles|, c, r)
  }

  lemma DivBand(x: int, q: int)
    requires 0 <= x
    ensures (q * 1000 <= x < q * 1000 + 1000) <==> x / 1000 == q
  {
  }

  /** The square a tile is pasted on holds exactly the canvas pixels whose
      index formula names that tile, at offset (c % 1000, r % 1000). */
  lemma PasteRegion(n: nat, c: int, r: int)
    requires 0 <= c < CanvasWidth && 0 <= r < CanvasHeight
    ensures ((n / 3) * 1000 <= r < (n / 3) * 1000 + 1000 && (n % 3) * 1000 <= c < (n % 3) * 1000 + 1000)
            <==> n == c / 1000 + 3 * (r / 1000)
    ensures n == c / 1000 + 3 * (r / 1000) ==>
      r - (n / 3) * 1000 == r % 1000 && c - (n % 3) * 1000 == c % 1000
  {
    var cc, rr := c / 1000, r / 1000;
    assert 0 <= cc < 3 && 0 <= rr < 2;
    DivBand(r, n / 3);
    DivBand(c, n % 3);
    assert n == n % 3 + 3 * (n / 3);
    if n == cc + 3 * rr {
      assert n % 3 == cc && n / 3 == rr;
    }
  }

  /** Pastes the present tiles in index order onto a white canvas; each
      composite pixel comes from the one tile whose square contains it,
      or is white when that slot is blank. */
  method Composite(tiles: seq<Option<Image>>) returns (canvas: array2<Pixel>)
    requires TilesWellFormed(tiles)
    ensures fresh(canvas)
    ensures canvas.Length0 == CanvasHeight && canvas.Length1 == CanvasWidth
    ensures forall r, c :: 0 <= r < CanvasHeight && 0 <= c < CanvasWidth ==>
      canvas[r, c] == CompositePixel(tiles, c, r)
  {
    canvas := new Pixel[CanvasHeight, CanvasWidth]((r, c) => White);
    var n := 0;
    while n < |tiles|
      invariant 0 <= n <= |tiles|
      invariant canvas.Length0 == CanvasHeight && canvas.Length1 == CanvasWidth
      invariant forall r, c :: 0 <= r < CanvasHeight && 0 <= c < CanvasWidth ==>
        canvas[r, c] == PastedPixel(tiles, n, c, r)
    {
      label before:
      if tiles[n].Some? {
        Paste(canvas, tiles[n].value, (n % 3) * 1000, (n / 3) * 1000);
      }
      forall r, c | 0 <= r < CanvasHeight && 0 <= c < CanvasWidth
        ensures canvas[r, c] == PastedPixel(tiles, n + 1, c, r)
      {
        assert old@before(canvas[r, c]) == PastedPixel(tiles, n, c, r);
        PasteRegion(n, c, r);
      }
      n := n + 1;
    }
  }

  /** The crop box of a rectangle in canvas pixel coordinates, half-open on
      the right and bottom; for a rectangle it lies inside the canvas and
      spans the rectangle's width and height inclusive. */
  function CropBox(b: Box): (box: (int, int, int, int))
    ensures IsRect(b) ==>
      0 <= box.0 < box.2 <= CanvasWidth && 0 <= box.1 < box.3 <= CanvasHeight &&
      box.2 - box.0 == b.x2 - b.x1 + 1 && box.3 - box.1 == b.y2 - b.y1 + 1
  {
    (b.x1 + 1500, b.y1 + 1000, b.x2 + 1500 + 1, b.y2 + 1000 + 1)
  }

  /** The frame a rectangle cuts out of the composite of the given tiles. */
  function FrameOf(tiles: seq<Option<Image>>, b: Box): (img: Image)
    requires TilesWellFormed(tiles) && IsRect(b)
    ensures IsImage(img, b.x2 - b.x1 + 1, b.y2 - b.y1 + 1)
  {
    seq(b.y2 - b.y1 + 1, j requires 0 <= j < b.y2 - b.y1 + 1 =>
      seq(b.x2 - b.x1 + 1, i requires 0 <= i < b.x2 - b.x1 + 1 =>
        CompositePixel(tiles, b.x1 + 1500 + i, b.y1 + 1000 + j)))
  }

  /** Frame pixel (i, j) shows canvas point (x1 + i, y1 + j): the pixel of
      the tile the index formula assigns to that point, at the point's offset
      inside that tile (whose square contains the point, TileIndexContains),
      or white when that tile's slot is blank. */
  lemma FramePixelProvenance(tiles: seq<Option<Image>>, b: Box, i: int, j: int)
    requires TilesWellFormed(tiles) && IsRect(b)
    requires 0 <= i <= b.x2 - b.x1 && 0 <= j <= b.y2 - b.y1
    ensures var x, y := b.x1 + i, b.y1 + j;
      var n := TileIndex(x, y);
      FrameOf(tiles, b)[j][i] ==
        if n < |tiles| && tiles[n].Some? then tiles[n].value[(y - YMin) % 1000][(x - XMin) % 1000] else White
  {
    var x, y := b.x1 + i, b.y1 + j;
    var c, r := x + 1500, y + 1000;
    var n := TileIndex(x, y);
    assert n == c / 1000 + 3 * (r / 1000);
    TileIndexContains(x, y);
    PasteRegion(n, c, r);
    assert FrameOf(tiles, b)[j][i] == CompositePixel(tiles, c, r);
  }

  /** Frame size: one pixel per coordinate of the rectangle, both ends included. */
  lemma OriginBoxFrameSize(tiles: seq<Option<Image>>)
    requires TilesWellFormed(tiles)
    ensures |FrameOf(tiles, Box(-10, -10, 10, 10))| == 21
    ensures |FrameOf(tiles, Box(-10, -10, 10, 10))[0]| == 21
  {
  }

  /** Blanking the slots the mask drops never changes the frame: every
      pixel inside the rectangle comes from a tile the mask keeps. */
  lemma MaskPreservesFrame(slots: seq<Slot>, fetch: Fetcher, b: Box)
    requires IsRect(b) && |slots| >= TileCount && FetchesTiles(slots, fetch)
    ensures FetchesTiles(Masked(slots, Mask(b)), fetch)
    ensures FrameOf(Fetched(Masked(slots, Mask(b)), fetch), b) == FrameOf(Fetched(slots, fetch), b)
  {
    var masked := Masked(slots, Mask(b));
    assert FetchesTiles(masked, fetch);
    var full, kept := Fetched(slots, fetch), Fetched(masked, fetch);
    FetchedWellFormed(slots, fetch);
    FetchedWellFormed(masked, fetch);
    var mine, theirs := FrameOf(kept, b), FrameOf(full, b);
    forall j | 0 <= j < |mine|
      ensures mine[j] == theirs[j]
    {
      forall i | 0 <= i < |mine[j]|
        ensures mine[j][i] == theirs[j][i]
      {
        MaskKeepsPixelTile(slots, fetch, b, i, j);
        FramePixelProvenance(kept, b, i, j);
        FramePixelProvenance(full, b, i, j);
      }
    }
  }

  /** The tile under any point of the rectangle survives masking. */
  lemma MaskKeepsPixelTile(slots: seq<Slot>, fetch: Fetcher, b: Box, i: int, j: int)
    requires IsRect(b) && |slots| >= TileCount
    requires 0 <= i <= b.x2 - b.x1 && 0 <= j <= b.y2 - b.y1
    ensures var n := TileIndex(b.x1 + i, b.y1 + j);
      0 <= n < TileCount && Fetched(Masked(slots, Mask(b)), fetch)[n] == Fetched(slots, fetch)[n]
  {
    var x, y := b.x1 + i, b.y1 + j;
    var n := TileIndex(x, y);
    TileIndexContains(x, y);
    assert Overlaps(n, b);
    MaskIsExact(b);
    assert Masked(slots, Mask(b))[n] == slots[n];
  }

  /** The frame a task renders to. */
  function RenderFrame(slots: seq<Slot>, fetch: Fetcher, b: Box): Image
    requires IsRect(b) && FetchesTiles(slots, fetch)
  {
    FrameOf(Fetched(slots, fetch), b)
  }

  /** Fetches, composites and crops one frame, then writes it under the
      six-digit name of its index; no other file changes. */
  method GetCanvasFrame(task: Task, b: Box, fetch: Fetcher, dir: ImageDir)
    requires IsRect(b) && FetchesTiles(task.slots, fetch)
    modifies dir
    ensures dir.files == old(dir.files)[FrameName(task.index) := RenderFrame(task.slots, fetch, b)]
  {
    var tiles := FetchTiles(task.slots, fetch);
    var canvas := Composite(tiles);
    var (left, top, right, bottom) := CropBox(b);
    var frame := Crop(canvas, left, top, right, bottom);
    assert frame == FrameOf(tiles, b) by {
      var expected := FrameOf(tiles, b);
      forall j | 0 <= j < |frame|
        ensures frame[j] == expected[j]
      {
      }
    }
    dir.Save(FrameName(task.index), frame);
  }
}
