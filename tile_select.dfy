/** Choosing which of the six tiles a bounding rectangle needs, and blanking
    the URL slots of all the others before anything is fetched. */
module TileSelect {
  import opened Records
  import opened Geometry

  /** The tiles under the four corners, in the order the source visits them. */
  function CornerTiles(b: Box): seq<int> {
    [TileIndex(b.x1, b.y1), TileIndex(b.x1, b.y2), TileIndex(b.x2, b.y1), TileIndex(b.x2, b.y2)]
  }

  /** The tile mask: a corner's tile is marked; the middle tile of a row is
      marked as well when both end tiles of that row are. */
  function Mask(b: Box): (m: seq<bool>)
    ensures |m| == TileCount
  {
    Bridged(Marked(b))
  }

  /** The tiles under some corner. */
  function Marked(b: Box): (c: seq<bool>)
    ensures |c| == TileCount
  {
    seq(TileCount, i => i in CornerTiles(b))
  }

  /** Adds the middle tile of each row whose two end tiles are marked. */
  function Bridged(c: seq<bool>): (m: seq<bool>)
    requires |c| == TileCount
    ensures |m| == TileCount
  {
    c[1 := c[1] || (c[0] && c[2])][4 := c[4] || (c[3] && c[5])]
  }

  /** The slots with every tile the mask leaves unmarked set to None;
      slots past the sixth are kept. */
  function Masked(urls: seq<Slot>, m: seq<bool>): (r: seq<Slot>)
    requires |m| == TileCount
    ensures |r| == |urls|
    ensures forall n :: 0 <= n < |urls| ==> r[n] == if n < TileCount && !m[n] then None else urls[n]
  {
    seq(|urls|, n requires 0 <= n < |urls| => if n < TileCount && !m[n] then None else urls[n])
  }

  /** Returns a copy of urls keeping only the slots of the tiles the
      rectangle needs; the input sequence is a value and stays as it was. */
  method OptimiseCanvasFetch(b: Box, urls: seq<Slot>) returns (r: seq<Slot>)
    requires CornersInCanvas(b)
    requires |urls| >= TileCount
    ensures r == Masked(urls, Mask(b))
  {
    var areas := seq(TileCount, _ => false);
    var corners := [(b.x1, b.y1), (b.x1, b.y2), (b.x2, b.y1), (b.x2, b.y2)];
    ghost var tiles := CornerTiles(b);
    var k := 0;
    while k < 4
      invariant 0 <= k <= 4 && |areas| == TileCount
      invariant forall i :: 0 <= i < TileCount ==> areas[i] == (i in tiles[..k])
    {
      var (x, y) := corners[k];
      var idx := TileIndex(x, y);
      assert tiles[..k + 1] == tiles[..k] + [idx];
      areas := areas[idx := true];
      k := k + 1;
    }
    assert tiles[..4] == tiles;
    assert areas == Marked(b);
    if areas[0] && areas[2] {
      areas := areas[1 := true];
    }
    if areas[3] && areas[5] {
      areas := areas[4 := true];
    }
    assert areas == Mask(b);

    r := urls;
    var n := 0;
    while n < TileCount
      invariant 0 <= n <= TileCount && |r| == |urls|
      invariant forall i :: 0 <= i < |urls| ==> r[i] == if i < n && !areas[i] then None else urls[i]
    {
      if !areas[n] {
        r := r[n := None];
      }
      n := n + 1;
    }
  }

  /** The masked slots of an ordered in-canvas rectangle are the original
      slots of the tiles it overlaps and None for all others. */
  lemma MaskedKeepsOverlapping(b: Box, urls: seq<Slot>)
    requires IsRect(b) && |urls| >= TileCount
    ensures forall n :: 0 <= n < TileCount ==>
      Masked(urls, Mask(b))[n] == if Overlaps(n, b) then urls[n] else None
  {
    MaskIsExact(b);
  }

  /** For an ordered in-canvas rectangle the mask marks exactly the tiles the
      rectangle overlaps: none it needs is missed, none it misses is kept. */
  lemma MaskIsExact(b: Box)
    requires IsRect(b)
    ensures forall i :: 0 <= i < TileCount ==> (Mask(b)[i] <==> Overlaps(i, b))
  {
    var c1, c2 := Column(b.x1), Column(b.x2);
    var r1, r2 := Row(b.y1), Row(b.y2);
    ColumnBounds(b.x1); ColumnBounds(b.x2);
    RowBounds(b.y1); RowBounds(b.y2);
    assert CornerTiles(b) == [c1 + 3 * r1, c1 + 3 * r2, c2 + 3 * r1, c2 + 3 * r2];
    GridMask(c1, c2, r1, r2);
    forall i | 0 <= i < TileCount
      ensures Overlaps(i, b) <==> InGrid(i, c1, c2, r1, r2)
    {
      assert 0 <= i % 3 < 3 && 0 <= i / 3 < 2;
    }
  }

  /** Tile i lies in columns c1..c2 and rows r1..r2 of the tile grid. */
  predicate InGrid(i: int, c1: int, c2: int, r1: int, r2: int) {
    c1 <= i % 3 <= c2 && r1 <= i / 3 <= r2
  }

  /** The mask built from four corner tiles of a grid block, with bridging,
      is the whole block. */
  lemma GridMask(c1: int, c2: int, r1: int, r2: int)
    requires 0 <= c1 <= c2 < 3 && 0 <= r1 <= r2 < 2
    ensures var c := seq(TileCount, i => i in [c1 + 3 * r1, c1 + 3 * r2, c2 + 3 * r1, c2 + 3 * r2]);
      var m := c[1 := c[1] || (c[0] && c[2])][4 := c[4] || (c[3] && c[5])];
      forall i :: 0 <= i < TileCount ==> (m[i] <==> InGrid(i, c1, c2, r1, r2))
  {
    var corners := [c1 + 3 * r1, c1 + 3 * r2, c2 + 3 * r1, c2 + 3 * r2];
    var c := seq(TileCount, i => i in corners);
    var m := c[1 := c[1] || (c[0] && c[2])][4 := c[4] || (c[3] && c[5])];
    forall i | 0 <= i < TileCount
      ensures m[i] <==> InGrid(i, c1, c2, r1, r2)
    {
      if i == 0 { } else if i == 1 { } else if i == 2 { }
      else if i == 3 { } else if i == 4 { } else { }
    }
  }

  /** Masking a second time changes nothing. */
  lemma MaskedIdempotent(urls: seq<Slot>, m: seq<bool>)
    requires |m| == TileCount
    ensures Masked(Masked(urls, m), m) == Masked(urls, m)
  {
  }

  /** A rectangle inside a single tile needs that tile alone. */
  lemma SingleTileRect(b: Box, t: int)
    requires IsRect(b) && 0 <= t < TileCount
    requires TileIndex(b.x1, b.y1) == t && TileIndex(b.x2, b.y2) == t
    ensures forall i :: 0 <= i < TileCount ==> (Mask(b)[i] <==> i == t)
  {
    MaskIsExact(b);
    TileIndexContains(b.x1, b.y1);
    TileIndexContains(b.x2, b.y2);
    forall i | 0 <= i < TileCount
      ensures Overlaps(i, b) <==> i == t
    {
      assert TileLeft(t) <= b.x1 && b.x2 < TileLeft(t) + TileSize;
      assert TileTop(t) <= b.y1 && b.y2 < TileTop(t) + TileSize;
      if i != t {
        assert i % 3 != t % 3 || i / 3 != t / 3;
      }
    }
  }

  /** The rectangle (-1500, -1000) .. (-1, -1) reaches into the middle
      column, so it needs tiles 0 and 1. */
  lemma TopLeftQuarterMask()
    ensures Mask(Box(-1500, -1000, -1, -1)) == [true, true, false, false, false, false]
  {
    var b := Box(-1500, -1000, -1, -1);
    assert CornerTiles(b) == [0, 0, 1, 1];
  }

  /** A small box around the origin lies in the middle column: tiles 1 and 4. */
  lemma OriginBoxMask()
    ensures Mask(Box(-10, -10, 10, 10)) == [false, true, false, false, true, false]
  {
    var b := Box(-10, -10, 10, 10);
    assert CornerTiles(b) == [1, 4, 1, 4];
  }

  /** A full-width strip of the top row needs the whole top row, the middle
      tile coming from the bridging rule alone. */
  lemma BridgedTopRow()
    ensures CornerTiles(Box(-1500, -1000, 1499, -1)) == [0, 0, 2, 2]
    ensures Mask(Box(-1500, -1000, 1499, -1)) == [true, true, true, false, false, false]
  {
  }
}
