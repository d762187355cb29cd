/** The canvas plane: 3000 x 2000 pixels with the origin at its centre,
    split into six 1000 x 1000 tiles, two rows of three, numbered row-major. */
module Geometry {

  const XMin: int := -1500
  const XMax: int := 1499
  const YMin: int := -1000
  const YMax: int := 999
  const TileSize: int := 1000
  const TileCount: int := 6

  /** A two-corner box in canvas coordinates (corners inclusive). */
  datatype Box = Box(x1: int, y1: int, x2: int, y2: int)

  predicate InCanvas(x: int, y: int) {
    XMin <= x <= XMax && YMin <= y <= YMax
  }

  predicate Ordered(b: Box) {
    b.x1 <= b.x2 && b.y1 <= b.y2
  }

  predicate CornersInCanvas(b: Box) {
    InCanvas(b.x1, b.y1) && InCanvas(b.x2, b.y2)
  }

  /** A well-formed bounding rectangle: ordered and inside the canvas. */
  predicate IsRect(b: Box) {
    Ordered(b) && CornersInCanvas(b)
  }

  function Min(a: int, b: int): int { if a <= b then a else b }
  function Max(a: int, b: int): int { if a <= b then b else a }

  /** Orders each axis of the box, then clamps only the low corner from below
      and the high corner from above. */
  function FixCoords(x1: int, y1: int, x2: int, y2: int): (b: Box)
    ensures XMin <= b.x1 && YMin <= b.y1 && b.x2 <= XMax && b.y2 <= YMax
    ensures b.x1 == Max(Min(x1, x2), XMin) && b.x2 == Min(Max(x1, x2), XMax)
    ensures b.y1 == Max(Min(y1, y2), YMin) && b.y2 == Min(Max(y1, y2), YMax)
  {
    var (lx, hx) := if x1 > x2 then (x2, x1) else (x1, x2);
    var (ly, hy) := if y1 > y2 then (y2, y1) else (y1, y2);
    Box(if lx < XMin then XMin else lx,
        if ly < YMin then YMin else ly,
        if hx > XMax then XMax else hx,
        if hy > YMax then YMax else hy)
  }

  /** The normalized box is ordered exactly when the input's span on each
      axis meets the canvas; in that case all four coordinates are inside. */
  lemma FixCoordsOrderedIff(x1: int, y1: int, x2: int, y2: int)
    ensures var b := FixCoords(x1, y1, x2, y2);
      Ordered(b) <==> (Min(x1, x2) <= XMax && Max(x1, x2) >= XMin &&
                       Min(y1, y2) <= YMax && Max(y1, y2) >= YMin)
    ensures IsRect(FixCoords(x1, y1, x2, y2)) <==> Ordered(FixCoords(x1, y1, x2, y2))
  {
    FixCoordsAxisOrdered(x1, y1, x2, y2);
  }

  /** Each axis on its own: its two normalized coordinates are ordered
      exactly when the input span on that axis meets the canvas. */
  lemma FixCoordsAxisOrdered(x1: int, y1: int, x2: int, y2: int)
    ensures var b := FixCoords(x1, y1, x2, y2);
      (b.x1 <= b.x2 <==> Min(x1, x2) <= XMax && Max(x1, x2) >= XMin) &&
      (b.y1 <= b.y2 <==> Min(y1, y2) <= YMax && Max(y1, y2) >= YMin)
  {
  }

  /** A box that is already an ordered in-canvas rectangle is left as it is. */
  lemma FixCoordsKeepsRect(b: Box)
    requires IsRect(b)
    ensures FixCoords(b.x1, b.y1, b.x2, b.y2) == b
  {
  }

  /** Normalizing twice is normalizing once. */
  lemma FixCoordsIdempotent(x1: int, y1: int, x2: int, y2: int)
    ensures var b := FixCoords(x1, y1, x2, y2);
      Ordered(b) ==> FixCoords(b.x1, b.y1, b.x2, b.y2) == b
  {
  }

  /** A box wholly right of the canvas is not ordered after normalization. */
  lemma FixCoordsOffCanvasUnordered()
    ensures FixCoords(2000, 0, 3000, 10).x1 == 2000
    ensures FixCoords(2000, 0, 3000, 10).x2 == 1499
  {
  }

  /** Left edge and top edge of tile i, in canvas coordinates. */
  function TileLeft(i: int): int { XMin + (i % 3) * TileSize }
  function TileTop(i: int): int { YMin + (i / 3) * TileSize }

  /** Whether tile i's 1000 x 1000 square meets the box. */
  predicate Overlaps(i: int, b: Box) {
    TileLeft(i) <= b.x2 && b.x1 <= TileLeft(i) + TileSize - 1 &&
    TileTop(i) <= b.y2 && b.y1 <= TileTop(i) + TileSize - 1
  }

  /** Column (0..2) and row (0..1) of a canvas coordinate. */
  function Column(x: int): int { (x + 1500) / 1000 }
  function Row(y: int): int { (y + 1000) / 1000 }

  /** The tile under the point (x, y); in range 0..5 for an in-canvas point. */
  function TileIndex(x: int, y: int): (i: int)
    ensures InCanvas(x, y) ==> 0 <= i < TileCount
  {
    ColumnBounds(x);
    RowBounds(y);
    Column(x) + Row(y) * 3
  }

  /** The index formula names, for an in-canvas point, the one tile whose
      square contains the point: column (x + 1500) / 1000 and row
      (y + 1000) / 1000. */
  lemma TileIndexContains(x: int, y: int)
    requires InCanvas(x, y)
    ensures var i := TileIndex(x, y);
      i % 3 == Column(x) && i / 3 == Row(y) &&
      TileLeft(i) <= x < TileLeft(i) + TileSize &&
      TileTop(i) <= y < TileTop(i) + TileSize
  {
    ColumnBounds(x);
    RowBounds(y);
  }

  /** Different tiles never share a point. */
  lemma TilesDisjoint(i: int, j: int, x: int, y: int)
    requires 0 <= i < TileCount && 0 <= j < TileCount
    requires TileLeft(i) <= x < TileLeft(i) + TileSize && TileTop(i) <= y < TileTop(i) + TileSize
    requires TileLeft(j) <= x < TileLeft(j) + TileSize && TileTop(j) <= y < TileTop(j) + TileSize
    ensures i == j
  {
    assert i == i % 3 + 3 * (i / 3) && j == j % 3 + 3 * (j / 3);
  }

  lemma ColumnBounds(x: int)
    ensures XMin <= x <= XMax ==>
      0 <= Column(x) < 3 && XMin + Column(x) * TileSize <= x < XMin + Column(x) * TileSize + TileSize
  {
  }

  lemma RowBounds(y: int)
    ensures YMin <= y <= YMax ==>
      0 <= Row(y) < 2 && YMin + Row(y) * TileSize <= y < YMin + Row(y) * TileSize + TileSize
  {
  }

  /** Some off-canvas corners give indices outside 0..5, on either side;
      others give an index inside 0..5 that names a tile not under the
      point: (1500, -500) lies right of tile 2, yet its index is 3. */
  lemma TileIndexOffCanvas()
    ensures TileIndex(1500, 999) == 6
    ensures TileIndex(-1501, -1000) == -1
    ensures TileIndex(1500, -500) == 3 && !(TileLeft(3) <= 1500 < TileLeft(3) + TileSize)
  {
  }
}
