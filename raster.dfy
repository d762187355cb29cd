/** RGB raster images and the two image-library operations the frame
    builder relies on: pasting an image onto a canvas and cropping a box. */
module Raster {

  newtype byte = x: int | 0 <= x < 256

  datatype Pixel = RGB(r: byte, g: byte, b: byte)

  const White: Pixel := RGB(255, 255, 255)

  /** An image as its rows of pixels, top row first. */
  type Image = seq<seq<Pixel>>

  predicate IsImage(img: Image, width: int, height: int) {
    |img| == height && forall j :: 0 <= j < height ==> |img[j]| == width
  }

  /** A canvas tile: exactly 1000 x 1000 pixels. */
  predicate IsTile(img: Image) {
    IsImage(img, 1000, 1000)
  }

  /** Pastes a tile with its top-left corner at column ox, row oy of the
      canvas (indexed [row, column]). Parts falling off the canvas are
      dropped; every other canvas pixel keeps its value. */
  method Paste(canvas: array2<Pixel>, tile: Image, ox: nat, oy: nat)
    requires IsTile(tile)
    modifies canvas
    ensures forall r, c :: 0 <= r < canvas.Length0 && 0 <= c < canvas.Length1 ==>
      canvas[r, c] == if oy <= r < oy + 1000 && ox <= c < ox + 1000
                      then tile[r - oy][c - ox] else old(canvas[r, c])
  {
    forall r, c | 0 <= r < canvas.Length0 && 0 <= c < canvas.Length1 &&
                  oy <= r < oy + 1000 && ox <= c < ox + 1000
    {
      canvas[r, c] := tile[r - oy][c - ox];
    }
  }

  /** The half-open box [left, right) x [top, bottom) of the canvas, as a
      new image of right - left columns and bottom - top rows. */
  function Crop(canvas: array2<Pixel>, left: int, top: int, right: int, bottom: int): (img: Image)
    reads canvas
    requires 0 <= left <= right <= canvas.Length1 && 0 <= top <= bottom <= canvas.Length0
    ensures IsImage(img, right - left, bottom - top)
    ensures forall j, i :: 0 <= j < bottom - top && 0 <= i < right - left ==>
      img[j][i] == canvas[top + j, left + i]
  {
    seq(bottom - top, j requires 0 <= j < bottom - top reads canvas =>
      seq(right - left, i requires 0 <= i < right - left reads canvas => canvas[top + j, left + i]))
  }
}
