/** The raster surface the grid generator draws on.

    The host editor's "select a rectangle, then fill the selection" pair is
    collapsed into one FillOp value; a Layer is a pixel buffer that applies
    FillOps in place and keeps the list of fills it has received. */
module Raster {

  /** A colour, treated as an opaque token: channel ranges and precision
      play no part in the geometry. */
  datatype Color = Rgb(red: int, green: int, blue: int)

  /** One pixel of a layer: either fully transparent or a solid colour. */
  datatype Pixel = Transparent | Opaque(color: Color)

  /** Overwrite every pixel of the rectangle whose top-left corner is
      (x, y) and whose size is w by h with `paint`. */
  datatype FillOp = FillOp(x: int, y: int, w: int, h: int, paint: Pixel)

  predicate Covers(op: FillOp, px: int, py: int)
  {
    op.x <= px < op.x + op.w && op.y <= py < op.y + op.h
  }

  /** Some fill of `ops` covers the pixel (px, py). */
  predicate CoveredBy(ops: seq<FillOp>, px: int, py: int)
  {
    exists k | 0 <= k < |ops| :: Covers(ops[k], px, py)
  }

  /** The rectangle lies inside a width-by-height canvas and is not empty. */
  predicate Inside(op: FillOp, width: int, height: int)
  {
    0 <= op.x && 0 < op.w && op.x + op.w <= width &&
    0 <= op.y && 0 < op.h && op.y + op.h <= height
  }

  /** The fill that paints a whole width-by-height layer. */
  function WholeLayer(width: int, height: int, paint: Pixel): (op: FillOp)
    ensures forall px, py | 0 <= px < width && 0 <= py < height :: Covers(op, px, py)
  {
    FillOp(0, 0, width, height, paint)
  }

  /** The pixel (px, py) of a layer that starts transparent and then
      receives the fills `ops` in order: the last fill covering the pixel
      decides it. Whatever it shows was painted there by one of the fills. */
  function Rendered(ops: seq<FillOp>, px: int, py: int): (r: Pixel)
    ensures r == Transparent || exists k | 0 <= k < |ops| :: Covers(ops[k], px, py) && ops[k].paint == r
    ensures !CoveredBy(ops, px, py) ==> r == Transparent
  {
    if ops == [] then Transparent
    else
      var last := ops[|ops| - 1];
      if Covers(last, px, py) then last.paint
      else
        var earlier := ops[..|ops| - 1];
        assert forall k | 0 <= k < |earlier| :: earlier[k] == ops[k];
        Rendered(earlier, px, py)
  }

  lemma CoveredByAppend(a: seq<FillOp>, b: seq<FillOp>, px: int, py: int)
    ensures CoveredBy(a + b, px, py) <==> CoveredBy(a, px, py) || CoveredBy(b, px, py)
  {
    if CoveredBy(a, px, py) {
      var k :| 0 <= k < |a| && Covers(a[k], px, py);
      assert (a + b)[k] == a[k];
    }
    if CoveredBy(b, px, py) {
      var k :| 0 <= k < |b| && Covers(b[k], px, py);
      assert (a + b)[|a| + k] == b[k];
    }
    if CoveredBy(a + b, px, py) {
      var k :| 0 <= k < |a + b| && Covers((a + b)[k], px, py);
      if k >= |a| { assert b[k - |a|] == (a + b)[k]; }
    }
  }

  /** When every fill of `ops` uses the same paint, applying them after
      `pre` paints exactly the pixels they cover and leaves the rest as
      `pre` left them. */
  lemma {:induction false} RenderedUniform(pre: seq<FillOp>, ops: seq<FillOp>, paint: Pixel, px: int, py: int)
    requires forall k | 0 <= k < |ops| :: ops[k].paint == paint
    ensures Rendered(pre + ops, px, py) == if CoveredBy(ops, px, py) then paint else Rendered(pre, px, py)
  {
    if ops == [] {
      assert pre + ops == pre;
    } else {
      var n := |ops| - 1;
      var all := pre + ops;
      assert all[..|all| - 1] == pre + ops[..n];
      assert all[|all| - 1] == ops[n];
      RenderedUniform(pre, ops[..n], paint, px, py);
      CoveredByAppend(ops[..n], [ops[n]], px, py);
      assert ops[..n] + [ops[n]] == ops;
    }
  }

  /** Clamp a coordinate into 0..bound. */
  function Clamp(v: int, bound: nat): (r: nat)
    ensures r <= bound
    ensures 0 <= v <= bound ==> r == v
  {
    if v < 0 then 0 else if v > bound then bound else v
  }

  /** A raster layer: a width-by-height buffer of pixels, indexed
      pixels[x, y] with the origin at the top-left corner. The ghost field
      `fills` is the abstract history: the fills issued on the layer so
      far, in order. */
  class Layer {
    const name: string
    const width: nat
    const height: nat
    const hasAlpha: bool
    const pixels: array2<Pixel>
    ghost var fills: seq<FillOp>

    /** The buffer has the layer's size and shows what its fills drew. */
    ghost predicate Valid()
      reads this, pixels
    {
      pixels.Length0 == width && pixels.Length1 == height &&
      forall px, py | 0 <= px < width && 0 <= py < height :: pixels[px, py] == Rendered(fills, px, py)
    }

    constructor (name: string, width: nat, height: nat, hasAlpha: bool)
      ensures Valid() && fresh(pixels)
      ensures this.name == name && this.width == width && this.height == height
      ensures this.hasAlpha == hasAlpha && fills == []
    {
      this.name := name;
      this.width := width;
      this.height := height;
      this.hasAlpha := hasAlpha;
      pixels := new Pixel[width, height]((px, py) => Transparent);
      fills := [];
    }

    /** Overwrite the part of `op`'s rectangle that lies on the layer with
        `op.paint`; every other pixel keeps its value. */
    method Fill(op: FillOp)
      requires Valid()
      modifies this, pixels
      ensures Valid()
      ensures fills == old(fills) + [op]
      ensures forall px, py | 0 <= px < width && 0 <= py < height ::
                pixels[px, py] == if Covers(op, px, py) then op.paint else old(pixels[px, py])
    {
      var x0 := Clamp(op.x, width);
      var x1 := Clamp(op.x + op.w, width);
      if x1 < x0 { x1 := x0; }
      var y0 := Clamp(op.y, height);
      var y1 := Clamp(op.y + op.h, height);
      if y1 < y0 { y1 := y0; }
      var a := x0;
      while a < x1
        modifies pixels
        invariant x0 <= a <= x1
        invariant forall px, py | 0 <= px < width && 0 <= py < height ::
                    pixels[px, py] == if x0 <= px < a && y0 <= py < y1 then op.paint else old(pixels[px, py])
      {
        var b := y0;
        while b < y1
          modifies pixels
          invariant y0 <= b <= y1
          invariant forall px, py | 0 <= px < width && 0 <= py < height ::
                      pixels[px, py] == if (x0 <= px < a && y0 <= py < y1) || (px == a && y0 <= py < b)
                                        then op.paint else old(pixels[px, py])
        {
          pixels[a, b] := op.paint;
          b := b + 1;
        }
        a := a + 1;
      }
      ghost var before := fills;
      fills := fills + [op];
      assert fills[..|fills| - 1] == before;
    }
  }
}
