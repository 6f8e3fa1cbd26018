/** The grid generator: from a line thickness, column and row counts and a
    cell size, build an image holding an optional solid background layer
    and a transparent grid layer on which every cell boundary, outer edges
    included, is drawn as an opaque band `thickness` pixels wide. */
module GridGen {
  import opened Raster

  /** The generator's parameters, in the order the plug-in receives them.
      `cellWidth` and `cellHeight` are the size of one grid cell. */
  datatype GridSpec = GridSpec(
    thickness: int,
    cols: int,
    rows: int,
    gridColor: Color,
    cellWidth: int,
    cellHeight: int,
    bgColor: Color,
    includeBg: bool)

  datatype GridError =
    | InvalidDimension  // thickness, cell width or cell height not positive
    | InvalidCount      // number of columns or rows not positive

  datatype Validation = Accepted | Rejected(error: GridError)

  predicate DimensionsPositive(s: GridSpec)
  {
    s.thickness > 0 && s.cellWidth > 0 && s.cellHeight > 0
  }

  predicate CountsPositive(s: GridSpec)
  {
    s.cols > 0 && s.rows > 0
  }

  predicate WellFormed(s: GridSpec)
  {
    DimensionsPositive(s) && CountsPositive(s)
  }

  /** The two checks at the top of the generator, in their order: the
      sizes are checked first, so a bad size is reported even when the
      counts are bad too. */
  function Validate(s: GridSpec): (v: Validation)
    ensures v == Accepted <==> WellFormed(s)
    ensures v == Rejected(InvalidDimension) <==> !DimensionsPositive(s)
    ensures v == Rejected(InvalidCount) <==> DimensionsPositive(s) && !CountsPositive(s)
  {
    if s.thickness <= 0 || s.cellWidth <= 0 || s.cellHeight <= 0 then Rejected(InvalidDimension)
    else if s.cols <= 0 || s.rows <= 0 then Rejected(InvalidCount)
    else Accepted
  }

  /** The canvas size along one axis: n cells of `cell` pixels with a line
      of `t` pixels before each cell and one after the last. */
  function Extent(cell: int, t: int, n: int): (r: int)
  {
    cell * n + t * (n + 1)
  }

  function CanvasWidth(s: GridSpec): (r: int)
  {
    Extent(s.cellWidth, s.thickness, s.cols)
  }

  function CanvasHeight(s: GridSpec): (r: int)
  {
    Extent(s.cellHeight, s.thickness, s.rows)
  }

  /** The extent is n steps of one cell plus one line, and a closing line:
      the line after the n-th cell ends exactly at the canvas edge. */
  lemma ExtentLayout(cell: int, t: int, n: int)
    requires cell > 0 && t > 0 && n > 0
    ensures Extent(cell, t, n) == n * (cell + t) + t
    ensures Extent(cell, t, n) > t + cell
  {
    assert n * (cell + t) >= cell + t by { StepsAtLeastOne(n, cell + t); }
  }

  /** A whole number of steps is either zero or at least one step long. */
  lemma StepsAtLeastOne(n: int, step: int)
    requires step > 0
    ensures n >= 1 ==> n * step >= step
    ensures n <= -1 ==> n * step <= -step
  {
  }

  /** For valid parameters both canvas sides are positive. */
  lemma CanvasPositive(s: GridSpec)
    requires WellFormed(s)
    ensures CanvasWidth(s) > 0 && CanvasHeight(s) > 0
  {
    ExtentLayout(s.cellWidth, s.thickness, s.cols);
    ExtentLayout(s.cellHeight, s.thickness, s.rows);
  }

  /** The i-th horizontal line: full canvas width, `thickness` tall, one
      cell height plus one line below the previous one. */
  function HorizontalBand(s: GridSpec, i: int): (op: FillOp)
  {
    FillOp(0, i * (s.cellHeight + s.thickness), CanvasWidth(s), s.thickness, Opaque(s.gridColor))
  }

  /** The j-th vertical line: full canvas height, `thickness` wide. */
  function VerticalBand(s: GridSpec, j: int): (op: FillOp)
  {
    FillOp(j * (s.cellWidth + s.thickness), 0, s.thickness, CanvasHeight(s), Opaque(s.gridColor))
  }

  /** The four border strips, in the order top, bottom, left, right. */
  function Borders(s: GridSpec): (ops: seq<FillOp>)
  {
    var w, h, t, ink := CanvasWidth(s), CanvasHeight(s), s.thickness, Opaque(s.gridColor);
    [FillOp(0, 0, w, t, ink), FillOp(0, h - t, w, t, ink), FillOp(0, 0, t, h, ink), FillOp(w - t, 0, t, h, ink)]
  }

  /** The line fills: rows + 1 horizontal lines from top to bottom, then
      cols + 1 vertical lines from left to right. */
  function LineFills(s: GridSpec): (ops: seq<FillOp>)
    requires WellFormed(s)
  {
    seq(s.rows + 1, i => HorizontalBand(s, i)) + seq(s.cols + 1, j => VerticalBand(s, j))
  }

  /** Every fill issued on the grid layer, in order: the lines, then the
      border. There are rows + cols + 6 of them, all lie on the canvas and
      all paint the grid colour. */
  function GridFills(s: GridSpec): (ops: seq<FillOp>)
    requires WellFormed(s)
    ensures |ops| == s.rows + s.cols + 6
    ensures forall k | 0 <= k < |ops| :: Inside(ops[k], CanvasWidth(s), CanvasHeight(s))
    ensures forall k | 0 <= k < |ops| :: ops[k].paint == Opaque(s.gridColor)
  {
    BandsInside(s);
    BordersInside(s);
    LineFills(s) + Borders(s)
  }

  /** Every horizontal and vertical line lies on the canvas: the last one
      ends exactly at the canvas edge. */
  lemma BandsInside(s: GridSpec)
    requires WellFormed(s)
    ensures forall i | 0 <= i <= s.rows :: Inside(HorizontalBand(s, i), CanvasWidth(s), CanvasHeight(s))
    ensures forall j | 0 <= j <= s.cols :: Inside(VerticalBand(s, j), CanvasWidth(s), CanvasHeight(s))
    ensures HorizontalBand(s, s.rows).y + s.thickness == CanvasHeight(s)
    ensures VerticalBand(s, s.cols).x + s.thickness == CanvasWidth(s)
  {
    CanvasPositive(s);
    ExtentLayout(s.cellHeight, s.thickness, s.rows);
    ExtentLayout(s.cellWidth, s.thickness, s.cols);
    forall i | 0 <= i <= s.rows
      ensures Inside(HorizontalBand(s, i), CanvasWidth(s), CanvasHeight(s))
    {
      BandFits(i, s.rows, s.cellHeight, s.thickness);
    }
    forall j | 0 <= j <= s.cols
      ensures Inside(VerticalBand(s, j), CanvasWidth(s), CanvasHeight(s))
    {
      BandFits(j, s.cols, s.cellWidth, s.thickness);
    }
  }

  lemma BandFits(i: int, n: int, cell: int, t: int)
    requires cell > 0 && t > 0 && n > 0 && 0 <= i <= n
    ensures 0 <= i * (cell + t)
    ensures i * (cell + t) + t <= Extent(cell, t, n)
  {
    ExtentLayout(cell, t, n);
    assert (n - i) * (cell + t) >= 0;
    assert n * (cell + t) == i * (cell + t) + (n - i) * (cell + t);
  }

  lemma BordersInside(s: GridSpec)
    requires WellFormed(s)
    ensures forall k | 0 <= k < 4 :: Inside(Borders(s)[k], CanvasWidth(s), CanvasHeight(s))
  {
    ExtentLayout(s.cellWidth, s.thickness, s.cols);
    ExtentLayout(s.cellHeight, s.thickness, s.rows);
  }

  /** The border strips repeat lines already drawn: top is the first
      horizontal line, bottom the last one, left the first vertical line,
      right the last one. */
  lemma BordersRepeatEdgeLines(s: GridSpec)
    requires WellFormed(s)
    ensures Borders(s) == [HorizontalBand(s, 0), HorizontalBand(s, s.rows), VerticalBand(s, 0), VerticalBand(s, s.cols)]
  {
    ExtentLayout(s.cellWidth, s.thickness, s.cols);
    ExtentLayout(s.cellHeight, s.thickness, s.rows);
  }

  /** Redrawing the border changes no pixel: whatever the layer held
      before, the line fills followed by the border leave the same picture
      as the line fills alone. */
  lemma BorderRedrawInvisible(s: GridSpec, pre: seq<FillOp>, px: int, py: int)
    requires WellFormed(s)
    ensures Rendered(pre + GridFills(s), px, py) == Rendered(pre + LineFills(s), px, py)
  {
    var lines, borders := LineFills(s), Borders(s);
    var ink := Opaque(s.gridColor);
    assert GridFills(s) == lines + borders;
    assert forall k | 0 <= k < |lines| :: lines[k] == GridFills(s)[k];
    RenderedUniform(pre, GridFills(s), ink, px, py);
    RenderedUniform(pre, lines, ink, px, py);
    CoveredByAppend(lines, borders, px, py);
    if CoveredBy(borders, px, py) {
      BordersRepeatEdgeLines(s);
      var k :| 0 <= k < 4 && Covers(borders[k], px, py);
      var hs := s.rows + 1;
      var at := if k == 0 then 0 else if k == 1 then s.rows else if k == 2 then hs else hs + s.cols;
      assert lines[at] == borders[k];
    }
  }

  /** The pixel coordinate v lies on the i-th line of its axis. */
  predicate OnBand(v: int, i: int, cell: int, t: int)
  {
    i * (cell + t) <= v < i * (cell + t) + t
  }

  /** On an axis of n cells, a coordinate inside the canvas lies on one of
      the n + 1 lines exactly when its offset within its cell-plus-line
      period is less than the line thickness. */
  lemma {:induction false} AxisLines(n: int, cell: int, t: int, v: int)
    requires cell > 0 && t > 0 && n > 0 && 0 <= v < Extent(cell, t, n)
    ensures (exists i | 0 <= i <= n :: OnBand(v, i, cell, t)) <==> v % (cell + t) < t
  {
    var p := cell + t;
    var q, m := v / p, v % p;
    assert v == q * p + m && 0 <= m < p;
    ExtentLayout(cell, t, n);
    if m < t {
      QuotientInRange(v, p, n, t);
      assert OnBand(v, q, cell, t);
    }
    forall i | 0 <= i <= n && OnBand(v, i, cell, t)
      ensures m < t
    {
      PeriodOffset(v, i, p, v - i * p);
    }
  }

  /** A coordinate before the closing line's end whose offset in its
      period is under t lies in one of the periods 0..n. */
  lemma QuotientInRange(v: int, p: int, n: int, t: int)
    requires 0 < t < p && n >= 0 && 0 <= v < n * p + t && v % p < t
    ensures 0 <= v / p <= n
  {
    var q, m := v / p, v % p;
    assert v == q * p + m;
    StepsAtLeastOne(q, p);
    StepsAtLeastOne(q - n, p);
    assert q * p == n * p + (q - n) * p;
  }

  /** Euclidean division recovers the quotient and offset of v = i*p + d. */
  lemma PeriodOffset(v: int, i: int, p: int, d: int)
    requires p > 0 && 0 <= d < p && v == i * p + d
    ensures v / p == i && v % p == d
  {
    var q, m := v / p, v % p;
    assert v == q * p + m && 0 <= m < p;
    StepsAtLeastOne(q - i, p);
    assert q * p == i * p + (q - i) * p;
  }

  /** The pixel (px, py) lies on a grid line. */
  predicate OnGridLine(s: GridSpec, px: int, py: int)
    requires WellFormed(s)
  {
    py % (s.cellHeight + s.thickness) < s.thickness || px % (s.cellWidth + s.thickness) < s.thickness
  }

  /** A canvas pixel is covered by some grid-layer fill exactly when it
      lies on a grid line. */
  lemma GridCoverage(s: GridSpec, px: int, py: int)
    requires WellFormed(s)
    requires 0 <= px < CanvasWidth(s) && 0 <= py < CanvasHeight(s)
    ensures CoveredBy(GridFills(s), px, py) <==> OnGridLine(s, px, py)
  {
    var hs := seq(s.rows + 1, i => HorizontalBand(s, i));
    var vs := seq(s.cols + 1, j => VerticalBand(s, j));
    var borders := Borders(s);
    assert GridFills(s) == hs + vs + borders;
    CoveredByAppend(hs + vs, borders, px, py);
    CoveredByAppend(hs, vs, px, py);
    AxisLines(s.rows, s.cellHeight, s.thickness, py);
    AxisLines(s.cols, s.cellWidth, s.thickness, px);
    if CoveredBy(hs, px, py) {
      var k :| 0 <= k < |hs| && Covers(hs[k], px, py);
      assert OnBand(py, k, s.cellHeight, s.thickness);
    }
    if exists i | 0 <= i <= s.rows :: OnBand(py, i, s.cellHeight, s.thickness) {
      var i :| 0 <= i <= s.rows && OnBand(py, i, s.cellHeight, s.thickness);
      assert Covers(hs[i], px, py);
    }
    if CoveredBy(vs, px, py) {
      var k :| 0 <= k < |vs| && Covers(vs[k], px, py);
      assert OnBand(px, k, s.cellWidth, s.thickness);
    }
    if exists j | 0 <= j <= s.cols :: OnBand(px, j, s.cellWidth, s.thickness) {
      var j :| 0 <= j <= s.cols && OnBand(px, j, s.cellWidth, s.thickness);
      assert Covers(vs[j], px, py);
    }
    if CoveredBy(borders, px, py) {
      BordersRepeatEdgeLines(s);
      var k :| 0 <= k < 4 && Covers(borders[k], px, py);
      if k == 0 { assert Covers(hs[0], px, py); }
      else if k == 1 { assert Covers(hs[s.rows], px, py); }
      else if k == 2 { assert Covers(vs[0], px, py); }
      else { assert Covers(vs[s.cols], px, py); }
    }
  }

  /** After the grid layer is cleared to transparent and receives all grid
      fills, a canvas pixel shows the grid colour exactly when it lies on a
      grid line, and is transparent otherwise. */
  lemma GridLayerPixel(s: GridSpec, px: int, py: int)
    requires WellFormed(s)
    requires 0 <= px < CanvasWidth(s) && 0 <= py < CanvasHeight(s)
    ensures Rendered([WholeLayer(CanvasWidth(s), CanvasHeight(s), Transparent)] + GridFills(s), px, py)
            == if OnGridLine(s, px, py) then Opaque(s.gridColor) else Transparent
  {
    var clear := [WholeLayer(CanvasWidth(s), CanvasHeight(s), Transparent)];
    RenderedUniform(clear, GridFills(s), Opaque(s.gridColor), px, py);
    GridCoverage(s, px, py);
  }

  /** An image: a canvas size and a stack of layers, bottom first. */
  class Image {
    const width: nat
    const height: nat
    var layers: seq<Layer>

    constructor (width: nat, height: nat)
      ensures this.width == width && this.height == height && layers == []
    {
      this.width := width;
      this.height := height;
      layers := [];
    }

    /** Put `layer` on top of the stack. */
    method AddLayer(layer: Layer)
      modifies this
      ensures layers == old(layers) + [layer]
    {
      layers := layers + [layer];
    }
  }

  /** Draw the grid on `grid`: the horizontal lines from top to bottom, the
      vertical lines from left to right, then the four border strips. */
  method DrawGrid(s: GridSpec, grid: Layer)
    requires WellFormed(s) && grid.Valid()
    requires grid.width == CanvasWidth(s) && grid.height == CanvasHeight(s)
    modifies grid, grid.pixels
    ensures grid.Valid()
    ensures grid.fills == old(grid.fills) + GridFills(s)
  {
    var ink := Opaque(s.gridColor);
    ghost var cleared := grid.fills;
    var width, height := grid.width, grid.height;
    ghost var ops := GridFills(s);

    for i := 0 to s.rows + 1
      modifies grid, grid.pixels
      invariant grid.Valid()
      invariant grid.fills == cleared + ops[..i]
    {
      var yStart := i * (s.cellHeight + s.thickness);
      grid.Fill(FillOp(0, yStart, width, s.thickness, ink));
      assert ops[..i + 1] == ops[..i] + [ops[i]];
    }

    for j := 0 to s.cols + 1
      modifies grid, grid.pixels
      invariant grid.Valid()
      invariant grid.fills == cleared + ops[..s.rows + 1 + j]
    {
      var xStart := j * (s.cellWidth + s.thickness);
      grid.Fill(FillOp(xStart, 0, s.thickness, height, ink));
      assert ops[..s.rows + 2 + j] == ops[..s.rows + 1 + j] + [ops[s.rows + 1 + j]];
    }

    var n := s.rows + s.cols + 2;
    grid.Fill(FillOp(0, 0, width, s.thickness, ink));
    assert ops[..n + 1] == ops[..n] + [ops[n]];
    grid.Fill(FillOp(0, height - s.thickness, width, s.thickness, ink));
    assert ops[..n + 2] == ops[..n + 1] + [ops[n + 1]];
    grid.Fill(FillOp(0, 0, s.thickness, height, ink));
    assert ops[..n + 3] == ops[..n + 2] + [ops[n + 2]];
    grid.Fill(FillOp(width - s.thickness, 0, s.thickness, height, ink));
    assert ops[..n + 4] == ops[..n + 3] + [ops[n + 3]];
    assert ops[..n + 4] == ops;

  }

  datatype Outcome = Created(image: Image) | Failed(error: GridError)

  /** Build the grid image, or report which check the parameters fail. */
  method Generate(s: GridSpec) returns (r: Outcome)
    ensures r.Failed? <==> !WellFormed(s)
    ensures r.Failed? ==> Validate(s) == Rejected(r.error)
    ensures r.Created? ==>
      var img := r.image;
      fresh(img) &&
      img.width == CanvasWidth(s) && img.height == CanvasHeight(s) &&
      |img.layers| == (if s.includeBg then 2 else 1) &&
      (forall k | 0 <= k < |img.layers| ::
         fresh(img.layers[k]) && fresh(img.layers[k].pixels) && img.layers[k].Valid() &&
         img.layers[k].width == img.width && img.layers[k].height == img.height)
    ensures r.Created? ==>
      var img := r.image;
      var grid := img.layers[|img.layers| - 1];
      grid.name == "Grid" && grid.hasAlpha &&
      grid.fills == [WholeLayer(img.width, img.height, Transparent)] + GridFills(s) &&
      forall px, py | 0 <= px < img.width && 0 <= py < img.height ::
        grid.pixels[px, py] == if OnGridLine(s, px, py) then Opaque(s.gridColor) else Transparent
    ensures r.Created? && s.includeBg ==>
      var img := r.image;
      var bg := img.layers[0];
      bg.name == "Background" && !bg.hasAlpha && bg.pixels != img.layers[1].pixels &&
      bg.fills == [WholeLayer(img.width, img.height, Opaque(s.bgColor))] &&
      forall px, py | 0 <= px < img.width && 0 <= py < img.height :: bg.pixels[px, py] == Opaque(s.bgColor)
  {
    if s.thickness <= 0 || s.cellWidth <= 0 || s.cellHeight <= 0 {
      return Failed(InvalidDimension);
    }
    if s.cols <= 0 || s.rows <= 0 {
      return Failed(InvalidCount);
    }

    var width := s.cellWidth * s.cols + s.thickness * (s.cols + 1);
    var height := s.cellHeight * s.rows + s.thickness * (s.rows + 1);
    CanvasPositive(s);

    var image := new Image(width, height);

    if s.includeBg {
      var bg := new Layer("Background", width, height, false);
      image.AddLayer(bg);
      bg.Fill(WholeLayer(width, height, Opaque(s.bgColor)));
    }

    var grid := new Layer("Grid", width, height, true);
    image.AddLayer(grid);
    grid.Fill(WholeLayer(width, height, Transparent));
    DrawGrid(s, grid);

    ghost var drawn := [WholeLayer(CanvasWidth(s), CanvasHeight(s), Transparent)] + GridFills(s);
    assert grid.fills == drawn;
    forall px, py | 0 <= px < width && 0 <= py < height
      ensures grid.pixels[px, py] == if OnGridLine(s, px, py) then Opaque(s.gridColor) else Transparent
    {
      assert grid.pixels[px, py] == Rendered(drawn, px, py);
      GridLayerPixel(s, px, py);
    }
    r := Created(image);
  }
}
