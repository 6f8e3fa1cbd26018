# Grid generator model

A Dafny model of `create_grid_with_background`, the one function of the GIMP
"Grid Generator" plug-in. Given a line thickness, a number of columns and
rows, two colours, a cell width and height and a flag for a background
layer, it checks the sizes and counts, computes the canvas size, creates the
image with an optional opaque background layer below a transparent grid
layer, and paints the grid layer with a fixed sequence of rectangle fills:
`rows + 1` horizontal lines top to bottom, `cols + 1` vertical lines left to
right, then the top, bottom, left and right border strips.

Two modules:

- `Raster` (raster.dfy) stands in for the editor's drawing calls. A
  "select rectangle, then fill" pair is one `FillOp` value. A `Layer` is a
  class over an `array2<Pixel>` buffer; its `Fill` method overwrites the
  part of a rectangle that lies on the layer, in place, with two nested
  loops, and appends the fill to the layer's ghost `fills` history. `Rendered(ops, x, y)`
  is the reference meaning of a fill sequence (the last fill covering a
  pixel decides it), and `Layer.Valid()` ties the buffer to it.
- `GridGen` (grid_gen.dfy) holds the parameters (`GridSpec`), the two
  validation checks, the canvas arithmetic, the band geometry, the ordered
  list of grid fills (`GridFills`), the `Image` class with its layer stack
  (bottom first), `DrawGrid` (the two loops and the four border fills) and
  `Generate` (the whole function).

The main results: every grid fill lies on the canvas, the borders are the
first and last lines again so redrawing them changes no pixel, and after
`Generate` a grid-layer pixel `(x, y)` is painted with the grid colour
exactly when `y mod (cellHeight + thickness) < thickness` or
`x mod (cellWidth + thickness) < thickness`, and is transparent otherwise.

The source checks the signs of the raw parameter values and converts them
with `int()` only afterwards (grid_gen.py:22-35). The model follows the
code's order and takes integers, for which converting first and checking
second would give the same result.

## Model

| member | source | states |
|---|---|---|
| `GridGen.Validate` | grid_gen.py:22-28 | Accepted exactly when thickness, cell width, cell height, columns and rows are all positive; a non-positive size gives InvalidDimension even when the counts are also bad; InvalidCount exactly when the sizes are fine and a count is not |
| `GridGen.Extent` | grid_gen.py:38-39 | definition: the size along one axis of `n` cells of `cell` pixels with `t`-pixel lines, `cell*n + t*(n+1)` |
| `GridGen.CanvasWidth` | grid_gen.py:38 | definition: the image width `cellWidth*cols + thickness*(cols+1)` |
| `GridGen.CanvasHeight` | grid_gen.py:39 | definition: the image height `cellHeight*rows + thickness*(rows+1)` |
| `GridGen.HorizontalBand` | grid_gen.py:59-61 | definition: horizontal line `i` is the rectangle `(0, i*(cellHeight+thickness), width, thickness)` filled with the grid colour |
| `GridGen.VerticalBand` | grid_gen.py:64-66 | definition: vertical line `j` is the rectangle `(j*(cellWidth+thickness), 0, thickness, height)` filled with the grid colour |
| `GridGen.LineFills` | grid_gen.py:58-66 | definition: horizontal lines `0..rows` top to bottom, then vertical lines `0..cols` left to right |
| `GridGen.Borders` | grid_gen.py:69-76 | definition: the border strips top `(0, 0, width, thickness)`, bottom `(0, height-thickness, width, thickness)`, left `(0, 0, thickness, height)`, right `(width-thickness, 0, thickness, height)`, in that order, in the grid colour |
| `Raster.WholeLayer` | grid_gen.py:49-54 | the whole-layer fill (background colour or transparent) covers every pixel of a width-by-height layer |
| `GridGen.ExtentLayout` | grid_gen.py:38-39 | the canvas extent `cell*n + t*(n+1)` equals `n` periods of `cell + t` plus one closing line, and exceeds one cell plus one line |
| `GridGen.CanvasPositive` | grid_gen.py:38-39 | for valid parameters the canvas width and height are strictly positive |
| `GridGen.GridFills` | grid_gen.py:58-76 | the grid layer receives exactly `rows + cols + 6` fills, every one inside the canvas and non-empty, all in the grid colour |
| `GridGen.BandsInside` | grid_gen.py:58-66 | each of the `rows + 1` horizontal and `cols + 1` vertical lines lies inside the canvas; the last one ends exactly at the edge |
| `GridGen.BordersInside` | grid_gen.py:68-76 | the four border strips lie inside the canvas |
| `GridGen.BordersRepeatEdgeLines` | grid_gen.py:58-76 | top border = horizontal line 0, bottom border (at height - thickness) = horizontal line `rows`, left = vertical line 0, right (at width - thickness) = vertical line `cols` |
| `GridGen.BorderRedrawInvisible` | grid_gen.py:68-76 | whatever the layer held before, drawing the lines and then the border leaves every pixel as the lines alone leave it |
| `GridGen.AxisLines` | grid_gen.py:58-66 | along one axis, a coordinate inside the canvas lies on one of the `n + 1` lines exactly when its offset in its period is below the thickness |
| `GridGen.QuotientInRange` | grid_gen.py:58-66 | a coordinate on a line lies in one of the periods `0..n`, so no line beyond the last is needed |
| `GridGen.PeriodOffset` | grid_gen.py:59 | a coordinate `i*(cell + t) + d` with `d` below the period has period index `i` and offset `d` |
| `GridGen.GridCoverage` | grid_gen.py:58-76 | a canvas pixel is covered by some grid-layer fill exactly when it lies on a grid line |
| `GridGen.GridLayerPixel` | grid_gen.py:52-76 | after the transparent clear and all grid fills, a canvas pixel is the grid colour exactly on grid lines and transparent elsewhere |
| `GridGen.DrawGrid` | grid_gen.py:58-76 | the loops and border fills issue exactly `GridFills` on the grid layer, in order, and keep the layer's buffer equal to what those fills draw |
| `GridGen.Generate` | grid_gen.py:20-78 | invalid parameters give the error `Validate` names and no image; otherwise a fresh image of the computed size with 2 layers (background at the bottom, entirely the background colour) or 1, whose top layer is the grid layer, cleared and then painted exactly on the grid lines |
| `GridGen.Image.constructor` | grid_gen.py:42 | a new image has the given size and no layers |
| `GridGen.Image.AddLayer` | grid_gen.py:47 | the layer is placed on top of the stack and the rest of the stack is unchanged |
| `Raster.Layer.constructor` | grid_gen.py:52 | a new layer has the given name, size and alpha flag, a fresh buffer, no fills yet, and is consistent with them |
| `Raster.Layer.Fill` | grid_gen.py:60-61 | exactly the layer pixels inside the rectangle take the fill's paint, every other pixel keeps its value, and the fill is appended to the layer's log |
| `Raster.Rendered` | grid_gen.py:58-76 | a pixel after a fill sequence is transparent or the paint of some fill covering it, and is transparent when no fill covers it |
| `Raster.RenderedUniform` | grid_gen.py:55-76 | fills that all use one paint set exactly the pixels they cover to that paint and leave the others as before |
| `Raster.CoveredByAppend` | grid_gen.py:58-76 | a pixel is covered by two fill lists one after the other exactly when it is covered by one of them |

## Left out

- Host object creation and drawing calls (`gimp.Image`, `gimp.Layer`, `add_layer`, `gimp_rect_select`, `gimp_edit_fill`, `gimp_drawable_fill`) are modelled by the `Image` and `Layer` classes and `FillOp`, not by the editor's selection machinery; the feather and radius arguments are always off and have no counterpart.
- `Image.AddLayer` always stacks on top. The source passes position -1 for the background and 0 for the grid; since the background is added to an empty stack and the grid after it, both give background at the bottom and grid on top, which is what the model states.
- The ambient foreground and background colours (`gimp.set_background`, `gimp.set_foreground`) become explicit paints in each `FillOp`.
- The final `gimp_selection_none`, the display and the flush (grid_gen.py:78-82) have no effect on the layers and are not modelled.
- The user messages of `pdb.gimp_message` (grid_gen.py:23, 27) are returned as the `InvalidDimension` and `InvalidCount` errors.
- Plug-in registration, widget kinds, spinner ranges and default values (grid_gen.py:84-117) are host glue.
- Colour channels are opaque values: precision and the fractional default background colour are not modelled.
- The `int()` truncation of fractional inputs (grid_gen.py:31-35) is not modelled: parameters are integers.
- GridGen.Generate: the host's limit on image size is not modelled. `gimp.Image` (grid_gen.py:42) refuses sides beyond the host's maximum (524288 pixels), and thickness, columns and rows are unbounded integers (grid_gen.py:104-106), so a very large grid (thickness 1, 300000 columns of width 1, giving width 600001) ends in a host exception in the source, while the model still returns an image for every positive parameter set.
- What a freshly created layer holds before its first fill is taken to be transparent; both layers are filled over their whole area before use, so no result depends on it.
