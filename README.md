# Flood region-of-interest tools — a verified Dafny model

This project models the bookkeeping and geometry around the region-of-interest
tools of a flood-speed analysis application built on an external optical-flow
engine:

- the **flood polygon analyzer** (`FloodPolygonAnalyzer`): a draw mode
  (polygon or circle), a polygon being drawn, a pending circle centre and two
  stacks of finished shapes. Mouse clicks and releases, the mode selector and
  "Clear Last" change them. The shapes are saved to and loaded from a record;
- the **containment tests** behind its flow analysis: the crossing-parity
  (ray-casting) point-in-polygon test, the point-in-circle test, the "inside
  any shape" test (polygons first, then circles), and the loop that keeps only
  the velocity samples lying inside some shape;
- the analyzer's **small numeric rules**: shoelace polygon area, the number of
  frame pairs to process, the highlight-circle radius clamp, the top-five
  count and the speed colour of an exported arrow;
- the speed GUI's **mask drawer** (`MaskDrawer`): a height x width byte mask,
  the clicked vertices, the Enter/ESC rule of its polygon loop and the
  rectangle fill;
- the speed GUI's **per-step speed records**, and the frame shown for a time
  step.

Coordinates are exact `real`s. The point-in-circle test is the one comparison
on a square root that the model makes on squares. `distance <= radius` becomes
`radius >= 0 && dx²+dy² <= radius²`, which gives the same verdict for every
radius, negative ones included (`Geometry.InCircleIsDistanceTest`).
Three other comparisons stay on values that come from a square root. Each such
value is a given real:
- The circle-release test `radius > 5` uses a radius the caller passes in. The
  caller guarantees that `radius >= 0` and that its square is the squared
  distance. `PolygonAnalyzer.ReleaseCommitsLargeCircles` proves the test is the
  same as `dx²+dy² > 25`.
- The neighbour test `0 < dist < 100` uses given distances.
- The arrow-colour buckets use a given magnitude.

Files, one module each: `optional.dfy` (Option), `statistics.dfy` (sum, mean,
max, min, population variance), `geometry.dfy`, `shape_filter.dfy`,
`metrics.dfy`, `polygon_analyzer.dfy`, `mask_drawer.dfy`,
`speed_statistics.dfy`.

State that the source changes in place is modelled by classes:
`PolygonAnalyzer.FloodPolygonAnalyzer`, `MaskDrawing.MaskDrawer` (its mask is
an `array2<int>` that the methods replace and fill) and
`SpeedStatistics.FloodSpeedGui`. The analyzer's methods are proved against
pure transition functions, and the properties are lemmas about those
functions. The speed GUI's methods are proved against the per-step record
function. The mask drawer's mouse callback is proved against the click rule
`AfterMouse`. Its polygon loop is proved against a replay function over its
inputs. Its rectangle fill is specified cell by cell: the new mask is
255 exactly inside the clipped rectangle.
The ray-casting test, the inside-any-shape scan and the filter are methods
with loops, each proved against a specification function.

In the following places the code behaves in a way one might not expect. The
model follows the code:

- The ray-casting loop runs `n + 1` times. Its first step looks at the
  degenerate edge from vertex 0 to itself, which never toggles.
- A horizontal edge never passes the two height tests, so the division that
  gives the crossing abscissa is only evaluated for slanted edges
  (`Geometry.HorizontalEdgeNeverCrosses`). The source keeps `xinters` from one
  iteration to the next. The model makes it local to the edge test, because a
  value from an earlier edge is never read.
- The boundary rule is half-open. A point on a square's lower side is
  outside; a point on its upper side is inside (`Geometry.UnitSquareBoundaries`).
- Reading the first vertex of an empty polygon fails. The filter loop catches
  that failure and skips the sample, even when the sample lies in a circle.
  `ShapeFilter.PolygonScan` returns `None` for this case. Polygons drawn with
  the mouse always have at least three vertices
  (`PolygonAnalyzer.EditingKeepsShapesDrawable`), so only a loaded record can
  cause it.
- The shoelace area slices the coordinate columns of the vertex array. For a
  loaded polygon with no vertices this raises an error, and nothing catches
  it. `Geometry.PolygonArea` therefore requires at least one vertex.
- Loading does not check the record. A coordinate list without exactly two
  entries breaks the later containment tests, so `LoadShapes` requires
  two-entry coordinates.

## Model

| member | source | states |
|---|---|---|
| Geometry.PointInPolygon | flood_polygon_analyzer.py:367-385 | the ray-casting loop returns the parity of the edges (including the closing edge) that satisfy the crossing condition |
| Geometry.EdgeToggles | flood_polygon_analyzer.py:376-382 | the nested tests on one edge toggle exactly when the edge satisfies the crossing condition |
| Geometry.HorizontalEdgeNeverCrosses | flood_polygon_analyzer.py:375-380 | a horizontal edge never toggles, so the crossing abscissa is only computed when p1y != p2y |
| Geometry.OutsideWhenNotAboveAnyVertex | flood_polygon_analyzer.py:367-385 | a point whose y is <= every vertex y is reported outside |
| Geometry.OutsideWhenAboveEveryVertex | flood_polygon_analyzer.py:367-385 | a point whose y is > every vertex y is reported outside |
| Geometry.OutsideWhenRightOfEveryVertex | flood_polygon_analyzer.py:367-385 | a point whose x is > every vertex x is reported outside |
| Geometry.UnitSquareBoundaries | flood_polygon_analyzer.py:367-385 | on the unit square: the centre is inside, a point on the lower side is outside, a point on the upper side is inside |
| Geometry.InCircle | flood_polygon_analyzer.py:387-393 | a negative radius contains nothing; a non-negative radius contains its centre |
| Geometry.InCircleIsDistanceTest | flood_polygon_analyzer.py:387-393 | the squared test holds iff the Euclidean distance is <= the radius (boundary inside) |
| Geometry.SquareMonotone | flood_polygon_analyzer.py:391-393 | for non-negative values, comparing distances is comparing their squares |
| Geometry.PolygonArea | flood_polygon_analyzer.py:604-608 | the shoelace area of a polygon with at least one vertex is never negative |
| Geometry.DegenerateArea | flood_polygon_analyzer.py:604-608 | one or two vertices give area 0 |
| Geometry.RectangleArea | flood_polygon_analyzer.py:604-608 | an axis-aligned rectangle has area |width| x |height|, whatever the corner order |
| Geometry.AreaTranslationInvariant | flood_polygon_analyzer.py:604-608 | moving every vertex by the same offset leaves the area unchanged |
| ShapeFilter.PolygonScanMeaning | flood_polygon_analyzer.py:462-468 | the polygon scan fails only on an empty polygon; otherwise it is true iff some polygon contains the point |
| ShapeFilter.InsideAnyShapeMeaning | flood_polygon_analyzer.py:462-475 | with non-empty polygons, "inside any shape" is true iff some polygon or some circle contains the point |
| ShapeFilter.CheckInsideAnyShape | flood_polygon_analyzer.py:462-475 | the loops with early exit (polygons first, then circles) compute the inside-any-shape verdict, including the failure on an empty polygon |
| ShapeFilter.Filtered | flood_polygon_analyzer.py:451-494 | the kept vectors among the first k samples number at most k |
| ShapeFilter.FilteredIsKeptSubsequence | flood_polygon_analyzer.py:451-494 | the output is the input subsequence of exactly the kept samples (inside some shape, two-component velocity), in input order |
| ShapeFilter.FilterVectors | flood_polygon_analyzer.py:441-496 | the four parallel lists have one length, equal to points_inside <= total_points, and hold the kept vectors in order |
| Metrics.FramePairCount | flood_polygon_analyzer.py:1351-1358 | the given count is used as is; otherwise the pairs run from the start frame to the last frame, and there is at least one pair |
| Metrics.ClampRadius | flood_polygon_analyzer.py:753-754 | the radius ends in [20, 80], unchanged when already inside, 20 below, 80 above |
| Metrics.Neighbours | flood_polygon_analyzer.py:741-745 | exactly the distances strictly between 0 and 100 are kept |
| Metrics.NeighboursCounts | flood_polygon_analyzer.py:741-745 | each distance strictly between 0 and 100 is kept as many times as it occurs, and no other distance is kept |
| Metrics.HighlightRadius | flood_polygon_analyzer.py:740-754 | the highlight radius is in [20, 80]; it is 30 when no other fast point lies within 100 pixels, and otherwise the neighbours' mean clamped to [20, 80] |
| Metrics.HighlightRadiusCloseNeighbours | flood_polygon_analyzer.py:740-754 | when every neighbour lies within 20 pixels, the radius is the minimum 20 |
| Metrics.HighlightRadiusFarNeighbours | flood_polygon_analyzer.py:740-754 | when every neighbour lies 80 or more pixels away, the radius is the maximum 80 |
| Metrics.HighlightRadiusKeepsMean | flood_polygon_analyzer.py:747-754 | a neighbours' mean already in [20, 80] is used unchanged |
| Metrics.TopCount | flood_polygon_analyzer.py:728 | at most five regions, and no more than there are fast points; five or all of them |
| Metrics.ChannelValues | flood_polygon_analyzer.py:1092-1097 | the arrow colours use full-intensity channels only: blue is 0, green is 255 for slow and medium arrows, red is 255 for medium and fast arrows |
| Metrics.SpeedColour | flood_polygon_analyzer.py:1092-1097 | green iff speed < 10, yellow iff 10 <= speed < 20, red iff speed >= 20 |
| Metrics.SpeedColourMonotone | flood_polygon_analyzer.py:1092-1097 | a faster arrow never gets a milder colour |
| Statistics.MaxOf | flood_speed_gui.py:710 | the maximum is an element of the list and bounds every element |
| Statistics.MeanBetween | flood_speed_gui.py:709 | the mean of values in [lo, hi] lies in [lo, hi] |
| Statistics.VarianceNonNegative | flood_speed_gui.py:711 | the population variance is never negative, so a standard deviation exists |
| PolygonAnalyzer.ClickOutsideAxesIgnored | flood_polygon_analyzer.py:161-162 | a click outside the axes changes nothing |
| PolygonAnalyzer.PolygonModeClicks | flood_polygon_analyzer.py:164-197 | a left click appends exactly the point; a right click with >= 3 points pushes the polygon and empties the partial one; with fewer it changes nothing; no other field changes |
| PolygonAnalyzer.ReleaseCommitsLargeCircles | flood_polygon_analyzer.py:208-241 | on release in circle mode a circle {center, radius} is added iff dx²+dy² > 25, the centre is reset in every case, and no other field changes |
| PolygonAnalyzer.SetModeKeepsShapes | flood_polygon_analyzer.py:148-157 | the new mode is set, the partial polygon and centre are cleared, both stacks are unchanged |
| PolygonAnalyzer.ClearLastRemovesOneShape | flood_polygon_analyzer.py:265-282 | the last circle is removed first; otherwise the last polygon; otherwise nothing; no other field changes |
| PolygonAnalyzer.SaveRecord | flood_polygon_analyzer.py:292-305 | no record iff there are no shapes; otherwise a record with both keys and two-entry coordinates |
| PolygonAnalyzer.DecodeEncodeShapes | flood_polygon_analyzer.py:300-304 | decoding the saved lists gives back the same polygons and circles in order |
| PolygonAnalyzer.EncodeDecodeShapes | flood_polygon_analyzer.py:333-353 | re-encoding a decoded well-formed record gives the same record |
| PolygonAnalyzer.SaveThenLoadRestores | flood_polygon_analyzer.py:292-362 | loading the saved record restores both stacks in order, replacing the previous shapes and leaving the drawing state alone |
| PolygonAnalyzer.EditingKeepsShapesDrawable | flood_polygon_analyzer.py:159-282 | clicks, releases, mode changes and "Clear Last" keep every polygon at >= 3 vertices and every circle at radius > 5 |
| PolygonAnalyzer.FloodPolygonAnalyzer.constructor | flood_polygon_analyzer.py:35-52 | a new analyzer is in polygon mode with no shapes, no partial polygon and no centre |
| PolygonAnalyzer.FloodPolygonAnalyzer.SetDrawMode | flood_polygon_analyzer.py:148-157 | the fields change as the mode-change transition says |
| PolygonAnalyzer.FloodPolygonAnalyzer.OnClick | flood_polygon_analyzer.py:159-206 | the fields change as the click transition says |
| PolygonAnalyzer.FloodPolygonAnalyzer.OnRelease | flood_polygon_analyzer.py:208-241 | the fields change as the release transition says |
| PolygonAnalyzer.FloodPolygonAnalyzer.ClearLastShape | flood_polygon_analyzer.py:265-282 | the fields change as the "Clear Last" transition says |
| PolygonAnalyzer.FloodPolygonAnalyzer.SaveShapes | flood_polygon_analyzer.py:284-305 | no record iff no shapes; a saved record decodes to exactly the current stacks |
| PolygonAnalyzer.FloodPolygonAnalyzer.LoadShapes | flood_polygon_analyzer.py:313-362 | a missing file changes nothing; otherwise both stacks are replaced by the decoded record (empty for a missing key) |
| MaskDrawing.KeyActionFor | flood_speed_gui.py:128-139 | Enter finishes iff more than two points are placed; ESC always cancels; everything else keeps drawing |
| MaskDrawing.ReplayFinishHasPolygon | flood_speed_gui.py:115-146 | the loop only finishes with > 2 points, and clicks are appended after the earlier points |
| MaskDrawing.MaskDrawer.constructor | flood_speed_gui.py:101-107 | a new mask has the frame's height x width, every cell 255, no points and no ROI |
| MaskDrawing.MaskDrawer.MouseCallback | flood_speed_gui.py:144-146 | a left-button press appends exactly (x, y); any other event leaves the points unchanged |
| MaskDrawing.MaskDrawer.DrawPolygon | flood_speed_gui.py:109-142 | Enter with > 2 points ends with a fresh all-zero mask; ESC ends with a fresh all-255 mask; the points are those the clicks added |
| MaskDrawing.MaskDrawer.DrawRectangle | flood_speed_gui.py:148-160 | for w, h > 0 the ROI becomes [x, y, w, h] and a fresh mask is 255 exactly on rows [y, y+h) and columns [x, x+w) within the frame, 0 elsewhere; otherwise mask and ROI are unchanged |
| SpeedStatistics.ValidSpeeds | flood_speed_gui.py:704-707 | every in-mask speed that is a number is kept, and there are no more valid speeds than cells |
| SpeedStatistics.ValidSpeedsCounts | flood_speed_gui.py:704-707 | each speed occurs among the valid speeds exactly as often as it occurs among the in-mask cells that are numbers |
| SpeedStatistics.StepRecord | flood_speed_gui.py:706-720 | a step record carries its index; with no valid speed avg = max = std = 0; otherwise avg is the mean of the valid speeds, max is the largest valid speed, avg <= max, and std is the supplied deviation |
| SpeedStatistics.AverageWithinRange | flood_speed_gui.py:708-711 | a step's average lies between its slowest and fastest valid speed |
| SpeedStatistics.DisplayFrameIndex | flood_speed_gui.py:728 | the shown frame is vec[2*index] when 2*index < len(vec), otherwise 0 |
| SpeedStatistics.FloodSpeedGui.constructor | flood_speed_gui.py:174-176 | a new GUI has no processing results and an empty speed series |
| SpeedStatistics.FloodSpeedGui.CalculateSpeedStatistics | flood_speed_gui.py:689-720 | with no results nothing changes; otherwise one record per time step, frame_index = i in increasing order |
| SpeedStatistics.FloodSpeedGui.OnProcessingComplete | flood_speed_gui.py:661-675 | the results are stored and the speed series is rebuilt from them |
| SpeedStatistics.FloodSpeedGui.FrameForStep | flood_speed_gui.py:722-728 | there is a frame only when results exist and the step exists, and it is the display frame index |

## Left out

- Geometry.PolygonArea: the uncaught error on a polygon with no vertices is not modelled. The function requires at least one vertex instead.
- Optical-flow extraction, filtering, interpolation and rendering are done by the external flow engine, a foreign library.
- Video and frame I/O, `selectROI`, arrow and text drawing, and all plotting and Qt widgets are I/O and UI code. The rectangle the user selects and the key and mouse inputs of the drawing loop are parameters.
- MaskDrawing.MaskDrawer.DrawPolygon: after Enter the model's mask is the freshly zeroed one, and the polygon is not filled into it. The `fillPoly` rasterisation is foreign raster code.
- Reading and writing the JSON/CSV files is file I/O. Only the in-memory record is modelled; a missing file is `None`.
- Square roots, `np.mean`/`np.std`/`np.percentile` over floats, and NaN semantics are floating point. Speeds and distances are given reals. NaN is `None`. The mean and maximum are exact. Each standard deviation is supplied, constrained to be the non-negative root of the exact population variance.
- `ShapeFilter.FilterVectors`: the fifth list, `filtered_magnitude` (square roots), is not produced.
- `PolygonAnalyzer.FloodPolygonAnalyzer.SetDrawMode` takes the mode itself. Lower-casing the radio label is left out, because the only labels are "Polygon" and "Circle".
- `PolygonAnalyzer.FloodPolygonAnalyzer.LoadShapes` requires two-entry coordinates. A record with other coordinate lists makes the source fail later; that path is not modelled.
- The shape patches, the preview circle (`on_motion`) and the speed-highlight artists are matplotlib objects.
- `VideoProcessor` exists only to run in the background, so its concurrency is out.
- The `argparse` handling and the file-existence checks in `main` are I/O. Only the frame-pair count is kept.
- The other filter loops (in `visualize_fastest_areas`, `plot_flow_speed_over_time` and `export_video_with_flow`) repeat the same containment test and are not modelled separately. The same goes for the per-polygon and per-circle statistics printed by `analyze_flow_in_shapes` and written by `export_results` (its per-shape containment loops reuse the same tests, and its polygon areas are `Geometry.PolygonArea`), and for the sort, percentile and threshold of the fastest points.
- `example_flood_analysis.py` is a script of flow-engine calls and plotting, and it is not part of this model.
