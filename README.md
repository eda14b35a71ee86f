# Receptive-field scan: index model

This project models the index arithmetic inside the animation script
`erf.py`, which illustrates how the effective receptive field (ERF) of a
convolution grows with the kernel size K on an N x N input image.
There are two pieces.

- **Scan path**, in module `ScanPath` (`scan_path.dfy`). `pad_and_slide_scan`
  pads the image by `K // 2` cells. It then slides a K x K window over every
  valid position. The positions are visited row by row, left to right, and a
  connector point is inserted after every row but the last. Each window
  centre is modelled as the pair (column index, row index) of its position,
  not as rendering coordinates. `Path` is the specification, built row by
  row. `PointAt` is an independent closed form. `ScanPoints` is the nested
  loop of the source, proved to yield `Path` or the error case below.
- **Centred grid**, in module `CentredGrid` (`centred_grid.dfy`). The axes
  are `arange(N) - N // 2`. Their `meshgrid` gives X and Y, and
  `X**2 + Y**2` is the integer numerator of the Gaussian exponent in
  `erf_gaussian`.

The nested loop has one error path of its own, modelled as `IndexError`
(`ScanPoints`): with no columns and at least two rows, the connector reads
`x_positions[0]` of an empty array. The script always has `cols == rows`,
so it never reaches this case.
`PadAndSlideScan` also returns `IndexError` when N = 0, because
`scan_points[0]` (erf.py:134) would then index an empty list. The script
never gets there: N is the constant 20 (erf.py:10), and with N = 0 it would
already have failed in `heatmap` on the empty grid (erf.py:50, called from
erf.py:75).

Two details of the code:
- The move between rows is diagonal. It runs from the last point of row
  `yi`, `(cols-1, yi)`, to the connector `(0, yi+1)`, and the next row's
  sweep then repeats that point (`Connector`).
- The padding is `K // 2`, which is (K-1)/2 only for odd K (`Padding`).

## Model

`Rows`, `Path`, `Scan` and `PointAt` are definitions with no contract of
their own. `Rows` is the completed rows with their connectors, `Path` is the
whole scan, `Scan` is `Path` or the loop's error, and `PointAt` is the closed
form. The lemmas below state their properties.

| member | source | states |
|---|---|---|
| ScanPath.Padding | erf.py:88 | the padding is the floor of K/2 for every integer K, non-negative for K >= 0, and K = 2*pad + 1 for odd K |
| ScanPath.PositionsPerAxis | erf.py:113-121 | `N_pad - 2*pad` with `N_pad = N + 2*pad` is N, whatever K is |
| ScanPath.Sweep | erf.py:128-129 | one row's sweep has `cols` points, and its x-th point is (x, yi) |
| ScanPath.ScanPoints | erf.py:126-131 | the nested append loop fails exactly when there are no columns and at least two rows (the empty `x_positions[0]`), and otherwise yields exactly `Path` |
| ScanPath.PadAndSlideScan | erf.py:88-134 | it fails exactly when N = 0; otherwise the padding is K // 2, the path is the N x N raster with N*N + N - 1 points whatever K is, and the window starts at (0, 0), the path's first point |
| ScanPath.RowsLength | erf.py:126-131 | every completed row with its connector adds cols + 1 points |
| ScanPath.PathLength | erf.py:126-131 | the path has rows*cols + rows - 1 points (none when rows = 0) |
| ScanPath.RowsAt | erf.py:127-131 | offset o of row yi, counted from yi*(cols+1), is the sweep point (o, yi) or, at o = cols, the connector (0, yi+1) |
| ScanPath.PathAt | erf.py:127-131 | on the whole path, every sweep point and every connector before a further row sits at index yi*(cols+1) + o |
| ScanPath.RowSweep | erf.py:127-129 | row yi's points are (0, yi), (1, yi), ..., (cols-1, yi), in increasing column order |
| ScanPath.Connector | erf.py:129-131 | after row yi < rows-1 comes the connector (0, yi+1), and it equals the first point of row yi+1's sweep |
| ScanPath.LastRowEndsPath | erf.py:130-131 | the path ends with the last row's sweep, with no connector after it |
| ScanPath.PathEnds | erf.py:127-134 | the path starts at (0, 0), where the window is first placed, and ends at (cols-1, rows-1) |
| ScanPath.RasterIndex | erf.py:126-131 | every index of the path falls into some row at a sweep offset, or at a connector before a further row |
| ScanPath.PathIsRaster | erf.py:126-131 | the path agrees point by point with the closed form: row p / (cols+1), connector at offset cols |
| ScanPath.ScanInBounds | erf.py:120-131 | when the scan succeeds, every point is a valid window position (col < cols and row < rows) |
| CentredGrid.Centre | erf.py:11 | c = N // 2 is the floor of N/2, and it is a valid index when N > 0 |
| CentredGrid.Axis | erf.py:40-41 | the axis has N entries, starts at -c, ends at N-1-c and increases by one at each step |
| CentredGrid.MeshGrid | erf.py:42 | both meshgrid matrices have len(ys) rows and len(xs) columns, with X[i][j] = xs[j] and Y[i][j] = ys[i] |
| CentredGrid.SumOfSquares | erf.py:45 | the elementwise X**2 + Y**2 keeps the shape and is non-negative |
| CentredGrid.SquaredDistance | erf.py:40-45 | the squared-distance grid is N x N |
| CentredGrid.AxisRange | erf.py:40-41 | every axis entry lies in -c .. N-1-c, and 0 is at index c and nowhere else |
| CentredGrid.SquaredDistanceAt | erf.py:40-45 | cell [i][j] holds (j-c)^2 + (i-c)^2, the squared distance from the centre cell |
| CentredGrid.ZeroOnlyAtCentre | erf.py:45 | the exponent numerator is >= 0 everywhere and is 0 exactly at cell (c, c) |
| CentredGrid.CentreIsMinimum | erf.py:45 | the centre cell has the least squared distance of the grid |
| CentredGrid.Symmetric | erf.py:40-45 | because xs equals ys, the grid is symmetric about its main diagonal |

## Left out

- The manim scene is not modelled: squares, groups, text, surrounding rectangles, animations and waits. It is all rendering done by an external library.
- The Gaussian `np.exp(-(X**2 + Y**2) / (2*sigma**2))` and its normalisation `G /= G.sum()` are not modelled. They are floating-point, and only their integer argument is modelled.
- The heatmap colour mapping (`val_to_color`, `interpolate_color`) is not modelled. It is floating-point and calls into the library.
- The real-valued geometry is replaced by integer column and row indices: `unit`, `win_size`, the padded rectangle's edges and the `np.linspace` spacing.
- Layout constants, labels and positioning are presentation only and are not modelled.
- `np.linspace` raises an error for a negative count. The script never passes one: N is the constant 20 (erf.py:10), so N is taken as a natural number.
