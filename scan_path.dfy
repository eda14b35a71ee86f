/** Index-level model of the sliding-window scan of `pad_and_slide_scan`.
    The rendering coordinates of a window centre are abstracted to the pair
    (column index, row index) of the valid window position it stands for:
    point (x, yi) is the x-th entry of `x_positions` on the yi-th entry of
    `y_positions`. */
module ScanPath {

  /** A window centre, as the column and row of the window position. */
  datatype Point = Point(col: nat, row: nat)

  /** The outcome of a step that Python would abort with an IndexError. */
  datatype Result<T> = Ok(value: T) | IndexError

  /** What one call of the scan produces: the padding it shows in its label,
      the path the window follows and the point the window is first moved to. */
  datatype WindowScan = WindowScan(pad: int, path: seq<Point>, start: Point)

  // ---------------------------------------------------------------------
  // Padding and the number of window positions
  // ---------------------------------------------------------------------

  /** `pad = K // 2`: Python's floor division by 2, which Dafny's `/` by a
      positive divisor agrees with for every integer K. */
  function Padding(k: int): (pad: int)
    ensures 2 * pad <= k < 2 * pad + 2
    ensures k >= 0 ==> pad >= 0
    ensures k % 2 == 1 ==> k == 2 * pad + 1
  {
    k / 2
  }

  /** `cols = rows = N_pad - 2*pad` with `N_pad = N + 2*pad`: whatever the
      kernel size, the window stops at exactly N positions per axis. */
  function PositionsPerAxis(n: int, k: int): (count: int)
    ensures count == n
  {
    var pad := Padding(k);
    var nPad := n + 2 * pad;
    nPad - 2 * pad
  }

  // ---------------------------------------------------------------------
  // The specification of the scan path
  // ---------------------------------------------------------------------

  /** The first `cols` points of the sweep along row `yi`. */
  function Sweep(cols: nat, yi: nat): (s: seq<Point>)
    ensures |s| == cols
    ensures forall x :: 0 <= x < cols ==> s[x] == Point(x, yi)
  {
    if cols == 0 then [] else Sweep(cols - 1, yi) + [Point(cols - 1, yi)]
  }

  /** Rows 0 .. n-1, each one followed by the connector to the next row. */
  function Rows(cols: nat, n: nat): (s: seq<Point>)
  {
    if n == 0 then [] else Rows(cols, n - 1) + Sweep(cols, n - 1) + [Point(0, n)]
  }

  /** The whole raster: every row swept left to right, a connector after each
      row but the last.  For `rows == 0` the path is empty. */
  function Path(cols: nat, rows: nat): (s: seq<Point>)
  {
    if rows == 0 then [] else Rows(cols, rows - 1) + Sweep(cols, rows - 1)
  }

  /** What the loop of lines 126-131 yields: the path, or an IndexError when
      a connector reads `x_positions[0]` of an empty column range. */
  function Scan(cols: nat, rows: nat): Result<seq<Point>>
  {
    if cols == 0 && rows >= 2 then IndexError else Ok(Path(cols, rows))
  }

  /** An independent closed form of the raster: index p lies in row
      p / (cols+1) at offset p % (cols+1); offset `cols` is the connector. */
  function PointAt(cols: nat, p: nat): (pt: Point)
  {
    var yi := p / (cols + 1);
    var o := p % (cols + 1);
    if o < cols then Point(o, yi) else Point(0, yi + 1)
  }

  // ---------------------------------------------------------------------
  // The loop of pad_and_slide_scan
  // ---------------------------------------------------------------------

  /** The nested loop of lines 126-131 over `cols` columns and `rows` rows. */
  method ScanPoints(cols: nat, rows: nat) returns (r: Result<seq<Point>>)
    ensures r.IndexError? <==> cols == 0 && rows >= 2
    ensures r.Ok? ==> r.value == Path(cols, rows)
  {
    var points: seq<Point> := [];
    var yi := 0;
    while yi < rows
      invariant 0 <= yi <= rows
      invariant yi < rows ==> points == Rows(cols, yi)
      invariant yi == rows ==> points == Path(cols, rows)
      invariant cols == 0 && rows >= 2 ==> yi == 0
    {
      var x := 0;
      while x < cols
        invariant 0 <= x <= cols
        invariant points == Rows(cols, yi) + Sweep(x, yi)
      {
        points := points + [Point(x, yi)];
        x := x + 1;
      }
      if yi < rows - 1 {
        if cols == 0 {
          return IndexError;
        }
        points := points + [Point(0, yi + 1)];
      }
      yi := yi + 1;
    }
    return Ok(points);
  }

  /** Lines 88 and 113-134: the padding, the positions per axis, the path and
      the start of the window.  `scan_points[0]` fails on an empty path. */
  method PadAndSlideScan(n: nat, k: int) returns (r: Result<WindowScan>)
    ensures r.IndexError? <==> n == 0
    ensures r.Ok? ==> r.value.pad == Padding(k) && r.value.path == Path(n, n)
    ensures r.Ok? ==> |r.value.path| == n * n + n - 1
    ensures r.Ok? ==> r.value.start == Point(0, 0) == r.value.path[0]
  {
    var pad := Padding(k);
    var cols := PositionsPerAxis(n, k);
    var rows := PositionsPerAxis(n, k);
    var scan := ScanPoints(cols, rows);
    if scan.IndexError? || |scan.value| == 0 {
      return IndexError;
    }
    PathLength(n, n);
    PathEnds(n, n);
    r := Ok(WindowScan(pad, scan.value, scan.value[0]));
  }

  // ---------------------------------------------------------------------
  // Properties of the path
  // ---------------------------------------------------------------------

  lemma {:induction false} RowsLength(cols: nat, n: nat)
    ensures |Rows(cols, n)| == n * (cols + 1)
  {
    if n > 0 {
      RowsLength(cols, n - 1);
      calc {
        |Rows(cols, n)|;
        (n - 1) * (cols + 1) + cols + 1;
        n * (cols + 1);
      }
    }
  }

  /** The path has one point per (row, column) and one connector after every
      row but the last. */
  lemma {:induction false} PathLength(cols: nat, rows: nat)
    ensures |Path(cols, rows)| == if rows == 0 then 0 else rows * cols + rows - 1
  {
    if rows > 0 {
      RowsLength(cols, rows - 1);
      assert (rows - 1) * (cols + 1) == rows * cols + rows - cols - 1;
    }
  }

  /** Entry `o` after the start of row `yi` (row `yi` begins at yi*(cols+1)):
      a sweep point for `o < cols`, the connector for `o == cols`. */
  lemma {:induction false} RowsAt(cols: nat, n: nat, yi: nat, o: nat)
    requires yi < n && o <= cols
    ensures yi * (cols + 1) + o < |Rows(cols, n)|
    ensures Rows(cols, n)[yi * (cols + 1) + o] ==
      if o < cols then Point(o, yi) else Point(0, yi + 1)
  {
    RowsLength(cols, n - 1);
    RowsLength(cols, n);
    var prev := Rows(cols, n - 1);
    assert Rows(cols, n) == prev + Sweep(cols, n - 1) + [Point(0, n)];
    if yi < n - 1 {
      RowsAt(cols, n - 1, yi, o);
      assert (yi + 1) * (cols + 1) <= (n - 1) * (cols + 1);
    } else {
      assert yi * (cols + 1) == |prev|;
    }
  }

  /** Every sweep point and every connector sits where the raster order says. */
  lemma PathAt(cols: nat, rows: nat, yi: nat, o: nat)
    requires yi < rows && o <= cols
    requires o < cols || yi < rows - 1
    ensures yi * (cols + 1) + o < |Path(cols, rows)|
    ensures Path(cols, rows)[yi * (cols + 1) + o] ==
      if o < cols then Point(o, yi) else Point(0, yi + 1)
  {
    var prev := Rows(cols, rows - 1);
    RowsLength(cols, rows - 1);
    if yi < rows - 1 {
      RowsAt(cols, rows - 1, yi, o);
      assert (yi + 1) * (cols + 1) <= (rows - 1) * (cols + 1);
    } else {
      assert yi * (cols + 1) == |prev|;
    }
  }

  /** Within row `yi` the points are (0, yi), (1, yi), ..., (cols-1, yi). */
  lemma RowSweep(cols: nat, rows: nat, yi: nat, x: nat)
    requires yi < rows && x < cols
    ensures yi * (cols + 1) + x < |Path(cols, rows)|
    ensures Path(cols, rows)[yi * (cols + 1) + x] == Point(x, yi)
  {
    PathAt(cols, rows, yi, x);
  }

  /** After row `yi < rows-1` comes the connector (0, yi+1); it repeats the
      first point of the next row's sweep.  After the last row nothing follows. */
  lemma Connector(cols: nat, rows: nat, yi: nat)
    requires 0 < cols && yi + 1 < rows
    ensures (yi + 1) * (cols + 1) < |Path(cols, rows)|
    ensures Path(cols, rows)[yi * (cols + 1) + cols] == Point(0, yi + 1)
    ensures Path(cols, rows)[yi * (cols + 1) + cols] == Path(cols, rows)[(yi + 1) * (cols + 1)]
  {
    PathAt(cols, rows, yi, cols);
    PathAt(cols, rows, yi + 1, 0);
  }

  /** The last row is the end of the path: no connector follows it. */
  lemma LastRowEndsPath(cols: nat, rows: nat)
    requires 0 < cols && 0 < rows
    ensures |Path(cols, rows)| == (rows - 1) * (cols + 1) + cols
  {
    PathLength(cols, rows);
    assert (rows - 1) * (cols + 1) + cols == rows * cols + rows - 1;
  }

  /** The window starts at (0, 0) and ends at (cols-1, rows-1). */
  lemma PathEnds(cols: nat, rows: nat)
    requires 0 < cols && 0 < rows
    ensures |Path(cols, rows)| > 0
    ensures Path(cols, rows)[0] == Point(0, 0)
    ensures Path(cols, rows)[|Path(cols, rows)| - 1] == Point(cols - 1, rows - 1)
  {
    PathAt(cols, rows, 0, 0);
    PathAt(cols, rows, rows - 1, cols - 1);
    LastRowEndsPath(cols, rows);
  }

  /** Index `p` of a path of `rows` rows lies in row p / (cols+1), at an
      offset that is a sweep point or a connector before a further row. */
  lemma RasterIndex(cols: nat, rows: nat, p: nat)
    requires 0 < rows && p < rows * cols + rows - 1
    ensures p == (p / (cols + 1)) * (cols + 1) + p % (cols + 1)
    ensures p / (cols + 1) < rows
    ensures p % (cols + 1) < cols || p / (cols + 1) < rows - 1
  {
    var s := cols + 1;
    var yi, o := p / s, p % s;
    assert p == yi * s + o;
    assert rows * s == rows * cols + rows;
    assert yi * s < rows * s;
    if yi == rows - 1 {
      assert (rows - 1) * s == rows * cols + rows - s;
    }
  }

  /** The path agrees, point by point, with the closed-form raster PointAt. */
  lemma PathIsRaster(cols: nat, rows: nat, p: nat)
    requires p < |Path(cols, rows)|
    ensures Path(cols, rows)[p] == PointAt(cols, p)
  {
    PathLength(cols, rows);
    RasterIndex(cols, rows, p);
    PathAt(cols, rows, p / (cols + 1), p % (cols + 1));
  }

  /** Whenever the scan succeeds, every point is a valid window position. */
  lemma ScanInBounds(cols: nat, rows: nat, p: nat)
    requires Scan(cols, rows).Ok? && p < |Scan(cols, rows).value|
    ensures Scan(cols, rows).value[p].col < cols
    ensures Scan(cols, rows).value[p].row < rows
  {
    PathIsRaster(cols, rows, p);
    PathLength(cols, rows);
    RasterIndex(cols, rows, p);
  }
}
