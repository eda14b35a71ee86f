/** The integer grid under the receptive-field heatmaps: the centred axes
    `xs = ys = arange(N) - c` with `c = N // 2`, their `meshgrid`, and the
    squared distance `X**2 + Y**2` that `erf_gaussian` feeds to `exp`.
    The exponential and the normalisation are not modelled; only their
    integer argument is. */
module CentredGrid {

  /** `c = N // 2`, the index of the centre cell along each axis. */
  function Centre(n: nat): (c: nat)
    ensures 2 * c <= n < 2 * c + 2
    ensures n > 0 ==> c < n
  {
    n / 2
  }

  /** `arange(N) - c`: N consecutive integers that start at -c. */
  function Axis(n: nat): (xs: seq<int>)
    ensures |xs| == n
    ensures n > 0 ==> xs[0] == -(Centre(n) as int) && xs[n - 1] == n - 1 - Centre(n)
    ensures forall i :: 0 <= i < n - 1 ==> xs[i + 1] == xs[i] + 1
  {
    seq(n, i => i - Centre(n))
  }

  /** The two coordinate matrices of `meshgrid(xs, ys)`: X repeats `xs` on
      every row, Y repeats `ys[i]` along row i. */
  datatype Mesh = Mesh(x: seq<seq<int>>, y: seq<seq<int>>)

  /** A matrix of `rows` rows of `cols` entries each. */
  predicate IsMatrix(m: seq<seq<int>>, rows: nat, cols: nat)
  {
    |m| == rows && forall i :: 0 <= i < rows ==> |m[i]| == cols
  }

  /** `np.meshgrid(xs, ys)` in its default (Cartesian) indexing: both
      matrices have |ys| rows and |xs| columns, the column index picks the
      entry of `xs` and the row index the entry of `ys`. */
  function MeshGrid(xs: seq<int>, ys: seq<int>): (g: Mesh)
    ensures IsMatrix(g.x, |ys|, |xs|) && IsMatrix(g.y, |ys|, |xs|)
    ensures forall i, j :: 0 <= i < |ys| && 0 <= j < |xs| ==> g.x[i][j] == xs[j] && g.y[i][j] == ys[i]
  {
    Mesh(seq(|ys|, i => xs), seq(|ys|, i requires 0 <= i < |ys| => seq(|xs|, j => ys[i])))
  }

  /** `X**2 + Y**2`, elementwise over two matrices of the same shape. */
  function SumOfSquares(a: seq<seq<int>>, b: seq<seq<int>>, rows: nat, cols: nat): (d: seq<seq<int>>)
    requires IsMatrix(a, rows, cols) && IsMatrix(b, rows, cols)
    ensures IsMatrix(d, rows, cols)
    ensures forall i, j :: 0 <= i < rows && 0 <= j < cols ==> d[i][j] >= 0
  {
    seq(rows, i requires 0 <= i < rows =>
      seq(cols, j requires 0 <= j < cols => a[i][j] * a[i][j] + b[i][j] * b[i][j]))
  }

  /** The squared-distance grid of an N x N image. */
  function SquaredDistance(n: nat): (d: seq<seq<int>>)
    ensures IsMatrix(d, n, n)
  {
    var xs := Axis(n);
    var ys := Axis(n);
    var g := MeshGrid(xs, ys);
    SumOfSquares(g.x, g.y, n, n)
  }

  /** The axis holds exactly the offsets -c .. N-1-c, and 0 only at index c. */
  lemma AxisRange(n: nat, i: nat)
    requires i < n
    ensures -(Centre(n) as int) <= Axis(n)[i] <= n - 1 - Centre(n)
    ensures Axis(n)[i] == 0 <==> i == Centre(n)
  {
  }

  /** Cell (i, j) of the grid holds the squared distance of (column j, row i)
      from the centre cell (c, c). */
  lemma SquaredDistanceAt(n: nat, i: nat, j: nat)
    requires i < n && j < n
    ensures SquaredDistance(n)[i][j] ==
      (j - Centre(n)) * (j - Centre(n)) + (i - Centre(n)) * (i - Centre(n))
  {
    var g := MeshGrid(Axis(n), Axis(n));
    assert g.x[i][j] == Axis(n)[j];
    assert g.y[i][j] == Axis(n)[i];
  }

  lemma SquareIsZero(z: int)
    ensures z * z >= 0
    ensures z * z == 0 <==> z == 0
  {
    if z < 0 {
      assert (-z) * (-z) > 0;
    } else if z > 0 {
      assert z * z > 0;
    }
  }

  /** The exponent's numerator is zero exactly at the centre cell (c, c)
      and positive everywhere else. */
  lemma ZeroOnlyAtCentre(n: nat, i: nat, j: nat)
    requires i < n && j < n
    ensures SquaredDistance(n)[i][j] >= 0
    ensures SquaredDistance(n)[i][j] == 0 <==> i == Centre(n) && j == Centre(n)
  {
    SquaredDistanceAt(n, i, j);
    SquareIsZero(j - Centre(n));
    SquareIsZero(i - Centre(n));
  }

  /** The centre cell has the least squared distance, so the Gaussian built
      on it peaks there. */
  lemma CentreIsMinimum(n: nat, i: nat, j: nat)
    requires i < n && j < n
    ensures SquaredDistance(n)[Centre(n)][Centre(n)] <= SquaredDistance(n)[i][j]
  {
    ZeroOnlyAtCentre(n, Centre(n), Centre(n));
    ZeroOnlyAtCentre(n, i, j);
  }

  /** Since `xs == ys`, the grid is symmetric about its main diagonal. */
  lemma Symmetric(n: nat, i: nat, j: nat)
    requires i < n && j < n
    ensures SquaredDistance(n)[i][j] == SquaredDistance(n)[j][i]
  {
    SquaredDistanceAt(n, i, j);
    SquaredDistanceAt(n, j, i);
  }
}
