// The flat index arithmetic of the volumetric dataset: cell (x, y, z) of a
// width x height x depth grid lives at x + y*width + z*width*height of the
// flat value buffer.

module Volume {

  /** The grid extent of a dataset; its name, channels and value buffer are not modelled. */
  datatype Dataset = Dataset(width: int, height: int, depth: int)
  {
    predicate InGrid(x: int, y: int, z: int) {
      0 <= x < width && 0 <= y < height && 0 <= z < depth
    }

    function GetIndex(x: int, y: int, z: int): int {
      x + y * width + z * width * height
    }

    /** The cell stored at a flat index: the inverse of GetIndex on the grid. */
    function CellOf(index: int): (cell: (int, int, int))
      requires width > 0 && height > 0
    {
      (index % width, (index / width) % height, index / (width * height))
    }
  }

  /** Every in-grid cell lands inside the buffer of width*height*depth values. */
  lemma GetIndexInRange(d: Dataset, x: int, y: int, z: int)
    requires d.InGrid(x, y, z)
    ensures 0 <= d.GetIndex(x, y, z) < d.width * d.height * d.depth
  {
    var w, h := d.width, d.height;
    RowMajorBound(x, y, w, h);
    assert d.GetIndex(x, y, z) == (x + y * w) + z * (w * h) by {
      assert z * w * h == z * (w * h);
    }
    RowMajorBound(x + y * w, z, w * h, d.depth);
    assert (w * h) * d.depth == w * h * d.depth;
  }

  /** A cell of a cols x rows plane lands inside the plane's cols*rows values. */
  lemma RowMajorBound(col: int, row: int, cols: int, rows: int)
    requires 0 <= col < cols && 0 <= row < rows
    ensures 0 <= col + row * cols < cols * rows
  {
    MulMonotone(row, rows - 1, cols);
    assert (rows - 1) * cols == cols * rows - cols;
  }

  /** GetIndex followed by CellOf gives the cell back. */
  lemma CellOfGetIndex(d: Dataset, x: int, y: int, z: int)
    requires d.InGrid(x, y, z)
    ensures d.CellOf(d.GetIndex(x, y, z)) == (x, y, z)
  {
    var w, h := d.width, d.height;
    var i := d.GetIndex(x, y, z);
    var row := y + z * h;
    var plane := x + y * w;
    assert i == row * w + x && i == z * (w * h) + plane by {
      assert (y + z * h) * w == y * w + (z * h) * w;
      assert (z * h) * w == z * w * h == z * (w * h);
    }
    RowMajorBound(x, y, w, h);
    DivModUnique(i, w, row, x);
    DivModUnique(row, h, z, y);
    DivModUnique(i, w * h, z, plane);
  }

  /** Distinct in-grid cells have distinct flat indices. */
  lemma GetIndexInjective(d: Dataset, x: int, y: int, z: int, x': int, y': int, z': int)
    requires d.InGrid(x, y, z) && d.InGrid(x', y', z')
    ensures d.GetIndex(x, y, z) == d.GetIndex(x', y', z') <==> (x, y, z) == (x', y', z')
  {
    CellOfGetIndex(d, x, y, z);
    CellOfGetIndex(d, x', y', z');
  }

  lemma MulMonotone(a: int, b: int, c: int)
    requires 0 <= a <= b && 0 <= c
    ensures 0 <= a * c <= b * c
  {
  }

  /** Quotient and remainder are determined by i == q*n + r with 0 <= r < n. */
  lemma DivModUnique(i: int, n: int, q: int, r: int)
    requires n > 0 && 0 <= r < n && i == q * n + r
    ensures i / n == q && i % n == r
  {
    var k := i / n - q;
    assert n * k == r - i % n;
    if k > 0 {
      MulMonotone(1, k, n);
    } else if k < 0 {
      MulMonotone(1, -k, n);
    }
  }
}
