/**
 * The CPU ray tracer's work split: `Render` cuts the image into square
 * tiles, worker threads claim tiles by decrementing a shared counter, and
 * `ProcessRenderJob` walks the pixels of one tile clipped to the image.
 */
module RenderJobs {

  /** The side of a square tile, in pixels. */
  const TileSize: nat := 4

  /** One tile job: the half-open pixel rectangle [minX, maxX) x [minY, maxY). */
  datatype Job = Job(minX: int, maxX: int, minY: int, maxY: int)

  datatype Pixel = Pixel(x: int, y: int)

  function Min(a: int, b: int): int
  {
    if a < b then a else b
  }

  /** The number of tile origins 0, TileSize, 2 * TileSize, ... below n. */
  function TilesAcross(n: nat): nat
  {
    (n + TileSize - 1) / TileSize
  }

  /** A tile origin i * TileSize starts a tile exactly when it lies inside the extent. */
  lemma TilesAcrossCounts(n: nat, i: nat)
    ensures i < TilesAcross(n) <==> i * TileSize < n
  {
  }

  /** The job of the tile in grid row `row` and column `col`. */
  function GridJob(row: nat, col: nat): Job
  {
    Job(col * TileSize, col * TileSize + TileSize, row * TileSize, row * TileSize + TileSize)
  }

  /** The first `cols` jobs of one row of tiles, left to right. */
  function RowJobs(row: nat, cols: nat): seq<Job>
  {
    if cols == 0 then [] else RowJobs(row, cols - 1) + [GridJob(row, cols - 1)]
  }

  /** The jobs of the first `rows` rows of tiles, top row first. */
  function TileJobs(cols: nat, rows: nat): seq<Job>
  {
    if rows == 0 then [] else TileJobs(cols, rows - 1) + RowJobs(rows - 1, cols)
  }

  lemma {:induction false} RowJobsAt(row: nat, cols: nat)
    ensures |RowJobs(row, cols)| == cols
    ensures forall col :: 0 <= col < cols ==> RowJobs(row, cols)[col] == GridJob(row, col)
  {
    if cols > 0 {
      RowJobsAt(row, cols - 1);
    }
  }

  lemma {:induction false} TileJobsLength(cols: nat, rows: nat)
    ensures |TileJobs(cols, rows)| == rows * cols
  {
    if rows > 0 {
      TileJobsLength(cols, rows - 1);
      RowJobsAt(rows - 1, cols);
    }
  }

  lemma {:induction false} MulLe(a: nat, b: nat, c: nat)
    requires a <= b
    ensures a * c <= b * c
  {
    if a < b {
      MulLe(a, b - 1, c);
      assert b * c == (b - 1) * c + c;
    }
  }

  /** A job number below rows * cols splits into a row below rows and a column below cols. */
  lemma {:induction false} RowAndColumn(j: nat, cols: nat, rows: nat)
    requires j < rows * cols
    ensures cols > 0
    ensures j / cols < rows && j % cols < cols
    ensures j == (j / cols) * cols + j % cols
  {
  }

  /** Row-major numbering stays below rows * cols. */
  lemma {:induction false} GridIndexBelow(cols: nat, rows: nat, row: nat, col: nat)
    requires row < rows && col < cols
    ensures row * cols + col < rows * cols
  {
    MulLe(row + 1, rows, cols);
  }

  /** Job number row * cols + col is the tile in that row and column: the jobs are row-major. */
  lemma {:induction false} TileJobsAt(cols: nat, rows: nat, row: nat, col: nat)
    requires row < rows && col < cols
    ensures row * cols + col < |TileJobs(cols, rows)|
    ensures TileJobs(cols, rows)[row * cols + col] == GridJob(row, col)
  {
    var k := row * cols + col;
    var front := TileJobs(cols, rows - 1);
    var last := RowJobs(rows - 1, cols);
    assert k < |TileJobs(cols, rows)| by {
      TileJobsLength(cols, rows);
      GridIndexBelow(cols, rows, row, col);
    }
    if row < rows - 1 {
      assert k < |front| by {
        TileJobsLength(cols, rows - 1);
        GridIndexBelow(cols, rows - 1, row, col);
      }
      TileJobsAt(cols, rows - 1, row, col);
      assert (front + last)[k] == front[k];
    } else {
      assert |front| == row * cols by {
        TileJobsLength(cols, rows - 1);
      }
      RowJobsAt(rows - 1, cols);
      assert (front + last)[k] == last[col];
    }
  }

  /**
   * `Render`'s job loop: tile origins y = 0, TileSize, ... below the height,
   * and within each row x = 0, TileSize, ... below the width.
   */
  method Render(width: nat, height: nat) returns (jobs: seq<Job>)
    ensures jobs == TileJobs(TilesAcross(width), TilesAcross(height))
  {
    var cols := TilesAcross(width);
    jobs := [];
    var y := 0;
    ghost var row: nat := 0;
    while y < height
      invariant y == row * TileSize
      invariant row <= TilesAcross(height)
      invariant jobs == TileJobs(cols, row)
    {
      TilesAcrossCounts(height, row);
      var x := 0;
      ghost var col: nat := 0;
      while x < width
        invariant x == col * TileSize
        invariant col <= cols
        invariant jobs == TileJobs(cols, row) + RowJobs(row, col)
      {
        TilesAcrossCounts(width, col);
        jobs := jobs + [Job(x, x + TileSize, y, y + TileSize)];
        x := x + TileSize;
        col := col + 1;
      }
      TilesAcrossCounts(width, col);
      y := y + TileSize;
      row := row + 1;
    }
    TilesAcrossCounts(height, row);
  }

  /** A pixel `ProcessRenderJob` visits: inside the tile and inside the image. */
  predicate PixelIn(job: Job, width: nat, height: nat, p: Pixel)
  {
    job.minX <= p.x < Min(job.maxX, width) && job.minY <= p.y < Min(job.maxY, height)
  }

  /** Row-major order: an earlier row first, and within a row the smaller x first. */
  predicate Before(a: Pixel, b: Pixel)
  {
    a.y < b.y || (a.y == b.y && a.x < b.x)
  }

  predicate RowMajor(ps: seq<Pixel>)
  {
    forall i, j :: 0 <= i < j < |ps| ==> Before(ps[i], ps[j])
  }

  /**
   * `ProcessRenderJob`'s pixel walk: the tile clipped to the image, rows from
   * top to bottom. The shading of each pixel is not part of this model.
   */
  method ProcessRenderJob(job: Job, width: nat, height: nat) returns (pixels: seq<Pixel>)
    ensures forall p :: p in pixels <==> PixelIn(job, width, height, p)
    ensures RowMajor(pixels)
  {
    var endX := Min(job.maxX, width);
    var endY := Min(job.maxY, height);
    pixels := [];
    var y := job.minY;
    while y < endY
      invariant job.minY <= y && (y <= endY || y == job.minY)
      invariant forall p :: p in pixels <==> job.minX <= p.x < endX && job.minY <= p.y < y
      invariant forall i :: 0 <= i < |pixels| ==> pixels[i].y < y
      invariant RowMajor(pixels)
    {
      var x := job.minX;
      while x < endX
        invariant job.minX <= x && (x <= endX || x == job.minX)
        invariant forall p :: p in pixels <==>
            (job.minX <= p.x < endX && job.minY <= p.y < y) || (p.y == y && job.minX <= p.x < x)
        invariant forall i :: 0 <= i < |pixels| ==> Before(pixels[i], Pixel(x, y))
        invariant RowMajor(pixels)
      {
        pixels := pixels + [Pixel(x, y)];
        x := x + 1;
      }
      y := y + 1;
    }
  }

  /**
   * Within the grid, a tile clipped to the image holds a pixel exactly when
   * the pixel is in the image and its coordinates divided by the tile size
   * name that tile.
   */
  lemma TileHoldsItsPixels(width: nat, height: nat, row: nat, col: nat, p: Pixel)
    requires p.x >= 0 && p.y >= 0
    ensures PixelIn(GridJob(row, col), width, height, p) <==>
      p.x < width && p.y < height && p.x / TileSize == col && p.y / TileSize == row
  {
  }

  /** The job of an image pixel: its tile row times the columns plus its tile column. */
  function JobOfPixel(width: nat, p: Pixel): int
  {
    (p.y / TileSize) * TilesAcross(width) + p.x / TileSize
  }

  /** Every pixel of the image lies in the job `JobOfPixel` names. */
  lemma {:induction false} PixelInItsJob(width: nat, height: nat, p: Pixel)
    requires 0 <= p.x < width && 0 <= p.y < height
    ensures var jobs := TileJobs(TilesAcross(width), TilesAcross(height));
      0 <= JobOfPixel(width, p) < |jobs| && PixelIn(jobs[JobOfPixel(width, p)], width, height, p)
  {
    var cols, rows := TilesAcross(width), TilesAcross(height);
    var row, col := p.y / TileSize, p.x / TileSize;
    TilesAcrossCounts(width, col);
    TilesAcrossCounts(height, row);
    TileJobsAt(cols, rows, row, col);
    TileHoldsItsPixels(width, height, row, col, p);
  }

  /** No other job of `Render` visits that pixel. */
  lemma {:induction false} PixelInNoOtherJob(width: nat, height: nat, p: Pixel, j: nat)
    requires p.x >= 0 && p.y >= 0
    requires j < |TileJobs(TilesAcross(width), TilesAcross(height))|
    requires PixelIn(TileJobs(TilesAcross(width), TilesAcross(height))[j], width, height, p)
    ensures j == JobOfPixel(width, p)
  {
    var cols, rows := TilesAcross(width), TilesAcross(height);
    TileJobsLength(cols, rows);
    RowAndColumn(j, cols, rows);
    var row, col := j / cols, j % cols;
    assert TileJobs(cols, rows)[j] == GridJob(row, col) by {
      TileJobsAt(cols, rows, row, col);
    }
    assert p.x / TileSize == col && p.y / TileSize == row by {
      TileHoldsItsPixels(width, height, row, col, p);
    }
  }

  lemma {:induction false} RowOriginsNonNegative(row: nat, cols: nat)
    ensures forall job :: job in RowJobs(row, cols) ==> job.minX >= 0 && job.minY >= 0
  {
    if cols > 0 {
      RowOriginsNonNegative(row, cols - 1);
    }
  }

  lemma {:induction false} OriginsNonNegative(cols: nat, rows: nat)
    ensures forall job :: job in TileJobs(cols, rows) ==> job.minX >= 0 && job.minY >= 0
  {
    if rows > 0 {
      OriginsNonNegative(cols, rows - 1);
      RowOriginsNonNegative(rows - 1, cols);
    }
  }

  /** A pixel any job of `Render` visits lies inside the image. */
  lemma JobsStayInImage(width: nat, height: nat, job: Job, p: Pixel)
    requires job in TileJobs(TilesAcross(width), TilesAcross(height))
    requires PixelIn(job, width, height, p)
    ensures 0 <= p.x < width && 0 <= p.y < height
  {
    OriginsNonNegative(TilesAcross(width), TilesAcross(height));
  }

  // ---------------------------------------------------------------------
  // The job array's size.
  // ---------------------------------------------------------------------

  /** The job array `Initialize` allocates: whole tiles across times whole tiles down. */
  function JobCapacityAsWritten(width: nat, height: nat): nat
  {
    (width / TileSize) * (height / TileSize)
  }

  /** The job array size `Render` needs: partial tiles at the right and bottom edges count. */
  function JobCapacity(width: nat, height: nat): nat
  {
    TilesAcross(width) * TilesAcross(height)
  }

  /** A 5 x 4 image makes two jobs while the allocated array holds one. */
  lemma AsWrittenCapacityOverflows()
    ensures |TileJobs(TilesAcross(5), TilesAcross(4))| == 2
    ensures JobCapacityAsWritten(5, 4) == 1
  {
    TileJobsLength(TilesAcross(5), TilesAcross(4));
  }

  /**
   * For a non-empty image the allocated array holds every job exactly when
   * both sides are whole multiples of the tile size.
   */
  lemma {:induction false} AsWrittenCapacityFitsOnlyWholeTiles(width: nat, height: nat)
    requires width > 0 && height > 0
    ensures |TileJobs(TilesAcross(width), TilesAcross(height))| <= JobCapacityAsWritten(width, height)
      <==> width % TileSize == 0 && height % TileSize == 0
  {
    var a, b := TilesAcross(width), TilesAcross(height);
    var c, d := width / TileSize, height / TileSize;
    TileJobsLength(a, b);
    assert a >= 1 && b >= 1 && a >= c && b >= d;
    assert a == c <==> width % TileSize == 0;
    assert b == d <==> height % TileSize == 0;
    if a > c {
      assert b * a > b * c >= d * c;
    } else if b > d {
      assert b * a > d * a == d * c;
    }
  }

  /** The corrected capacity holds exactly the jobs and is never below the allocation as written. */
  lemma {:induction false} CapacityFitsJobs(width: nat, height: nat)
    ensures |TileJobs(TilesAcross(width), TilesAcross(height))| == JobCapacity(width, height)
    ensures JobCapacityAsWritten(width, height) <= JobCapacity(width, height)
  {
    TileJobsLength(TilesAcross(width), TilesAcross(height));
    var a, b := TilesAcross(width), TilesAcross(height);
    var c, d := width / TileSize, height / TileSize;
    assert c <= a && d <= b;
    MulLe(c, a, d);
    MulLe(d, b, a);
  }
}
