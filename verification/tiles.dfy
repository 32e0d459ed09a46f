/**
 * The image partition of the multi-threaded renderer (renderer.h and the
 * same code repeated in main.cpp), the frame-buffer index each worker
 * writes, and the single-threaded scan it must agree with.
 *
 * The image is `w` pixels wide and `h` high. Pixel `(i, j)` has column
 * `i` in `[0, w)` and row `j` in `[0, h)`, row 0 at the bottom. The
 * source names a tile's column range `[rowStart, rowEnd)` and its row
 * range `[colStart, colEnd)`; the model keeps those names.
 *
 * Thread creation, joining, the progress counter and its mutex are not
 * modelled; a tile stands for the arguments one worker thread receives.
 */
module Tiles {

  datatype Tile = Tile(rowStart: int, rowEnd: int, colStart: int, colEnd: int)

  datatype Pixel = Pixel(i: int, j: int)

  /** One frame-buffer store `frame_buffer[index] = color(pixel)`. */
  datatype Write = Write(index: int, pixel: Pixel)

  function Min(a: int, b: int): int {
    if b < a then b else a
  }

  predicate InImage(w: int, h: int, p: Pixel) {
    0 <= p.i < w && 0 <= p.j < h
  }

  predicate Contains(t: Tile, p: Pixel) {
    t.rowStart <= p.i < t.rowEnd && t.colStart <= p.j < t.colEnd
  }

  /** The tile is a non-empty rectangle inside the image. */
  predicate Placed(t: Tile, w: int, h: int) {
    0 <= t.rowStart < t.rowEnd <= w && 0 <= t.colStart < t.colEnd <= h
  }

  predicate ColumnCovered(ts: seq<Tile>, x: int) {
    exists k :: 0 <= k < |ts| && ts[k].rowStart <= x < ts[k].rowEnd
  }

  predicate PixelCovered(ts: seq<Tile>, p: Pixel) {
    exists k :: 0 <= k < |ts| && Contains(ts[k], p)
  }

  /** `s` comes before `t` in the scheduling order: a lower band, or the same band further left. */
  predicate Before(s: Tile, t: Tile) {
    s.colEnd <= t.colStart || (s.colStart == t.colStart && s.rowEnd <= t.rowStart)
  }

  // -----------------------------------------------------------------------
  // Strides and strips

  /** `int(ceil((double)size / batch))`: the tile extent along one axis. */
  function Stride(size: int, batch: int): (s: int)
    requires size >= 0 && batch >= 1
    ensures s * batch >= size
    ensures size >= 1 ==> s >= 1 && (s - 1) * batch < size
    ensures size == 0 ==> s == 0
  {
    var q := (size + batch - 1) / batch;
    assert q * batch + (size + batch - 1) % batch == size + batch - 1;
    q
  }

  /** The number of loop iterations `for (x = 0; x < n; x += s)`, counted from the far end. */
  function Strips(n: int, s: int): nat
    requires n > 0 ==> s >= 1
    decreases if n > 0 then n else 0
  {
    if n <= 0 then 0 else 1 + Strips(n - s, s)
  }

  /** The strips of extent `s` cover `q * s >= n` cells in at most `q` steps. */
  lemma {:induction false} StripsAtMost(n: int, s: int, q: int)
    requires s >= 1 && q >= 0
    requires q * s >= n
    ensures Strips(n, s) <= q
    decreases if n > 0 then n else 0
  {
    if n > 0 {
      assert q >= 1;
      StripsAtMost(n - s, s, q - 1);
    }
  }

  // -----------------------------------------------------------------------
  // The nested scheduling loops (renderer.h:107-118, main.cpp:190-201)

  /** The inner loop: one band of tiles at row `j`, columns from `i` on. */
  function RowTiles(i: int, j: int, w: int, h: int, sx: int, sy: int): (ts: seq<Tile>)
    requires 0 <= i && 0 <= j < h && sy >= 1
    requires i < w ==> sx >= 1
    decreases w - i
    ensures |ts| == Strips(w - i, sx)
    ensures forall k :: 0 <= k < |ts| ==>
      && i <= ts[k].rowStart < ts[k].rowEnd <= w
      && ts[k].rowEnd == Min(ts[k].rowStart + sx, w)
      && ts[k].colStart == j && ts[k].colEnd == Min(j + sy, h)
  {
    if i >= w then []
    else [Tile(i, Min(i + sx, w), j, Min(j + sy, h))] + RowTiles(i + sx, j, w, h, sx, sy)
  }

  /** The outer loop: all bands from row `j` upwards. */
  function GridTiles(j: int, w: int, h: int, sx: int, sy: int): (ts: seq<Tile>)
    requires 0 <= j && 0 <= w
    requires 0 < w ==> sx >= 1
    requires j < h ==> sy >= 1
    decreases h - j
    ensures forall k :: 0 <= k < |ts| ==> Placed(ts[k], w, h) && j <= ts[k].colStart
  {
    if j >= h then [] else RowTiles(0, j, w, h, sx, sy) + GridTiles(j + sy, w, h, sx, sy)
  }

  /** Each tile ends at or before the next one starts, column-wise. */
  predicate LeftToRight(ts: seq<Tile>) {
    forall a, b :: 0 <= a < b < |ts| ==> ts[a].rowEnd <= ts[b].rowStart
  }

  /** Every tile comes `Before` every later one. */
  predicate Scheduled(ts: seq<Tile>) {
    forall a, b :: 0 <= a < b < |ts| ==> Before(ts[a], ts[b])
  }

  /** Within a band the tiles run left to right without overlap. */
  lemma {:induction false} RowTilesOrdered(i: int, j: int, w: int, h: int, sx: int, sy: int)
    requires 0 <= i && 0 <= j < h && sy >= 1
    requires i < w ==> sx >= 1
    ensures LeftToRight(RowTiles(i, j, w, h, sx, sy))
    decreases w - i
  {
    if i < w {
      var ts, rest := RowTiles(i, j, w, h, sx, sy), RowTiles(i + sx, j, w, h, sx, sy);
      RowTilesOrdered(i + sx, j, w, h, sx, sy);
      assert ts == [Tile(i, Min(i + sx, w), j, Min(j + sy, h))] + rest;
      forall a, b | 0 <= a < b < |ts|
        ensures ts[a].rowEnd <= ts[b].rowStart
      {
        assert ts[b] == rest[b - 1];
        if a > 0 {
          assert ts[a] == rest[a - 1];
        }
      }
    }
  }

  /** The tiles come in scheduling order: band by band upwards, left to right within a band. */
  lemma {:induction false} GridTilesOrdered(j: int, w: int, h: int, sx: int, sy: int)
    requires 0 <= j && 0 <= w
    requires 0 < w ==> sx >= 1
    requires j < h ==> sy >= 1
    ensures Scheduled(GridTiles(j, w, h, sx, sy))
    decreases h - j
  {
    if j < h {
      var band, rest := RowTiles(0, j, w, h, sx, sy), GridTiles(j + sy, w, h, sx, sy);
      var ts := GridTiles(j, w, h, sx, sy);
      assert ts == band + rest;
      RowTilesOrdered(0, j, w, h, sx, sy);
      GridTilesOrdered(j + sy, w, h, sx, sy);
      forall a, b | 0 <= a < b < |ts|
        ensures Before(ts[a], ts[b])
      {
        if b < |band| {
          assert ts[a] == band[a] && ts[b] == band[b];
          assert band[a].colStart == j == band[b].colStart;
          assert band[a].rowEnd <= band[b].rowStart;
        } else if a < |band| {
          assert ts[a] == band[a] && ts[b] == rest[b - |band|];
          assert band[a].colEnd <= j + sy <= rest[b - |band|].colStart;
        } else {
          assert ts[a] == rest[a - |band|] && ts[b] == rest[b - |band|];
        }
      }
    }
  }

  /** There are as many bands as row strips, each with as many tiles as column strips. */
  lemma {:induction false} GridTilesCount(j: int, w: int, h: int, sx: int, sy: int)
    requires 0 <= j && 0 <= w
    requires 0 < w ==> sx >= 1
    requires j < h ==> sy >= 1
    ensures |GridTiles(j, w, h, sx, sy)| == Strips(h - j, sy) * Strips(w, sx)
    decreases h - j
  {
    if j < h {
      GridTilesCount(j + sy, w, h, sx, sy);
      var n := Strips(w, sx);
      assert Strips(h - j, sy) * n == n + Strips(h - (j + sy), sy) * n;
    }
  }

  /** The tiles handed to the worker threads, in thread-creation order. */
  function Partition(w: int, h: int, batchX: int, batchY: int): seq<Tile>
    requires w >= 0 && h >= 0 && batchX >= 1 && batchY >= 1
  {
    GridTiles(0, w, h, Stride(w, batchX), Stride(h, batchY))
  }

  // -----------------------------------------------------------------------
  // Properties of the partition

  /** Every tile is a non-empty rectangle inside the image, and each has the clamped stride extent. */
  lemma PartitionTilesPlaced(w: int, h: int, batchX: int, batchY: int)
    requires w >= 0 && h >= 0 && batchX >= 1 && batchY >= 1
    ensures w >= 1 ==> Stride(w, batchX) >= 1
    ensures h >= 1 ==> Stride(h, batchY) >= 1
    ensures forall t :: t in Partition(w, h, batchX, batchY) ==>
      && Placed(t, w, h)
      && t.rowEnd == Min(t.rowStart + Stride(w, batchX), w)
      && t.colEnd == Min(t.colStart + Stride(h, batchY), h)
  {
    var sx, sy := Stride(w, batchX), Stride(h, batchY);
    forall t | t in Partition(w, h, batchX, batchY)
      ensures t.rowEnd == Min(t.rowStart + sx, w)
      ensures t.colEnd == Min(t.colStart + sy, h)
    {
      GridTilesExtents(0, w, h, sx, sy, t);
    }
  }

  lemma {:induction false} GridTilesExtents(j: int, w: int, h: int, sx: int, sy: int, t: Tile)
    requires 0 <= j && 0 <= w
    requires 0 < w ==> sx >= 1
    requires j < h ==> sy >= 1
    requires t in GridTiles(j, w, h, sx, sy)
    ensures t.rowEnd == Min(t.rowStart + sx, w)
    ensures t.colEnd == Min(t.colStart + sy, h)
    decreases h - j
  {
    var band := RowTiles(0, j, w, h, sx, sy);
    var rest := GridTiles(j + sy, w, h, sx, sy);
    assert GridTiles(j, w, h, sx, sy) == band + rest;
    if t in band {
      var k :| 0 <= k < |band| && band[k] == t;
      assert band[k].rowEnd == Min(band[k].rowStart + sx, w);
      assert band[k].colStart == j && band[k].colEnd == Min(j + sy, h);
    } else {
      assert t in rest;
      GridTilesExtents(j + sy, w, h, sx, sy, t);
    }
  }

  /** The band starting at column `i` covers every column from `i` to the right edge. */
  lemma {:induction false} RowTilesCover(i: int, j: int, w: int, h: int, sx: int, sy: int, x: int)
    requires 0 <= i && 0 <= j < h && sy >= 1
    requires i < w ==> sx >= 1
    requires i <= x < w
    ensures ColumnCovered(RowTiles(i, j, w, h, sx, sy), x)
    decreases w - i
  {
    var ts, rest := RowTiles(i, j, w, h, sx, sy), RowTiles(i + sx, j, w, h, sx, sy);
    var first := Tile(i, Min(i + sx, w), j, Min(j + sy, h));
    assert ts == [first] + rest;
    if x < i + sx {
      assert ts[0] == first;
      CoveredBy(ts, 0, x);
    } else {
      RowTilesCover(i + sx, j, w, h, sx, sy, x);
      var k :| 0 <= k < |rest| && rest[k].rowStart <= x < rest[k].rowEnd;
      assert ts[k + 1] == rest[k];
      CoveredBy(ts, k + 1, x);
    }
  }

  lemma CoveredBy(ts: seq<Tile>, k: int, x: int)
    requires 0 <= k < |ts| && ts[k].rowStart <= x < ts[k].rowEnd
    ensures ColumnCovered(ts, x)
  {}

  /** The bands from row `j` up cover every pixel at or above row `j`. */
  lemma {:induction false} GridTilesCover(j: int, w: int, h: int, sx: int, sy: int, p: Pixel)
    requires 0 <= j && 0 <= w
    requires 0 < w ==> sx >= 1
    requires j < h ==> sy >= 1
    requires 0 <= p.i < w && j <= p.j < h
    ensures PixelCovered(GridTiles(j, w, h, sx, sy), p)
    decreases h - j
  {
    var band := RowTiles(0, j, w, h, sx, sy);
    var rest := GridTiles(j + sy, w, h, sx, sy);
    var ts := GridTiles(j, w, h, sx, sy);
    assert ts == band + rest;
    if p.j < j + sy {
      RowTilesCover(0, j, w, h, sx, sy, p.i);
      var k :| 0 <= k < |band| && band[k].rowStart <= p.i < band[k].rowEnd;
      assert ts[k] == band[k];
      assert Contains(ts[k], p);
    } else {
      GridTilesCover(j + sy, w, h, sx, sy, p);
      var k :| 0 <= k < |rest| && Contains(rest[k], p);
      assert ts[|band| + k] == rest[k];
    }
  }

  /** Two tiles in scheduling order share no pixel. */
  lemma BeforeDisjoint(s: Tile, t: Tile, p: Pixel)
    requires Before(s, t)
    ensures !(Contains(s, p) && Contains(t, p))
  {}

  /** Each pixel of the image lies in exactly one tile. */
  lemma PartitionExactlyOnce(w: int, h: int, batchX: int, batchY: int, p: Pixel)
    requires w >= 0 && h >= 0 && batchX >= 1 && batchY >= 1
    requires InImage(w, h, p)
    ensures PixelCovered(Partition(w, h, batchX, batchY), p)
    ensures forall a, b :: 0 <= a < b < |Partition(w, h, batchX, batchY)| ==>
      !(Contains(Partition(w, h, batchX, batchY)[a], p) && Contains(Partition(w, h, batchX, batchY)[b], p))
  {
    var ts := Partition(w, h, batchX, batchY);
    GridTilesCover(0, w, h, Stride(w, batchX), Stride(h, batchY), p);
    GridTilesOrdered(0, w, h, Stride(w, batchX), Stride(h, batchY));
    forall a, b | 0 <= a < b < |ts|
      ensures !(Contains(ts[a], p) && Contains(ts[b], p))
    {
      BeforeDisjoint(ts[a], ts[b], p);
    }
  }

  /**
   * There are `ceil(w / stride_x) * ceil(h / stride_y)` tiles, never more
   * than the `batch_x * batch_y` slots, but possibly fewer.
   */
  lemma TileCount(w: int, h: int, batchX: int, batchY: int)
    requires w >= 0 && h >= 0 && batchX >= 1 && batchY >= 1
    ensures |Partition(w, h, batchX, batchY)| == Strips(w, Stride(w, batchX)) * Strips(h, Stride(h, batchY))
    ensures |Partition(w, h, batchX, batchY)| <= batchX * batchY
  {
    var sx, sy := Stride(w, batchX), Stride(h, batchY);
    var nx, ny := Strips(w, sx), Strips(h, sy);
    assert |Partition(w, h, batchX, batchY)| == nx * ny by {
      GridTilesCount(0, w, h, sx, sy);
    }
    assert nx <= batchX by {
      StripsWithin(w, batchX);
    }
    assert ny <= batchY by {
      StripsWithin(h, batchY);
    }
    MulMonotone(nx, batchX, ny, batchY);
  }

  /** A side cut at its stride gives at most `batch` strips. */
  lemma StripsWithin(size: int, batch: int)
    requires size >= 0 && batch >= 1
    ensures Strips(size, Stride(size, batch)) <= batch
  {
    var s := Stride(size, batch);
    if size >= 1 {
      assert batch * s >= size;
      StripsAtMost(size, s, batch);
    }
  }

  lemma MulMonotone(a: int, b: int, c: int, d: int)
    requires 0 <= a <= b && 0 <= c <= d
    ensures a * c <= b * d
  {
    assert a * c <= b * c;
    assert b * c <= b * d;
  }

  // -----------------------------------------------------------------------
  // Frame-buffer indices (renderer.h:79-94, main.cpp:152-174)

  /** `(image_height - 1 - j) * image_width + i`: the top row is stored first. */
  function PixelIndex(w: int, h: int, p: Pixel): (n: int)
    requires InImage(w, h, p)
    ensures 0 <= n < w * h
  {
    RowStart(h - 1 - p.j, h, w);
    (h - 1 - p.j) * w + p.i
  }

  /** Row `a` of an image `h` rows high starts at `a w` and ends at most at `w h`. */
  lemma RowStart(a: int, h: int, w: int)
    requires 0 <= a < h && w >= 0
    ensures 0 <= a * w && a * w + w <= w * h
  {
    MulStep(a, h, w);
    assert h * w == w * h;
  }

  /** The pixel stored at index `n`: the inverse of `PixelIndex`. */
  function PixelAt(w: int, h: int, n: int): (p: Pixel)
    requires w >= 1 && 0 <= n < w * h
    ensures InImage(w, h, p) && PixelIndex(w, h, p) == n
  {
    var q, r := n / w, n % w;
    assert q * w + r == n;
    Pixel(r, h - 1 - q)
  }

  /** Distinct pixels are stored at distinct indices. */
  lemma PixelIndexInjective(w: int, h: int, p: Pixel, q: Pixel)
    requires InImage(w, h, p) && InImage(w, h, q)
    requires PixelIndex(w, h, p) == PixelIndex(w, h, q)
    ensures p == q
  {
    var a, b := h - 1 - p.j, h - 1 - q.j;
    if a < b {
      MulStep(a, b, w);
    } else if b < a {
      MulStep(b, a, w);
    }
  }

  /** Rows further apart than one are stored at least a full row apart. */
  lemma MulStep(a: int, b: int, w: int)
    requires a < b && w >= 0
    ensures a * w + w <= b * w
  {
    var d := b - a - 1;
    assert d * w >= 0;
    assert b * w == a * w + w + d * w;
  }

  /** The stores a worker owes for row `j` of tile `t`: each pixel at its own index. */
  function RowWrites(t: Tile, j: int, w: int, h: int): (ws: seq<Write>)
    requires 0 <= t.rowStart <= t.rowEnd <= w && 0 <= j < h
    ensures |ws| == t.rowEnd - t.rowStart
    ensures forall k :: 0 <= k < |ws| ==> ws[k].pixel == Pixel(t.rowStart + k, j)
    ensures forall k :: 0 <= k < |ws| ==> ws[k].index == (h - 1 - j) * w + t.rowStart + k
  {
    seq(t.rowEnd - t.rowStart, k => Write((h - 1 - j) * w + t.rowStart + k, Pixel(t.rowStart + k, j)))
  }

  /** The stores owed for rows `j` up to `colEnd` of tile `t`, bottom row first. */
  function TileWrites(t: Tile, j: int, w: int, h: int): (ws: seq<Write>)
    requires 0 <= t.rowStart <= t.rowEnd <= w && 0 <= t.colStart <= t.colEnd <= h && t.colStart <= j
    decreases t.colEnd - j
  {
    if j >= t.colEnd then [] else RowWrites(t, j, w, h) + TileWrites(t, j + 1, w, h)
  }

  /** There are as many owed stores as pixels of the tile from row `j` up. */
  lemma {:induction false} TileWritesLength(t: Tile, j: int, w: int, h: int)
    requires 0 <= t.rowStart <= t.rowEnd <= w && 0 <= t.colStart <= t.colEnd <= h && t.colStart <= j <= t.colEnd
    ensures |TileWrites(t, j, w, h)| == (t.colEnd - j) * (t.rowEnd - t.rowStart)
    decreases t.colEnd - j
  {
    if j < t.colEnd {
      TileWritesLength(t, j + 1, w, h);
      var tw := t.rowEnd - t.rowStart;
      assert (t.colEnd - j) * tw == tw + (t.colEnd - (j + 1)) * tw;
    }
  }

  /** Every owed store is a pixel of the tile, from row `j` up, stored at its own index. */
  lemma {:induction false} TileWritesSound(t: Tile, j: int, w: int, h: int)
    requires 0 <= t.rowStart <= t.rowEnd <= w && 0 <= t.colStart <= t.colEnd <= h && t.colStart <= j
    ensures forall wr :: wr in TileWrites(t, j, w, h) ==>
      Contains(t, wr.pixel) && j <= wr.pixel.j && wr.index == PixelIndex(w, h, wr.pixel)
    decreases t.colEnd - j
  {
    if j < t.colEnd {
      TileWritesSound(t, j + 1, w, h);
      var row := RowWrites(t, j, w, h);
      forall wr | wr in row
        ensures Contains(t, wr.pixel) && j <= wr.pixel.j && wr.index == PixelIndex(w, h, wr.pixel)
      {
        var k :| 0 <= k < |row| && row[k] == wr;
      }
    }
  }

  /** Every pixel of the tile from row `j` up is owed a store. */
  lemma {:induction false} TileWritesComplete(t: Tile, j: int, w: int, h: int, p: Pixel)
    requires 0 <= t.rowStart <= t.rowEnd <= w && 0 <= t.colStart <= t.colEnd <= h && t.colStart <= j
    requires Contains(t, p) && j <= p.j
    ensures WritesPixel(TileWrites(t, j, w, h), p)
    decreases t.colEnd - j
  {
    var row, rest := RowWrites(t, j, w, h), TileWrites(t, j + 1, w, h);
    var ws := TileWrites(t, j, w, h);
    assert ws == row + rest;
    if p.j == j {
      assert ws[p.i - t.rowStart] == row[p.i - t.rowStart];
      assert ws[p.i - t.rowStart].pixel == p;
    } else {
      TileWritesComplete(t, j + 1, w, h, p);
      var k :| 0 <= k < |rest| && rest[k].pixel == p;
      assert ws[|row| + k] == rest[k];
    }
  }

  predicate WritesPixel(ws: seq<Write>, p: Pixel) {
    exists k :: 0 <= k < |ws| && ws[k].pixel == p
  }

  /**
   * One row of the worker's inner loop: the counter `m` starts at the
   * index of the row's first pixel and is incremented after each store.
   */
  method RenderRow(t: Tile, j: int, w: int, h: int) returns (writes: seq<Write>)
    requires 0 <= t.rowStart <= t.rowEnd <= w && 0 <= j < h
    ensures writes == RowWrites(t, j, w, h)
  {
    var m := (h - 1 - j) * w + t.rowStart;
    var i := t.rowStart;
    writes := [];
    while i < t.rowEnd
      invariant t.rowStart <= i <= t.rowEnd
      invariant m == (h - 1 - j) * w + i
      invariant |writes| == i - t.rowStart
      invariant forall k :: 0 <= k < |writes| ==> writes[k] == RowWrites(t, j, w, h)[k]
    {
      assert RowWrites(t, j, w, h)[i - t.rowStart] == Write(m, Pixel(i, j));
      writes := writes + [Write(m, Pixel(i, j))];
      m := m + 1;
      i := i + 1;
    }
  }

  /**
   * The worker for tile `t` (renderer.h:74-101): for each row from
   * `colStart` it starts the counter `m` at the row's first index and
   * stores the row's pixels at `m++`. The stores are listed in the order
   * the worker makes them; they are the stores the tile owes, so each of
   * the tile's pixels lands at its own index and nowhere else is touched.
   */
  method RenderTile(t: Tile, w: int, h: int) returns (writes: seq<Write>)
    requires 0 <= t.rowStart <= t.rowEnd <= w && 0 <= t.colStart <= t.colEnd <= h
    ensures writes == TileWrites(t, t.colStart, w, h)
    ensures |writes| == (t.colEnd - t.colStart) * (t.rowEnd - t.rowStart)
    ensures forall wr :: wr in writes ==> Contains(t, wr.pixel) && wr.index == PixelIndex(w, h, wr.pixel)
    ensures forall p :: Contains(t, p) ==> WritesPixel(writes, p)
  {
    writes := [];
    var j := t.colStart;
    while j < t.colEnd
      invariant t.colStart <= j <= t.colEnd
      invariant writes + TileWrites(t, j, w, h) == TileWrites(t, t.colStart, w, h)
    {
      var row := RenderRow(t, j, w, h);
      writes := writes + row;
      j := j + 1;
    }
    TileWritesLength(t, t.colStart, w, h);
    TileWritesSound(t, t.colStart, w, h);
    forall p | Contains(t, p)
      ensures WritesPixel(writes, p)
    {
      TileWritesComplete(t, t.colStart, w, h, p);
    }
  }

  /**
   * The single-threaded renderer (renderer.h:152-166): rows from the top
   * down, columns left to right, the counter `m` numbering the stores.
   */
  method SingleThreadScan(w: int, h: int) returns (order: seq<Pixel>)
    requires w >= 0 && h >= 0
    ensures |order| == w * h
    ensures forall m :: 0 <= m < |order| ==> InImage(w, h, order[m]) && PixelIndex(w, h, order[m]) == m
  {
    order := [];
    var j := h - 1;
    var m := 0;
    while j >= 0
      invariant -1 <= j <= h - 1
      invariant m == |order| == (h - 1 - j) * w
      invariant forall n :: 0 <= n < |order| ==> InImage(w, h, order[n]) && PixelIndex(w, h, order[n]) == n
    {
      var i := 0;
      while i < w
        invariant 0 <= i <= w
        invariant m == |order| == (h - 1 - j) * w + i
        invariant forall n :: 0 <= n < |order| ==> InImage(w, h, order[n]) && PixelIndex(w, h, order[n]) == n
      {
        order := order + [Pixel(i, j)];
        i := i + 1;
        m := m + 1;
      }
      j := j - 1;
    }
  }

  /**
   * A worker stores pixel `p` at the same index at which the single-threaded
   * scan stores it, and no other pixel shares that index.
   */
  lemma WorkerAgreesWithScan(w: int, h: int, order: seq<Pixel>, p: Pixel)
    requires InImage(w, h, p)
    requires |order| == w * h
    requires forall m :: 0 <= m < |order| ==> InImage(w, h, order[m]) && PixelIndex(w, h, order[m]) == m
    ensures order[PixelIndex(w, h, p)] == p
  {
    var n := PixelIndex(w, h, p);
    PixelIndexInjective(w, h, order[n], p);
  }

  /**
   * Across all workers, every frame-buffer slot is stored by exactly one
   * tile: the tile holding the pixel whose index it is.
   */
  lemma FrameBufferWrittenOnce(w: int, h: int, batchX: int, batchY: int, n: int)
    requires w >= 1 && h >= 0 && batchX >= 1 && batchY >= 1
    requires 0 <= n < w * h
    ensures exists k, p :: (0 <= k < |Partition(w, h, batchX, batchY)| && InImage(w, h, p) &&
      Contains(Partition(w, h, batchX, batchY)[k], p) && PixelIndex(w, h, p) == n)
    ensures forall k1, k2, p1, p2 ::
      0 <= k1 < |Partition(w, h, batchX, batchY)| && 0 <= k2 < |Partition(w, h, batchX, batchY)| &&
      InImage(w, h, p1) && InImage(w, h, p2) &&
      Contains(Partition(w, h, batchX, batchY)[k1], p1) && Contains(Partition(w, h, batchX, batchY)[k2], p2) &&
      PixelIndex(w, h, p1) == n && PixelIndex(w, h, p2) == n
      ==> k1 == k2 && p1 == p2
  {
    var ts := Partition(w, h, batchX, batchY);
    var p := PixelAt(w, h, n);
    PartitionExactlyOnce(w, h, batchX, batchY, p);
    forall k1, k2, p1, p2 |
      0 <= k1 < |ts| && 0 <= k2 < |ts| && InImage(w, h, p1) && InImage(w, h, p2) &&
      Contains(ts[k1], p1) && Contains(ts[k2], p2) && PixelIndex(w, h, p1) == n && PixelIndex(w, h, p2) == n
      ensures k1 == k2 && p1 == p2
    {
      PixelIndexInjective(w, h, p1, p2);
      PartitionExactlyOnce(w, h, batchX, batchY, p1);
    }
  }

  // -----------------------------------------------------------------------
  // Joining the workers (renderer.h:120-123)

  /** Slot `k` of the thread vector holds the worker for tile `k`; a join of slot `k` needs that worker. */
  predicate JoinsValid(slots: seq<int>, tiles: seq<Tile>) {
    forall k :: 0 <= k < |slots| ==> 0 <= slots[k] < |tiles|
  }

  /** The join loop as written: it visits slots `0 .. batch_x * batch_y - 1` whatever the number of tiles. */
  function JoinSlotsAsWritten(batchX: int, batchY: int): (slots: seq<int>)
    requires batchX >= 1 && batchY >= 1
    ensures |slots| == batchX * batchY
  {
    seq(batchX * batchY, k => k)
  }

  /**
   * The loop as written indexes past the thread vector: a 5-pixel-wide,
   * 1-pixel-high image split 4 ways across has stride `ceil(5 / 4) = 2`
   * and only 3 tiles, yet slot 3 is joined.
   */
  lemma JoinOverrunsFiveColumnsFourWays()
    ensures |Partition(5, 1, 4, 1)| == 3
    ensures !JoinsValid(JoinSlotsAsWritten(4, 1), Partition(5, 1, 4, 1))
  {
    TileCount(5, 1, 4, 1);
    assert Stride(5, 4) == 2 && Stride(1, 1) == 1;
    assert Strips(5, 2) == 3 && Strips(1, 1) == 1;
    assert JoinSlotsAsWritten(4, 1)[3] == 3;
  }

  /** The corrected join loop: one join per worker actually created. */
  function JoinSlots(tiles: seq<Tile>): (slots: seq<int>)
    ensures JoinsValid(slots, tiles)
    ensures forall k :: 0 <= k < |tiles| ==> k in slots
    ensures |slots| == |tiles|
  {
    var slots := seq(|tiles|, k => k);
    JoinSlotsCover(slots, |tiles|);
    slots
  }

  lemma JoinSlotsCover(slots: seq<int>, n: int)
    requires |slots| == n && forall k :: 0 <= k < n ==> slots[k] == k
    ensures forall k :: 0 <= k < n ==> k in slots
  {
    forall k | 0 <= k < n
      ensures k in slots
    {
      assert slots[k] == k;
    }
  }

  /** The loop as written is safe exactly when every slot was filled, i.e. there are `batch_x * batch_y` tiles. */
  lemma JoinAsWrittenValidIff(w: int, h: int, batchX: int, batchY: int)
    requires w >= 0 && h >= 0 && batchX >= 1 && batchY >= 1
    ensures JoinsValid(JoinSlotsAsWritten(batchX, batchY), Partition(w, h, batchX, batchY))
        <==> |Partition(w, h, batchX, batchY)| == batchX * batchY
  {
    var slots, n := JoinSlotsAsWritten(batchX, batchY), |Partition(w, h, batchX, batchY)|;
    TileCount(w, h, batchX, batchY);
    if n < batchX * batchY {
      assert slots[n] == n;
    }
  }
}
