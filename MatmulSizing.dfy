/**
 * The tile-memory sizing arithmetic of test/ipu-xrt/e2e/test_perf.py:
 * how many fat rows and columns fit in a tile's data memory, how many
 * time slices the broadcast outer-product test needs, how the fat rows
 * are rounded to the number of core rows, and the guards on the DMA
 * iteration counts.
 */
module MatmulSizing {
  import opened Results

  datatype SizingError =
    | DoesNotFit(oneRowColSize: int)   // ValueError: not even one row/col fits
    | ZeroDivision                     // ZeroDivisionError from `//` by zero core rows
    | NotEnoughRows                    // ValueError: not enough rows per memtile
    | TooManyIterations(count: int)    // ValueError: a per-round iteration count above 64

  /** `total_size(a, b)` of `num_rows_cols_per_tile`, over the three byte sizes of one block. */
  function TotalSize(rowSize: nat, colSize: nat, innerSize: nat, a: nat, b: nat): nat
  {
    rowSize * a + colSize * b + (a * b) * innerSize
  }

  lemma MulLeMono(c: nat, x: nat, y: nat)
    requires x <= y
    ensures c * x <= c * y
  {
  }

  /** `a` rows and columns never take more room than `a'` of each when `a <= a'`. */
  lemma TotalSizeMono(rowSize: nat, colSize: nat, innerSize: nat, x: nat, y: nat)
    requires x <= y
    ensures TotalSize(rowSize, colSize, innerSize, x, x) <= TotalSize(rowSize, colSize, innerSize, y, y)
  {
    MulLeMono(rowSize, x, y);
    MulLeMono(colSize, x, y);
    MulLeMono(x, x, y);
    MulLeMono(y, x, y);
    MulLeMono(innerSize, x * x, y * y);
  }

  /** One more row and column always take more room, when a block has any size at all. */
  lemma TotalSizeGrows(rowSize: nat, colSize: nat, innerSize: nat, a: nat)
    requires rowSize + colSize + innerSize > 0
    ensures TotalSize(rowSize, colSize, innerSize, a, a) < TotalSize(rowSize, colSize, innerSize, a + 1, a + 1)
  {
    assert (a + 1) * (a + 1) == a * a + 2 * a + 1;
    MulLeMono(innerSize, a * a, a * a + 2 * a);
  }

  /**
   * The count `a` is the greatest that fits: exactly the counts up to `a`
   * fit in the memory.
   */
  lemma GreatestFit(rowSize: nat, colSize: nat, innerSize: nat, memory: nat, a: nat, x: nat)
    requires TotalSize(rowSize, colSize, innerSize, a, a) <= memory
    requires TotalSize(rowSize, colSize, innerSize, a + 1, a + 1) > memory
    ensures TotalSize(rowSize, colSize, innerSize, x, x) <= memory <==> x <= a
  {
    if x <= a {
      TotalSizeMono(rowSize, colSize, innerSize, x, a);
    } else {
      TotalSizeMono(rowSize, colSize, innerSize, a + 1, x);
    }
  }

  /**
   * The loop of `num_rows_cols_per_tile`: grows the number of fat rows and
   * of fat columns together for as long as one more of each still fits.
   * It only ends when a block has a size, hence the precondition.
   */
  method GreedyFit(rowSize: nat, colSize: nat, innerSize: nat, memory: nat) returns (a: nat, b: nat)
    requires rowSize + colSize + innerSize > 0
    ensures a == b
    ensures TotalSize(rowSize, colSize, innerSize, a, b) <= memory
    ensures TotalSize(rowSize, colSize, innerSize, a + 1, b + 1) > memory
  {
    a, b := 0, 0;
    while TotalSize(rowSize, colSize, innerSize, a + 1, b + 1) <= memory
      invariant a == b
      invariant TotalSize(rowSize, colSize, innerSize, a, b) <= memory
      decreases memory - TotalSize(rowSize, colSize, innerSize, a, b)
    {
      TotalSizeGrows(rowSize, colSize, innerSize, a);
      a := a + 1;
      b := b + 1;
    }
  }

  /**
   * `num_rows_cols_per_tile`: the greatest equal numbers of fat rows and
   * fat columns of an m-by-k and a k-by-n block, with their m-by-n
   * products, that fit in the memory; refused when not even one of each
   * fits.
   */
  method NumRowsColsPerTile(m: nat, k: nat, n: nat, dtypeSize: nat, memory: nat)
    returns (r: Result<(nat, nat), SizingError>)
    requires m * k * dtypeSize + k * n * dtypeSize + m * n * dtypeSize > 0
    ensures var rowSize, colSize, innerSize := m * k * dtypeSize, k * n * dtypeSize, m * n * dtypeSize;
      && (r.Err? <==> TotalSize(rowSize, colSize, innerSize, 1, 1) > memory)
      && (r.Err? ==> r.error == DoesNotFit(TotalSize(rowSize, colSize, innerSize, 1, 1)))
      && (r.Ok? ==> && r.value.0 == r.value.1 && r.value.0 >= 1
                    && TotalSize(rowSize, colSize, innerSize, r.value.0, r.value.1) <= memory
                    && TotalSize(rowSize, colSize, innerSize, r.value.0 + 1, r.value.1 + 1) > memory)
  {
    var rowSize := m * k * dtypeSize;
    var colSize := k * n * dtypeSize;
    var innerSize := m * n * dtypeSize;
    var a, b := GreedyFit(rowSize, colSize, innerSize, memory);
    if a == 0 || b == 0 {
      r := Err(DoesNotFit(TotalSize(rowSize, colSize, innerSize, 1, 1)));
    } else {
      GreatestFit(rowSize, colSize, innerSize, memory, a, 1);
      r := Ok((a, b));
    }
  }

  /** The bytes one core needs for its A, B and C blocks of 4-byte elements. */
  function SliceBytes(m: int, k: int, n: int): int
  {
    (m * k + k * n + m * n) * 4
  }

  /** `slices` doubled `j` times. */
  function Doubled(slices: nat, j: nat): (r: nat)
    ensures r >= slices
  {
    if j == 0 then slices else 2 * Doubled(slices, j - 1)
  }

  /** While the blocks do not fit, there are fewer slices than K: a slice width of 0 would fit. */
  lemma StillWide(m: int, bigK: nat, n: int, slices: nat)
    requires slices > 0
    requires SliceBytes(m, 0, n) < 64 * 1024
    requires SliceBytes(m, bigK / slices, n) >= 64 * 1024
    ensures slices <= bigK
  {
  }

  /**
   * The `time_slices` loop of the broadcast outer-product test: doubles
   * the number of slices of the K dimension until one core's blocks take
   * less than 64 KiB, and stops at the first count that fits. It ends
   * because a slice width of 0 leaves only the C block, which the
   * precondition makes small enough.
   */
  method TimeSlices(bigM: nat, bigK: nat, bigN: nat, nCols: nat, nRows: nat, timeSlices: nat)
    returns (slices: nat, doublings: nat, m: int, k: int, n: int)
    requires nCols > 0 && nRows > 0 && timeSlices > 0
    requires SliceBytes(bigM / nCols, 0, bigN / nRows) < 64 * 1024
    ensures slices == Doubled(timeSlices, doublings)
    ensures m == bigM / nCols && n == bigN / nRows && k == bigK / slices
    ensures SliceBytes(m, k, n) < 64 * 1024
    ensures forall j :: 0 <= j < doublings ==> SliceBytes(m, bigK / Doubled(timeSlices, j), n) >= 64 * 1024
  {
    slices, doublings := timeSlices, 0;
    m, k, n := bigM / nCols, bigK / slices, bigN / nRows;
    while SliceBytes(m, k, n) >= 64 * 1024
      invariant m == bigM / nCols && n == bigN / nRows && k == bigK / slices
      invariant slices == Doubled(timeSlices, doublings) && slices > 0
      invariant forall j :: 0 <= j < doublings ==> SliceBytes(m, bigK / Doubled(timeSlices, j), n) >= 64 * 1024
      decreases bigK + 1 - slices
    {
      StillWide(m, bigK, n, slices);
      slices := slices * 2;
      doublings := doublings + 1;
      m, k, n := bigM / nCols, bigK / slices, bigN / nRows;
    }
  }

  /**
   * The rounding of the fat rows per memory tile in the row-product test:
   * with fewer packed rows than core rows, only that many core rows are
   * used; then every core gets the same number of fat rows, and the fat
   * rows and fat columns per memory tile both become that multiple of the
   * number of cores. Returns the core rows used, the fat rows per core and
   * the rounded count.
   */
  method RoundRowsToCores(packed: nat, coreRows: seq<int>) returns (r: Result<(seq<int>, nat, nat), SizingError>)
    ensures r.Err? <==> coreRows == [] || packed == 0
    ensures r.Err? ==> r.error == ZeroDivision
    ensures r.Ok? ==> var (rows, perCore, fat) := r.value;
      && rows == CoresUsed(packed, coreRows)
      && perCore == packed / |rows|
      && fat == perCore * |rows| && perCore >= 1
      && fat <= packed < fat + |rows|
  {
    var rows := coreRows;
    if packed < |rows| {
      rows := rows[..packed];
    }
    if |rows| == 0 {
      return Err(ZeroDivision);
    }
    var perCore := packed / |rows|;
    var fat := perCore * |rows|;
    if fat == 0 {
      return Err(NotEnoughRows);
    }
    r := Ok((rows, perCore, fat));
  }

  /** The core rows kept by the rounding: no more than there are packed rows. */
  function CoresUsed(packed: nat, coreRows: seq<int>): seq<int>
  {
    coreRows[..if packed < |coreRows| then packed else |coreRows|]
  }

  /** The ValueError of the rounding is never raised: a rounded count of zero is a division by zero first. */
  lemma RoundingNeverShort(packed: nat, coreRows: seq<int>)
    ensures var rows := CoresUsed(packed, coreRows);
      rows != [] ==> (packed / |rows|) * |rows| >= 1
  {
    var rows := CoresUsed(packed, coreRows);
    if rows != [] {
      assert |rows| <= packed;
      assert packed / |rows| >= 1;
      MulLeMono(|rows|, 1, packed / |rows|);
    }
  }

  lemma MulRegroup(rows: nat, perCore: nat, kSlices: nat)
    ensures rows * (perCore * kSlices) == (perCore * rows) * kSlices
  {
  }

  /** An iteration count with its stride, as the memory tile's DMA walks the thin slices. */
  datatype Iteration = Iteration(count: int, stride: int)

  /**
   * The guards on the per-round thin-slice counts: the A count is fat rows
   * per core times K slices, the B count fat columns per memory tile times
   * K slices; either above 64 is refused, A first. Exactly 64 passes,
   * although the message says the count must be below 64.
   */
  method ThinSliceIterations(perCore: nat, fatCols: nat, kSlices: nat, m: nat, n: nat, thinStride: nat)
    returns (r: Result<(Iteration, Iteration), SizingError>)
    ensures var countA, countB := perCore * kSlices, fatCols * kSlices;
      && (r.Ok? <==> countA <= 64 && countB <= 64)
      && (countA > 64 ==> r == Err(TooManyIterations(countA)))
      && (countA <= 64 && countB > 64 ==> r == Err(TooManyIterations(countB)))
      && (r.Ok? ==> r.value == (Iteration(countA, m * thinStride), Iteration(countB, thinStride * n)))
  {
    var sendA := perCore * kSlices;
    var sendB := fatCols * kSlices;
    if sendA > 64 {
      return Err(TooManyIterations(sendA));
    }
    if sendB > 64 {
      return Err(TooManyIterations(sendB));
    }
    r := Ok((Iteration(sendA, m * thinStride), Iteration(sendB, thinStride * n)));
  }

  /**
   * The row-product test's sizing, from the count `num_rows_cols_per_tile`
   * packed through the rounding to the guards. When the rounding divides
   * by a nonzero core count, the cores together receive as many A slices
   * as B slices (the assertion before the guards always holds); the
   * result then fails exactly when a guard fires, A first. The rounded
   * count never exceeds the packed one, so it fits too, by `GreatestFit`.
   */
  method RowProductSizing(packed: nat, coreRows: seq<int>, kSlices: nat, m: nat, n: nat, thinStride: nat)
    returns (r: Result<(seq<int>, nat, nat, Iteration, Iteration), SizingError>)
    ensures coreRows == [] || packed == 0 ==> r == Err(ZeroDivision)
    ensures coreRows != [] && packed > 0 ==>
      var rows := CoresUsed(packed, coreRows);
      var perCore := packed / |rows|;
      var fat := perCore * |rows|;
      var countA, countB := perCore * kSlices, fat * kSlices;
      && |rows| * countA == countB
      && (r.Ok? <==> countA <= 64 && countB <= 64)
      && (countA > 64 ==> r == Err(TooManyIterations(countA)))
      && (countA <= 64 && countB > 64 ==> r == Err(TooManyIterations(countB)))
      && (r.Ok? ==> r.value == (rows, perCore, fat, Iteration(countA, m * thinStride), Iteration(countB, thinStride * n)))
    ensures r.Ok? ==> var (rows, perCore, fat, iterA, iterB) := r.value;
      && rows != [] && perCore >= 1 && fat == perCore * |rows| && 1 <= fat <= packed
      && |rows| * iterA.count == iterB.count == fat * kSlices
      && iterA.count <= 64 && iterB.count <= 64
  {
    var rounded := RoundRowsToCores(packed, coreRows);
    if rounded.Err? {
      return Err(rounded.error);
    }
    var (rows, perCore, fat) := rounded.value;
    MulRegroup(|rows|, perCore, kSlices);
    var iterations := ThinSliceIterations(perCore, fat, kSlices, m, n, thinStride);
    if iterations.Err? {
      return Err(iterations.error);
    }
    var (iterA, iterB) := iterations.value;
    r := Ok((rows, perCore, fat, iterA, iterB));
  }
}
