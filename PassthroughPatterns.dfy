/**
 * The layout arithmetic of programming_examples/basic/dma_test_for_Andra/
 * dma_test.py: the checks `my_passthrough` makes on the dimensions m, k
 * and K, the (size, stride) patterns it gives the memory tile's MM2S
 * channel and the compute tile's S2MM channel, and the command line that
 * feeds it.
 *
 * A pattern is a list of (size, stride) pairs, outermost first: the
 * element visited at index (i0, ..., in) is at offset
 * i0 * stride0 + ... + in * striden.
 */
module PassthroughPatterns {
  import opened Results

  /** The API sizes of the matrix-multiply kernels. */
  const R: int := 4
  const S: int := 5

  datatype Dim = Dim(size: int, stride: int)

  datatype Patterns = Patterns(mm2s: seq<Dim>, s2mm: seq<Dim>)

  datatype PassthroughError =
    | ZeroDivision       // K % k with k == 0
    | BigKNotMultiple    // assert K % k == 0
    | RowsNotMultiple    // assert m % r == 0
    | ColsNotMultiple    // assert k % s == 0

  /**
   * `my_passthrough(m, k, K)`: checks the dimensions in the order the
   * source does, then builds the MM2S pattern that walks the m-by-K memory
   * tile as K/k blocks of m-by-k, each in s-wide column groups, and the
   * S2MM pattern that walks the m-by-k compute tile in r-by-s blocks.
   * Divisibility by a nonzero number means the same under Python's floored
   * and Dafny's Euclidean remainder, and once it holds the two divisions
   * agree too.
   */
  function MyPassthrough(m: int, k: int, bigK: int): (r: Result<Patterns, PassthroughError>)
    ensures r.Ok? <==> k != 0 && bigK % k == 0 && m % R == 0 && k % S == 0
    ensures k == 0 ==> r == Err(ZeroDivision)
    ensures k != 0 && bigK % k != 0 ==> r == Err(BigKNotMultiple)
    ensures k != 0 && bigK % k == 0 && m % R != 0 ==> r == Err(RowsNotMultiple)
    ensures k != 0 && bigK % k == 0 && m % R == 0 && k % S != 0 ==> r == Err(ColsNotMultiple)
    ensures r.Ok? ==> |r.value.mm2s| == 4 && |r.value.s2mm| == 3
  {
    if k == 0 then Err(ZeroDivision)
    else if bigK % k != 0 then Err(BigKNotMultiple)
    else if m % R != 0 then Err(RowsNotMultiple)
    else if k % S != 0 then Err(ColsNotMultiple)
    else
      Ok(Patterns(
        [Dim(bigK / k, m * k), Dim(k / S, S), Dim(m, k), Dim(S, 1)],
        [Dim(k / S, R * S), Dim(m / R, R * k), Dim(R * S, 1)]))
  }

  /** The number of elements a pattern visits. */
  function Elements(dims: seq<Dim>): int
  {
    if dims == [] then 1 else dims[0].size * Elements(dims[1..])
  }

  /** `idx` is an index into the box the pattern's sizes span. */
  predicate InBox(dims: seq<Dim>, idx: seq<int>)
  {
    |idx| == |dims| && forall j :: 0 <= j < |dims| ==> 0 <= idx[j] < dims[j].size
  }

  /** The offset a pattern visits at index `idx`. */
  function Offset(dims: seq<Dim>, idx: seq<int>): int
    requires |idx| == |dims|
  {
    if dims == [] then 0 else idx[0] * dims[0].stride + Offset(dims[1..], idx[1..])
  }

  // ----- Arithmetic on mixed-radix digits -----

  lemma MulLe(a: int, b: int, d: int)
    requires a <= b && d >= 0
    ensures a * d <= b * d
  {
  }

  /** A digit below `n` and a remainder below `d` make a number below `n * d`, and are recovered from it. */
  lemma Digit(q: int, r: int, d: int, n: int)
    requires d > 0 && 0 <= q < n && 0 <= r < d
    ensures 0 <= q * d + r < n * d
    ensures (q * d + r) / d == q && (q * d + r) % d == r
  {
    MulLe(q, n - 1, d);
    MulLe(0, q, d);
    var x := q * d + r;
    var q', r' := x / d, x % d;
    assert (q' - q) * d == r - r';
    if q' > q {
      MulLe(1, q' - q, d);
    } else if q' < q {
      MulLe(1, q - q', d);
    }
  }

  /** A number below `n * d` splits into a digit below `n` and a remainder below `d`. */
  lemma Split(x: int, d: int, n: int)
    requires d > 0 && 0 <= x < n * d
    ensures 0 <= x / d < n && 0 <= x % d < d
    ensures x == (x / d) * d + x % d
  {
    if x / d >= n {
      MulLe(n, x / d, d);
    }
    if x / d < 0 {
      MulLe(x / d, -1, d);
    }
  }

  // ----- The MM2S pattern -----

  /** K/k blocks of m-by-k make up the m-by-K memory tile. */
  lemma BlocksCoverTile(m: int, k: int, bigK: int)
    requires k != 0 && bigK % k == 0
    ensures (bigK / k) * (m * k) == m * bigK
  {
    assert (bigK / k) * k == bigK;
    assert (bigK / k) * (m * k) == m * ((bigK / k) * k);
  }

  /** The index at which the MM2S pattern visits offset `x`. */
  function Mm2sIndex(m: int, k: int, x: int): seq<int>
    requires m > 0 && k > 0
  {
    var block, inBlock := x / (m * k), x % (m * k);
    var row, inRow := inBlock / k, inBlock % k;
    [block, inRow / S, row, inRow % S]
  }

  lemma Mm2sOffsetIs(m: int, k: int, bigK: int, idx: seq<int>)
    requires k != 0 && |idx| == 4
    ensures var p := MyPassthrough(m, k, bigK);
      p.Ok? ==> Offset(p.value.mm2s, idx) == idx[0] * (m * k) + (idx[2] * k + (idx[1] * S + idx[3]))
  {
    var p := MyPassthrough(m, k, bigK);
    if p.Ok? {
      var dims := p.value.mm2s;
      assert Offset(dims[3..], idx[3..]) == idx[3];
      assert Offset(dims[2..], idx[2..]) == idx[2] * k + idx[3];
      assert Offset(dims[1..], idx[1..]) == idx[1] * S + (idx[2] * k + idx[3]);
    }
  }

  /**
   * Every index of the MM2S box gives an offset inside the m-by-K memory
   * tile, and the offset gives the index back: no element is visited
   * twice.
   */
  lemma Mm2sInjective(m: int, k: int, bigK: int, idx: seq<int>)
    requires m > 0 && k > 0
    requires MyPassthrough(m, k, bigK).Ok?
    requires InBox(MyPassthrough(m, k, bigK).value.mm2s, idx)
    ensures var x := Offset(MyPassthrough(m, k, bigK).value.mm2s, idx);
      0 <= x < m * bigK && Mm2sIndex(m, k, x) == idx
  {
    var dims := MyPassthrough(m, k, bigK).value.mm2s;
    Mm2sOffsetIs(m, k, bigK, idx);
    assert idx[0] < bigK / k && idx[1] < k / S && idx[2] < m && idx[3] < S;
    assert (k / S) * S == k;
    Digit(idx[1], idx[3], S, k / S);
    var inRow := idx[1] * S + idx[3];
    Digit(idx[2], inRow, k, m);
    var inBlock := idx[2] * k + inRow;
    Digit(idx[0], inBlock, m * k, bigK / k);
    var x := idx[0] * (m * k) + inBlock;
    assert Mm2sIndex(m, k, x) == [idx[0], idx[1], idx[2], idx[3]];
    assert idx == [idx[0], idx[1], idx[2], idx[3]];
    BlocksCoverTile(m, k, bigK);
  }

  /** Every offset of the m-by-K memory tile is visited, at an index of the MM2S box. */
  lemma Mm2sSurjective(m: int, k: int, bigK: int, x: int)
    requires m > 0 && k > 0
    requires MyPassthrough(m, k, bigK).Ok?
    requires 0 <= x < m * bigK
    ensures InBox(MyPassthrough(m, k, bigK).value.mm2s, Mm2sIndex(m, k, x))
    ensures Offset(MyPassthrough(m, k, bigK).value.mm2s, Mm2sIndex(m, k, x)) == x
  {
    var idx := Mm2sIndex(m, k, x);
    BlocksCoverTile(m, k, bigK);
    Split(x, m * k, bigK / k);
    var inBlock := x % (m * k);
    Split(inBlock, k, m);
    var inRow := inBlock % k;
    assert (k / S) * S == k;
    Split(inRow, S, k / S);
    Mm2sOffsetIs(m, k, bigK, idx);
  }

  // ----- The S2MM pattern -----

  /** The index at which the S2MM pattern visits offset `x`. */
  function S2mmIndex(k: int, x: int): seq<int>
    requires k > 0
  {
    var band, inBand := x / (R * k), x % (R * k);
    [inBand / (R * S), band, inBand % (R * S)]
  }

  lemma S2mmOffsetIs(m: int, k: int, bigK: int, idx: seq<int>)
    requires k != 0 && |idx| == 3
    ensures var p := MyPassthrough(m, k, bigK);
      p.Ok? ==> Offset(p.value.s2mm, idx) == idx[1] * (R * k) + (idx[0] * (R * S) + idx[2])
  {
    var p := MyPassthrough(m, k, bigK);
    if p.Ok? {
      var dims := p.value.s2mm;
      assert Offset(dims[2..], idx[2..]) == idx[2];
      assert Offset(dims[1..], idx[1..]) == idx[1] * (R * k) + idx[2];
    }
  }

  /**
   * Every index of the S2MM box gives an offset inside the m-by-k compute
   * tile, and the offset gives the index back.
   */
  lemma S2mmInjective(m: int, k: int, bigK: int, idx: seq<int>)
    requires m > 0 && k > 0
    requires MyPassthrough(m, k, bigK).Ok?
    requires InBox(MyPassthrough(m, k, bigK).value.s2mm, idx)
    ensures var x := Offset(MyPassthrough(m, k, bigK).value.s2mm, idx);
      0 <= x < m * k && S2mmIndex(k, x) == idx
  {
    S2mmOffsetIs(m, k, bigK, idx);
    assert idx[0] < k / S && idx[1] < m / R && idx[2] < R * S;
    assert (k / S) * (R * S) == R * k;
    Digit(idx[0], idx[2], R * S, k / S);
    Digit(idx[1], idx[0] * (R * S) + idx[2], R * k, m / R);
    assert (m / R) * (R * k) == m * k;
  }

  /** Every offset of the m-by-k compute tile is visited, at an index of the S2MM box. */
  lemma S2mmSurjective(m: int, k: int, bigK: int, x: int)
    requires m > 0 && k > 0
    requires MyPassthrough(m, k, bigK).Ok?
    requires 0 <= x < m * k
    ensures InBox(MyPassthrough(m, k, bigK).value.s2mm, S2mmIndex(k, x))
    ensures Offset(MyPassthrough(m, k, bigK).value.s2mm, S2mmIndex(k, x)) == x
  {
    var idx := S2mmIndex(k, x);
    assert (m / R) * (R * k) == m * k;
    Split(x, R * k, m / R);
    var inBand := x % (R * k);
    assert (k / S) * (R * S) == R * k;
    Split(inBand, R * S, k / S);
    S2mmOffsetIs(m, k, bigK, idx);
  }

  // ----- Element counts -----

  /**
   * The MM2S pattern visits m * K elements, the size of the memory tile,
   * and the S2MM pattern m * k, the size of the compute tile.
   */
  lemma ElementCounts(m: int, k: int, bigK: int)
    requires MyPassthrough(m, k, bigK).Ok?
    ensures Elements(MyPassthrough(m, k, bigK).value.mm2s) == m * bigK
    ensures Elements(MyPassthrough(m, k, bigK).value.s2mm) == m * k
  {
    var p := MyPassthrough(m, k, bigK).value;
    assert Elements(p.mm2s[3..]) == S;
    assert Elements(p.mm2s[2..]) == m * S;
    assert Elements(p.mm2s[1..]) == (k / S) * (m * S);
    assert Elements(p.mm2s) == (bigK / k) * ((k / S) * (m * S));
    assert (bigK / k) * k == bigK && (k / S) * S == k;
    assert (k / S) * (m * S) == m * k;
    assert (bigK / k) * (m * k) == m * bigK;
    assert Elements(p.s2mm[2..]) == R * S;
    assert Elements(p.s2mm[1..]) == (m / R) * (R * S);
    assert Elements(p.s2mm) == (k / S) * ((m / R) * (R * S));
    assert (m / R) * R == m;
    assert (k / S) * ((m / R) * (R * S)) == ((k / S) * S) * ((m / R) * R);
  }

  // ----- The command line -----

  datatype Run = UsageError | Ran(result: Result<Patterns, PassthroughError>)

  /** The dimensions when none are given on the command line. */
  const DefaultDims: seq<int> := [32, 64, 256]

  /**
   * The script's entry point: the dims m, k, K default to 32 64 256;
   * anything but exactly three is a usage error and exits.
   */
  function RunFromCommandLine(args: seq<int>): (r: Run)
    ensures |args| != 0 && |args| != 3 <==> r == UsageError
    ensures |args| == 3 ==> r == Ran(MyPassthrough(args[0], args[1], args[2]))
  {
    var dims := if args == [] then DefaultDims else args;
    if |dims| != 3 then UsageError else Ran(MyPassthrough(dims[0], dims[1], dims[2]))
  }

  /** The default dims fail the check that k is a multiple of s: 64 is not a multiple of 5. */
  lemma DefaultDimsRejected()
    ensures RunFromCommandLine([]) == Ran(Err(ColsNotMultiple))
  {
    assert 256 % 64 == 0 && 32 % R == 0 && 64 % S == 4;
  }
}
