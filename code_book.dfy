/** The spreading-code generator: the Kronecker (tensor) product of integer
    matrices, the Walsh-Hadamard matrices built from the seed `h_2` by repeated
    Kronecker products, and the choice of matrix for a channel count. The main
    facts are the shapes, the {+1,-1} entries and the pairwise orthogonality of
    the rows, proved by induction through the Kronecker product. */
module CodeBook {
  import opened IntArith

  /** A matrix as a sequence of rows, as `std::vector<std::vector<int>>`. */
  type Matrix = seq<seq<int>>

  /** The 2x2 seed `h_2` of the construction. */
  const H2: Matrix := [[1, 1], [1, -1]]

  // ----------------------------------------------------------------------
  // Vectors

  /** Inner product of two vectors of equal length, summed from the front. */
  function Dot(u: seq<int>, v: seq<int>): int
    requires |u| == |v|
  {
    if |u| == 0 then 0 else Dot(u[..|u| - 1], v[..|v| - 1]) + u[|u| - 1] * v[|v| - 1]
  }

  /** The vector v with every entry multiplied by x. */
  function Scale(x: int, v: seq<int>): seq<int>
  {
    seq(|v|, i requires 0 <= i < |v| => x * v[i])
  }

  /** Every entry is +1 or -1. */
  ghost predicate Signs(u: seq<int>)
  {
    forall x :: 0 <= x < |u| ==> u[x] == 1 || u[x] == -1
  }

  lemma {:induction false} DotAppend(x: seq<int>, y: seq<int>, z: seq<int>, w: seq<int>)
    requires |x| == |z| && |y| == |w|
    ensures Dot(x + y, z + w) == Dot(x, z) + Dot(y, w)
    decreases |y|
  {
    if |y| == 0 {
      assert x + y == x && z + w == z;
    } else {
      var k := |y| - 1;
      assert (x + y)[..|x + y| - 1] == x + y[..k];
      assert (z + w)[..|z + w| - 1] == z + w[..k];
      DotAppend(x, y[..k], z, w[..k]);
    }
  }

  lemma {:induction false} DotScale(a: int, b: seq<int>, c: int, d: seq<int>)
    requires |b| == |d|
    ensures Dot(Scale(a, b), Scale(c, d)) == a * c * Dot(b, d)
    decreases |b|
  {
    if |b| > 0 {
      var k := |b| - 1;
      assert Scale(a, b)[..k] == Scale(a, b[..k]);
      assert Scale(c, d)[..k] == Scale(c, d[..k]);
      DotScale(a, b[..k], c, d[..k]);
      MulRearrange(a, b[k], c, d[k]);
      MulAddLeft(a * c, Dot(b[..k], d[..k]), b[k] * d[k]);
    }
  }

  /** Entry-wise sum of two vectors of equal length. */
  function Add(u: seq<int>, v: seq<int>): seq<int>
    requires |u| == |v|
  {
    seq(|u|, i requires 0 <= i < |u| => u[i] + v[i])
  }

  lemma {:induction false} DotAdd(x: seq<int>, y: seq<int>, u: seq<int>)
    requires |x| == |y| == |u|
    ensures Dot(Add(x, y), u) == Dot(x, u) + Dot(y, u)
    decreases |u|
  {
    if |u| > 0 {
      var k := |u| - 1;
      assert Add(x, y)[..k] == Add(x[..k], y[..k]);
      DotAdd(x[..k], y[..k], u[..k]);
    }
  }

  lemma {:induction false} DotScaleLeft(a: int, x: seq<int>, u: seq<int>)
    requires |x| == |u|
    ensures Dot(Scale(a, x), u) == a * Dot(x, u)
    decreases |u|
  {
    if |u| > 0 {
      var k := |u| - 1;
      assert Scale(a, x)[..k] == Scale(a, x[..k]);
      DotScaleLeft(a, x[..k], u[..k]);
      assert (a * x[k]) * u[k] == a * (x[k] * u[k]);
    }
  }

  // ----------------------------------------------------------------------
  // Kronecker product

  /** One row of a Kronecker product: the blocks a[0]*b, a[1]*b, ... in order. */
  function KronRow(a: seq<int>, b: seq<int>): (r: seq<int>)
    ensures |r| == |a| * |b|
  {
    if |a| == 0 then [] else KronRow(a[..|a| - 1], b) + Scale(a[|a| - 1], b)
  }

  lemma {:induction false} KronRowAt(a: seq<int>, b: seq<int>, j: nat, jj: nat)
    requires j < |a| && jj < |b|
    ensures j * |b| + jj < |KronRow(a, b)| && KronRow(a, b)[j * |b| + jj] == a[j] * b[jj]
    decreases |a|
  {
    var k := |a| - 1;
    if j < k {
      FlatBound(j, jj, |b|, k);
      KronRowAt(a[..k], b, j, jj);
    }
  }

  lemma {:induction false} KronRowSigns(a: seq<int>, b: seq<int>)
    requires Signs(a) && Signs(b)
    ensures Signs(KronRow(a, b))
    decreases |a|
  {
    if |a| > 0 {
      KronRowSigns(a[..|a| - 1], b);
    }
  }

  /** The inner product of two Kronecker rows factors into the inner products
      of their parts: (a (x) b) . (c (x) d) == (a . c) * (b . d). */
  lemma {:induction false} KronRowDot(a: seq<int>, b: seq<int>, c: seq<int>, d: seq<int>)
    requires |a| == |c| && |b| == |d|
    ensures Dot(KronRow(a, b), KronRow(c, d)) == Dot(a, c) * Dot(b, d)
    decreases |a|
  {
    if |a| > 0 {
      var k := |a| - 1;
      KronRowDot(a[..k], b, c[..k], d);
      DotAppend(KronRow(a[..k], b), Scale(a[k], b), KronRow(c[..k], d), Scale(c[k], d));
      DotScale(a[k], b, c[k], d);
      MulAddRight(Dot(a[..k], c[..k]), a[k] * c[k], Dot(b, d));
    }
  }

  /** M has the given number of rows, each of the given length. */
  ghost predicate IsMatrix(M: Matrix, rows: nat, cols: nat)
  {
    |M| == rows && forall i :: 0 <= i < rows ==> |M[i]| == cols
  }

  /** What `tensor_product` indexes in an argument: a first row, whose length
      gives the column count, and no row shorter than it. */
  ghost predicate Operand(A: Matrix)
  {
    |A| > 0 && forall i :: 0 <= i < |A| ==> |A[0]| <= |A[i]|
  }

  /** The rows of A (x) B, block of rows by block of rows, reading n columns of
      A and q columns of B. */
  function KronBlocks(A: Matrix, B: Matrix, n: nat, q: nat): (K: Matrix)
    requires forall i :: 0 <= i < |A| ==> n <= |A[i]|
    requires forall ii :: 0 <= ii < |B| ==> q <= |B[ii]|
    ensures IsMatrix(K, |A| * |B|, n * q)
    decreases |A|
  {
    if |A| == 0 then []
    else
      KronBlocks(A[..|A| - 1], B, n, q)
      + seq(|B|, ii requires 0 <= ii < |B| => KronRow(A[|A| - 1][..n], B[ii][..q]))
  }

  /** The Kronecker product of A and B. */
  function Kronecker(A: Matrix, B: Matrix): (K: Matrix)
    requires Operand(A) && Operand(B)
    ensures IsMatrix(K, |A| * |B|, |A[0]| * |B[0]|)
  {
    KronBlocks(A, B, |A[0]|, |B[0]|)
  }

  lemma {:induction false} KronBlocksRow(A: Matrix, B: Matrix, n: nat, q: nat, i: nat, ii: nat)
    requires forall i :: 0 <= i < |A| ==> n <= |A[i]|
    requires forall ii :: 0 <= ii < |B| ==> q <= |B[ii]|
    requires i < |A| && ii < |B|
    ensures i * |B| + ii < |A| * |B|
    ensures KronBlocks(A, B, n, q)[i * |B| + ii] == KronRow(A[i][..n], B[ii][..q])
    decreases |A|
  {
    FlatBound(i, ii, |B|, |A|);
    var k := |A| - 1;
    if i < k {
      FlatBound(i, ii, |B|, k);
      KronBlocksRow(A[..k], B, n, q, i, ii);
    }
  }

  /** The entry formula of the Kronecker product of an m x n matrix A and a
      p x q matrix B: K[i*p + ii][j*q + jj] == A[i][j] * B[ii][jj]. */
  lemma KroneckerAt(A: Matrix, B: Matrix, i: nat, j: nat, ii: nat, jj: nat)
    requires Operand(A) && Operand(B)
    requires i < |A| && j < |A[0]| && ii < |B| && jj < |B[0]|
    ensures i * |B| + ii < |A| * |B| && j * |B[0]| + jj < |A[0]| * |B[0]|
    ensures Kronecker(A, B)[i * |B| + ii][j * |B[0]| + jj] == A[i][j] * B[ii][jj]
  {
    KronBlocksRow(A, B, |A[0]|, |B[0]|, i, ii);
    KronRowAt(A[i][..|A[0]|], B[ii][..|B[0]|], j, jj);
  }

  /** (i, j, ii, jj) comes before (i0, j0, ii0, jj0) in the order in which the
      four nested loops of `tensor_product` visit them. */
  predicate Before(i: int, j: int, ii: int, jj: int, i0: int, j0: int, ii0: int, jj0: int)
  {
    i < i0 || (i == i0 && (j < j0 || (j == j0 && (ii < ii0 || (ii == ii0 && jj < jj0)))))
  }

  /** K has the shape of A (x) B, and every cell the loops have visited before
      (i0, j0, ii0, jj0) holds its Kronecker value. */
  ghost predicate Filled(K: Matrix, A: Matrix, B: Matrix, i0: int, j0: int, ii0: int, jj0: int)
    requires Operand(A) && Operand(B)
  {
    && IsMatrix(K, |A| * |B|, |A[0]| * |B[0]|)
    && forall i: nat, j: nat, ii: nat, jj: nat ::
      i < |A| && j < |A[0]| && ii < |B| && jj < |B[0]| && Before(i, j, ii, jj, i0, j0, ii0, jj0) ==>
        (FlatBound(i, ii, |B|, |A|); FlatBound(j, jj, |B[0]|, |A[0]|);
         K[Flat(i, ii, |B|)][Flat(j, jj, |B[0]|)] == A[i][j] * B[ii][jj])
  }

  /** Writing the Kronecker value of the current cell extends the filled region
      by that cell and disturbs no earlier cell. */
  lemma FilledStep(K: Matrix, A: Matrix, B: Matrix, i: nat, j: nat, ii: nat, jj: nat)
    requires Operand(A) && Operand(B)
    requires i < |A| && j < |A[0]| && ii < |B| && jj < |B[0]|
    requires Filled(K, A, B, i, j, ii, jj)
    ensures Flat(i, ii, |B|) < |K| && Flat(j, jj, |B[0]|) < |K[Flat(i, ii, |B|)]|
    ensures var row, col := Flat(i, ii, |B|), Flat(j, jj, |B[0]|);
            var K' := K[row := K[row][col := A[i][j] * B[ii][jj]]];
            Filled(K', A, B, i, j, ii, jj + 1)
  {
    FlatBound(i, ii, |B|, |A|);
    FlatBound(j, jj, |B[0]|, |A[0]|);
    var row, col := Flat(i, ii, |B|), Flat(j, jj, |B[0]|);
    var K' := K[row := K[row][col := A[i][j] * B[ii][jj]]];
    forall a: nat, b: nat, c: nat, d: nat |
      a < |A| && b < |A[0]| && c < |B| && d < |B[0]| && Before(a, b, c, d, i, j, ii, jj + 1)
      ensures Flat(a, c, |B|) < |K'| && Flat(b, d, |B[0]|) < |K'[Flat(a, c, |B|)]|
      ensures K'[Flat(a, c, |B|)][Flat(b, d, |B[0]|)] == A[a][b] * B[c][d]
    {
      FlatBound(a, c, |B|, |A|);
      FlatBound(b, d, |B[0]|, |A[0]|);
      if Flat(a, c, |B|) == row && Flat(b, d, |B[0]|) == col {
        FlatUnique(a, c, i, ii, |B|);
        FlatUnique(b, d, j, jj, |B[0]|);
      }
    }
  }

  /** Before the loops nothing has been visited. */
  lemma FilledStart(A: Matrix, B: Matrix)
    requires Operand(A) && Operand(B)
    ensures Filled(seq(|A| * |B|, _ => seq(|A[0]| * |B[0]|, _ => 0)), A, B, 0, 0, 0, 0)
  {
  }

  /** Finishing the innermost loop moves on to the next row of B. */
  lemma FilledNextIi(K: Matrix, A: Matrix, B: Matrix, i: nat, j: nat, ii: nat)
    requires Operand(A) && Operand(B)
    requires Filled(K, A, B, i, j, ii, |B[0]|)
    ensures Filled(K, A, B, i, j, ii + 1, 0)
  {
  }

  /** Finishing the loop over the rows of B moves on to the next column of A. */
  lemma FilledNextJ(K: Matrix, A: Matrix, B: Matrix, i: nat, j: nat)
    requires Operand(A) && Operand(B)
    requires Filled(K, A, B, i, j, |B|, 0)
    ensures Filled(K, A, B, i, j + 1, 0, 0)
  {
  }

  /** Finishing the loop over the columns of A moves on to the next row of A. */
  lemma FilledNextI(K: Matrix, A: Matrix, B: Matrix, i: nat)
    requires Operand(A) && Operand(B)
    requires Filled(K, A, B, i, |A[0]|, 0, 0)
    ensures Filled(K, A, B, i + 1, 0, 0, 0)
  {
  }

  /** Once every cell has been visited the matrix is the Kronecker product. */
  lemma FilledIsKronecker(K: Matrix, A: Matrix, B: Matrix)
    requires Operand(A) && Operand(B)
    requires Filled(K, A, B, |A|, 0, 0, 0)
    ensures K == Kronecker(A, B)
  {
    var m, n, p, q := |A|, |A[0]|, |B|, |B[0]|;
    var T := Kronecker(A, B);
    forall I: nat, J: nat | I < m * p && J < n * q
      ensures K[I][J] == T[I][J]
    {
      var i, ii := Unflatten(I, p, m);
      var j, jj := Unflatten(J, q, n);
      assert Before(i, j, ii, jj, m, 0, 0, 0);
      KroneckerAt(A, B, i, j, ii, jj);
    }
    forall I | 0 <= I < m * p
      ensures K[I] == T[I]
    {
      assert forall J :: 0 <= J < n * q ==> K[I][J] == T[I][J];
    }
  }

  /** `tensor_product`: fills a zero matrix of m*p rows and n*q columns cell by
      cell in four nested loops. */
  method TensorProduct(A: Matrix, B: Matrix) returns (kronecker: Matrix)
    requires Operand(A) && Operand(B)
    ensures kronecker == Kronecker(A, B)
  {
    var m, n, p, q := |A|, |A[0]|, |B|, |B[0]|;
    kronecker := seq(m * p, _ => seq(n * q, _ => 0));
    FilledStart(A, B);
    for i := 0 to m
      invariant Filled(kronecker, A, B, i, 0, 0, 0)
    {
      for j := 0 to n
        invariant Filled(kronecker, A, B, i, j, 0, 0)
      {
        for ii := 0 to p
          invariant Filled(kronecker, A, B, i, j, ii, 0)
        {
          for jj := 0 to q
            invariant Filled(kronecker, A, B, i, j, ii, jj)
          {
            FilledStep(kronecker, A, B, i, j, ii, jj);
            var row, col := Flat(i, ii, p), Flat(j, jj, q);
            kronecker := kronecker[row := kronecker[row][col := A[i][j] * B[ii][jj]]];
          }
          FilledNextIi(kronecker, A, B, i, j, ii);
        }
        FilledNextJ(kronecker, A, B, i, j);
      }
      FilledNextI(kronecker, A, B, i);
    }
    FilledIsKronecker(kronecker, A, B);
  }

  // ----------------------------------------------------------------------
  // Walsh-Hadamard matrices

  /** n x n, entries +1 or -1, and rows pairwise orthogonal: distinct rows have
      inner product 0 and every row has inner product n with itself. */
  ghost predicate IsWalshHadamard(W: Matrix, n: nat)
  {
    && IsMatrix(W, n, n)
    && (forall r :: 0 <= r < n ==> Signs(W[r]))
    && (forall r, s :: 0 <= r < n && 0 <= s < n ==> Dot(W[r], W[s]) == if r == s then n else 0)
  }

  lemma SeedIsWalshHadamard()
    ensures IsWalshHadamard(H2, 2)
  {
    assert H2[0][..1] == [1] && H2[1][..1] == [1];
    assert Dot(H2[0], H2[1]) == 0;
    assert Dot(H2[1], H2[0]) == 0;
  }

  /** Row I of A (x) B for square A and B is the Kronecker row of row I / nB
      of A and row I % nB of B. */
  lemma KroneckerRowOf(A: Matrix, nA: nat, B: Matrix, nB: nat, I: nat)
    requires nA > 0 && nB > 0
    requires IsMatrix(A, nA, nA) && IsMatrix(B, nB, nB)
    requires I < nA * nB
    ensures I / nB < nA && I % nB < nB && I == I / nB * nB + I % nB
    ensures Kronecker(A, B)[I] == KronRow(A[I / nB], B[I % nB])
  {
    FlatSplit(I, nB, nA);
    KronBlocksRow(A, B, nA, nB, I / nB, I % nB);
    assert A[I / nB][..nA] == A[I / nB] && B[I % nB][..nB] == B[I % nB];
  }

  lemma KroneckerRowsDot(A: Matrix, nA: nat, B: Matrix, nB: nat, i: nat, ii: nat, i2: nat, ii2: nat)
    requires nA > 0 && nB > 0
    requires IsWalshHadamard(A, nA) && IsWalshHadamard(B, nB)
    requires i < nA && ii < nB && i2 < nA && ii2 < nB
    ensures i * nB + ii < nA * nB && i2 * nB + ii2 < nA * nB
    ensures Dot(Kronecker(A, B)[i * nB + ii], Kronecker(A, B)[i2 * nB + ii2])
            == if i == i2 && ii == ii2 then nA * nB else 0
  {
    KronBlocksRow(A, B, nA, nB, i, ii);
    KronBlocksRow(A, B, nA, nB, i2, ii2);
    assert A[i][..nA] == A[i] && B[ii][..nB] == B[ii];
    assert A[i2][..nA] == A[i2] && B[ii2][..nB] == B[ii2];
    KronRowDot(A[i], B[ii], A[i2], B[ii2]);
    DeltaProduct(Dot(A[i], A[i2]), i == i2, nA, Dot(B[ii], B[ii2]), ii == ii2, nB);
  }

  lemma KroneckerRowPairDot(A: Matrix, nA: nat, B: Matrix, nB: nat, I: nat, I2: nat)
    requires nA > 0 && nB > 0
    requires IsWalshHadamard(A, nA) && IsWalshHadamard(B, nB)
    requires I < nA * nB && I2 < nA * nB
    ensures Dot(Kronecker(A, B)[I], Kronecker(A, B)[I2]) == if I == I2 then nA * nB else 0
  {
    var i, ii := Unflatten(I, nB, nA);
    var i2, ii2 := Unflatten(I2, nB, nA);
    KroneckerRowsDot(A, nA, B, nB, i, ii, i2, ii2);
    if I == I2 {
      FlatUnique(i, ii, i2, ii2, nB);
    }
  }

  lemma DeltaProduct(x: int, xIs: bool, nx: int, y: int, yIs: bool, ny: int)
    requires x == if xIs then nx else 0
    requires y == if yIs then ny else 0
    ensures x * y == if xIs && yIs then nx * ny else 0
  {
  }

  /** The Kronecker product of two Walsh-Hadamard matrices is one: the row
      inner products factor, so they vanish unless both factors' rows agree. */
  lemma KroneckerIsWalshHadamard(A: Matrix, nA: nat, B: Matrix, nB: nat)
    requires nA > 0 && nB > 0
    requires IsWalshHadamard(A, nA) && IsWalshHadamard(B, nB)
    ensures IsWalshHadamard(Kronecker(A, B), nA * nB)
  {
    var K := Kronecker(A, B);
    forall I | 0 <= I < nA * nB
      ensures Signs(K[I])
    {
      KroneckerRowOf(A, nA, B, nB, I);
      KronRowSigns(A[I / nB], B[I % nB]);
    }
    forall I, I2 | 0 <= I < nA * nB && 0 <= I2 < nA * nB
      ensures Dot(K[I], K[I2]) == if I == I2 then nA * nB else 0
    {
      KroneckerRowPairDot(A, nA, B, nB, I, I2);
    }
  }

  /** The side of `walsh_of(k)`: 2 for k <= 2, doubling with every further k. */
  function WalshSize(k: nat): nat
  {
    Pow2(if k <= 2 then 1 else k - 1)
  }

  /** `walsh_of`: the seed for k <= 2, otherwise walsh_of(k - 1) (x) walsh_of(2). */
  function WalshOf(k: nat): (W: Matrix)
    ensures IsMatrix(W, WalshSize(k), WalshSize(k))
    decreases k
  {
    if k <= 2 then H2 else Kronecker(WalshOf(k - 1), WalshOf(2))
  }

  lemma {:induction false} WalshIsWalshHadamard(k: nat)
    ensures IsWalshHadamard(WalshOf(k), WalshSize(k))
    decreases k
  {
    SeedIsWalshHadamard();
    if k > 2 {
      WalshIsWalshHadamard(k - 1);
      KroneckerIsWalshHadamard(WalshOf(k - 1), WalshSize(k - 1), H2, 2);
    }
  }

  /** `channel_sequence_of`: the Walsh matrix of order log2(N) + 1. For every
      N >= 2 it is a Walsh-Hadamard matrix whose side is the largest power of
      two not above N; N == 1 still yields the 2 x 2 seed. */
  function ChannelSequenceOf(numberOfChannels: int): (W: Matrix)
    requires numberOfChannels >= 1
    ensures IsWalshHadamard(W, |W|)
    ensures numberOfChannels >= 2 ==> |W| <= numberOfChannels < 2 * |W|
    ensures numberOfChannels >= 2 ==> |W| == Pow2(Log2(numberOfChannels))
    ensures numberOfChannels == 1 ==> |W| == 2
  {
    var k := Log2(numberOfChannels) + 1;
    WalshIsWalshHadamard(k);
    WalshOf(k)
  }

  /** For N a power of two of at least 2, the code matrix is N x N. */
  lemma ChannelSequenceOfPowerOfTwo(k: nat)
    requires k >= 1
    ensures |ChannelSequenceOf(Pow2(k))| == Pow2(k)
    ensures IsWalshHadamard(ChannelSequenceOf(Pow2(k)), Pow2(k))
  {
    Log2OfPow2(k);
  }

  /** For N == 2^k the code matrix is `walsh_of(k + 1)`. */
  lemma ChannelSequenceOfPow2(k: nat)
    ensures ChannelSequenceOf(Pow2(k)) == WalshOf(k + 1)
  {
    Log2OfPow2(k);
  }

  /** Doubling the channel count is one more Kronecker product with the seed. */
  lemma ChannelSequenceDoubling(k: nat)
    requires k >= 1
    ensures ChannelSequenceOf(Pow2(k + 1)) == Kronecker(ChannelSequenceOf(Pow2(k)), H2)
  {
    ChannelSequenceOfPow2(k);
    ChannelSequenceOfPow2(k + 1);
    assert WalshOf(k + 2) == Kronecker(WalshOf(k + 1), WalshOf(2));
  }

  lemma KronRowOfPairs(a: int, b: int, c: int, d: int)
    ensures KronRow([a, b], [c, d]) == [a * c, a * d, b * c, b * d]
  {
    assert [a, b][..1] == [a] && [a][..0] == [];
    assert KronRow([a], [c, d]) == Scale(a, [c, d]);
  }

  lemma WalshOfThree()
    ensures WalshOf(3) == [[1, 1, 1, 1], [1, -1, 1, -1], [1, 1, -1, -1], [1, -1, -1, 1]]
  {
    SeedIsWalshHadamard();
    var K := Kronecker(H2, H2);
    assert WalshOf(3) == K;
    KroneckerRowOf(H2, 2, H2, 2, 0);
    KroneckerRowOf(H2, 2, H2, 2, 1);
    KroneckerRowOf(H2, 2, H2, 2, 2);
    KroneckerRowOf(H2, 2, H2, 2, 3);
    KronRowOfPairs(1, 1, 1, 1);
    KronRowOfPairs(1, 1, 1, -1);
    KronRowOfPairs(1, -1, 1, 1);
    KronRowOfPairs(1, -1, 1, -1);
  }

  /** The four codes used with `length_m == 4`. */
  lemma ChannelSequenceOfFour()
    ensures ChannelSequenceOf(4) == [[1, 1, 1, 1], [1, -1, 1, -1], [1, 1, -1, -1], [1, -1, -1, 1]]
  {
    assert Pow2(2) == 4;
    Log2OfPow2(2);
    WalshOfThree();
  }
}
