/** The integer tiling arithmetic of the Python generators: padding a matrix
    dimension to a multiple of the engine width W, and the nested loops that
    cut a zero-padded matrix into W-wide vectors (transfer_weights.py for the
    weight layers, transfer_input.py and transfer_complete_model.py for the
    input rows). Matrices are the int8 arrays np.loadtxt returns. */
module Tiling {
  import opened LittleEndian

  type int8 = x: int | -0x80 <= x < 0x80

  /** A matrix as a sequence of rows. */
  type Matrix = seq<seq<int8>>

  /** One emitted vector: the entries in the order they are printed. */
  type Vec = seq<int8>

  /** Every row has the given number of columns. */
  predicate Shaped(a: Matrix, cols: nat)
  {
    forall r :: 0 <= r < |a| ==> |a[r]| == cols
  }

  /** A 2-D array as np.loadtxt returns it and the scripts use it: they read len(a[0]),
      so it has a first row, and all its rows are equally wide. */
  type Loaded = a: Matrix | |a| > 0 && Shaped(a, |a[0]|) witness [[0]]

  /** The number of columns of a loaded array. */
  function Width(a: Loaded): nat
  {
    |a[0]|
  }

  // ---------------------------------------------------------------- padding

  /** The padding the generators add to a dimension n: (W - n % W) % W. */
  function Padding(n: nat, w: nat): nat
    requires w > 0
  {
    (w - n % w) % w
  }

  /** The padded dimension. */
  function Padded(n: nat, w: nat): nat
    requires w > 0
  {
    n + Padding(n, w)
  }

  /** The padding is less than W and the padded dimension is the least multiple of W
      that is at least n. */
  lemma PaddingIsLeastMultiple(n: nat, w: nat, m: nat)
    requires w > 0
    ensures Padding(n, w) < w
    ensures Padded(n, w) % w == 0
    ensures m >= n && m % w == 0 ==> m >= Padded(n, w)
  {
    var q, r := n / w, n % w;
    DivModUnique(w, w, 1, 0);
    if r == 0 {
      assert Padding(n, w) == 0;
    } else {
      DivModUnique(w - r, w, 0, w - r);
      assert Padding(n, w) == w - r;
      MulSucc(w, q);
      DivModUnique(Padded(n, w), w, q + 1, 0);
      if m >= n && m % w == 0 {
        var k := m / w;
        assert m == w * k;
        if k <= q {
          MulMonotone(k, q, w);
        } else {
          MulMonotone(q + 1, k, w);
        }
      }
    }
  }

  /** w * (q + 1) == w * q + w. */
  lemma MulSucc(w: int, q: int)
    ensures w * (q + 1) == w * q + w
  {
  }

  /** k <= q implies w * k <= w * q. */
  lemma MulMonotone(k: int, q: int, w: nat)
    requires k <= q
    ensures w * k <= w * q && k * w <= q * w
  {
    assert w * q - w * k == w * (q - k);
  }

  /** The number of W-blocks of a padded dimension: the blocks range(0, n, W) visits. */
  function Blocks(n: nat, w: nat): nat
    requires w > 0
  {
    Padded(n, w) / w
  }

  /** The padded dimension is a whole number of blocks, and the loop over range(0, n, W)
      runs once per block: the last block starts below n. */
  lemma BlocksCover(n: nat, w: nat)
    requires w > 0
    ensures Blocks(n, w) * w == Padded(n, w)
    ensures Blocks(n, w) > 0 ==> (Blocks(n, w) - 1) * w < n
  {
    PaddingIsLeastMultiple(n, w, 0);
    var b := Blocks(n, w);
    assert Padded(n, w) == w * b;
    if b > 0 {
      MulSucc(w, b - 1);
    }
  }

  // ---------------------------------------------------------------- vectors of a padded matrix

  /** The entry of the zero-padded matrix: a[r][c] inside the matrix, 0 outside. */
  function Entry(a: Matrix, cols: nat, r: nat, c: nat): int8
    requires Shaped(a, cols)
  {
    if r < |a| && c < cols then a[r][c] else 0
  }

  /** The vector of padded row r and columns c0 .. c0 + W - 1. */
  function Row(a: Matrix, cols: nat, w: nat, r: nat, c0: nat): (v: Vec)
    requires Shaped(a, cols)
    ensures |v| == w
    ensures forall j :: 0 <= j < w ==> v[j] == Entry(a, cols, r, c0 + j)
  {
    seq<int8>(w, j requires 0 <= j < w => Entry(a, cols, r, c0 + j))
  }

  /** The innermost loops: sub-rows s .. W - 1 of the tile at (mr, mc). */
  function SubRows(a: Matrix, cols: nat, w: nat, mr: nat, mc: nat, s: nat): (vs: seq<Vec>)
    requires Shaped(a, cols)
    ensures forall i :: 0 <= i < |vs| ==> |vs[i]| == w
    decreases w - s
  {
    if s >= w then [] else [Row(a, cols, w, mr + s, mc)] + SubRows(a, cols, w, mr, mc, s + 1)
  }

  /** for matrix_row in range(mr, R, W): the tiles of one column block, top to bottom. */
  function RowBlocks(a: Matrix, cols: nat, w: nat, rows: nat, mc: nat, mr: nat): (vs: seq<Vec>)
    requires Shaped(a, cols) && w > 0
    ensures forall i :: 0 <= i < |vs| ==> |vs[i]| == w
    decreases rows - mr
  {
    if mr >= rows then [] else SubRows(a, cols, w, mr, mc, 0) + RowBlocks(a, cols, w, rows, mc, mr + w)
  }

  /** for matrix_column in range(mc, C, W): the column blocks, left to right. */
  function ColumnBlocks(a: Matrix, cols: nat, w: nat, rows: nat, limit: nat, mc: nat): (vs: seq<Vec>)
    requires Shaped(a, cols) && w > 0
    ensures forall i :: 0 <= i < |vs| ==> |vs[i]| == w
    decreases limit - mc
  {
    if mc >= limit then [] else RowBlocks(a, cols, w, rows, mc, 0) + ColumnBlocks(a, cols, w, rows, limit, mc + w)
  }

  /** Sub-row i of the run starting at s is padded row mr + s + i. */
  lemma {:induction false} SubRowsAt(a: Matrix, cols: nat, w: nat, mr: nat, mc: nat, s: nat, i: nat)
    requires Shaped(a, cols) && s + i < w
    ensures i < |SubRows(a, cols, w, mr, mc, s)|
    ensures SubRows(a, cols, w, mr, mc, s)[i] == Row(a, cols, w, mr + s + i, mc)
    decreases w - s
  {
    SubRowsLength(a, cols, w, mr, mc, s);
    if i > 0 {
      SubRowsAt(a, cols, w, mr, mc, s + 1, i - 1);
    }
  }

  /** The length of a run of sub-rows. */
  lemma {:induction false} SubRowsLength(a: Matrix, cols: nat, w: nat, mr: nat, mc: nat, s: nat)
    requires Shaped(a, cols) && s <= w
    ensures |SubRows(a, cols, w, mr, mc, s)| == w - s
    decreases w - s
  {
    if s < w {
      SubRowsLength(a, cols, w, mr, mc, s + 1);
    }
  }

  /** Across nb row blocks from row mr, vector i is padded row mr + i. */
  lemma {:induction false} RowBlocksAt(a: Matrix, cols: nat, w: nat, rows: nat, mc: nat, mr: nat, nb: nat, i: nat)
    requires Shaped(a, cols) && w > 0 && rows == mr + nb * w
    ensures |RowBlocks(a, cols, w, rows, mc, mr)| == nb * w
    ensures i < nb * w ==> RowBlocks(a, cols, w, rows, mc, mr)[i] == Row(a, cols, w, mr + i, mc)
    decreases nb
  {
    if nb > 0 {
      assert nb * w == (nb - 1) * w + w;
      SubRowsLength(a, cols, w, mr, mc, 0);
      RowBlocksAt(a, cols, w, rows, mc, mr + w, nb - 1, if i >= w then i - w else 0);
      if i < w {
        SubRowsAt(a, cols, w, mr, mc, 0, i);
      }
    }
  }

  /** Across nc column blocks from column mc, each block nb row blocks high, the loop
      emits nc * R vectors. */
  lemma {:induction false} ColumnBlocksLength(a: Matrix, cols: nat, w: nat, rows: nat, limit: nat, mc: nat,
                                              nc: nat, nb: nat)
    requires Shaped(a, cols) && w > 0 && rows == nb * w
    requires nc == 0 ==> mc >= limit
    requires nc > 0 ==> mc + (nc - 1) * w < limit <= mc + nc * w
    ensures |ColumnBlocks(a, cols, w, rows, limit, mc)| == nc * rows
    decreases nc
  {
    if nc > 0 {
      MulSucc(rows, nc - 1);
      MulSucc(w, nc - 1);
      if nc > 1 {
        MulSucc(w, nc - 2);
      }
      RowBlocksAt(a, cols, w, rows, mc, 0, nb, 0);
      ColumnBlocksLength(a, cols, w, rows, limit, mc + w, nc - 1, nb);
    }
  }

  /** The first row block of a column: R vectors, row r at position r. */
  lemma FirstRowBlocks(a: Matrix, cols: nat, w: nat, rows: nat, mc: nat, nb: nat, r: nat)
    requires Shaped(a, cols) && w > 0 && rows == nb * w && r < rows
    ensures |RowBlocks(a, cols, w, rows, mc, 0)| == rows
    ensures RowBlocks(a, cols, w, rows, mc, 0)[r] == Row(a, cols, w, r, mc)
  {
    RowBlocksAt(a, cols, w, rows, mc, 0, nb, r);
  }

  /** For a column block cb the loop reaches (its first column c = mc + cb * W below the
      limit), the vector of that block and padded row r is at k = cb * R + r. */
  lemma {:induction false} ColumnBlocksAt(a: Matrix, cols: nat, w: nat, rows: nat, limit: nat, mc: nat,
                                          nb: nat, cb: nat, r: nat, k: nat, c: nat)
    requires Shaped(a, cols) && w > 0 && rows == nb * w
    requires k == cb * rows + r && c == mc + cb * w
    requires c < limit && r < rows
    ensures k < |ColumnBlocks(a, cols, w, rows, limit, mc)|
    ensures ColumnBlocks(a, cols, w, rows, limit, mc)[k] == Row(a, cols, w, r, c)
    decreases cb
  {
    assert mc < limit by { MulMonotone(0, cb, w); }
    var head, tail := RowBlocks(a, cols, w, rows, mc, 0), ColumnBlocks(a, cols, w, rows, limit, mc + w);
    assert ColumnBlocks(a, cols, w, rows, limit, mc) == head + tail;
    FirstRowBlocks(a, cols, w, rows, mc, nb, r);
    if cb > 0 {
      MulSucc(w, cb - 1);
      MulSucc(rows, cb - 1);
      MulMonotone(0, cb - 1, rows);
      assert k - rows == (cb - 1) * rows + r;
      assert c == (mc + w) + (cb - 1) * w;
      ColumnBlocksAt(a, cols, w, rows, limit, mc + w, nb, cb - 1, r, k - rows, c);
      assert (head + tail)[k] == tail[k - rows];
    } else {
      assert (head + tail)[r] == head[r];
    }
  }

  /** A block index below Blocks(n, W) starts below n. */
  lemma BlockStartsInside(n: nat, w: nat, cb: nat)
    requires w > 0 && cb < Blocks(n, w)
    ensures cb * w < n
  {
    BlocksCover(n, w);
    MulMonotone(cb, Blocks(n, w) - 1, w);
  }

  // ---------------------------------------------------------------- transfer_weights.py

  /** The vectors transfer_weights.py prints for one weight matrix: column blocks of W
      columns, then row blocks of W rows, then the W sub-rows, over the zero-padded
      matrix. The script reads len(weights[0]), so a matrix has at least one row. */
  function LayerVectors(a: Loaded, w: nat): seq<Vec>
    requires w > 0
  {
    var cols := Width(a);
    ColumnBlocks(a, cols, w, Padded(|a|, w), Padded(cols, w), 0)
  }

  /** One layer: R * C / W vectors for padded sizes R and C. */
  lemma LayerVectorCount(a: Loaded, w: nat)
    requires w > 0
    ensures |LayerVectors(a, w)| == Blocks(Width(a), w) * Padded(|a|, w)
  {
    var cols := Width(a);
    BlocksCover(cols, w);
    BlocksCover(|a|, w);
    ColumnBlocksLength(a, cols, w, Padded(|a|, w), Padded(cols, w), 0, Blocks(cols, w), Blocks(|a|, w));
  }

  /** The vector of column block cb and padded row r sits at position cb * R + r and holds
      row r of the zero-padded matrix, columns cb * W .. cb * W + W - 1. */
  lemma LayerVectorAt(a: Loaded, w: nat, cb: nat, r: nat)
    requires w > 0
    requires cb < Blocks(Width(a), w) && r < Padded(|a|, w)
    ensures cb * Padded(|a|, w) + r < |LayerVectors(a, w)|
    ensures LayerVectors(a, w)[cb * Padded(|a|, w) + r] == Row(a, Width(a), w, r, cb * w)
  {
    var cols := Width(a);
    BlocksCover(cols, w);
    BlocksCover(|a|, w);
    BlockStartsInside(cols, w, cb);
    ColumnBlocksAt(a, cols, w, Padded(|a|, w), Padded(cols, w), 0, Blocks(|a|, w), cb, r, cb * Padded(|a|, w) + r, cb * w);
  }

  /** All layers, in file order, one after the other. */
  function WeightVectors(layers: seq<Loaded>, w: nat): (vs: seq<Vec>)
    requires w > 0
    ensures forall i :: 0 <= i < |vs| ==> |vs[i]| == w
  {
    if |layers| == 0 then [] else LayerVectors(layers[0], w) + WeightVectors(layers[1..], w)
  }

  /** Where the vectors of layer l start in the weights file: the vectors of all earlier layers. */
  function WeightBase(layers: seq<Loaded>, w: nat, l: nat): nat
    requires w > 0 && l <= |layers|
  {
    if l == 0 then 0 else |LayerVectors(layers[0], w)| + WeightBase(layers[1..], w, l - 1)
  }

  /** The weights file holds every layer's vectors back to back: vector k of layer l is
      vector WeightBase(l) + k of the file. */
  lemma {:induction false} WeightVectorsAt(layers: seq<Loaded>, w: nat, l: nat, k: nat)
    requires w > 0 && l < |layers| && k < |LayerVectors(layers[l], w)|
    ensures WeightBase(layers, w, l) + k < |WeightVectors(layers, w)|
    ensures WeightVectors(layers, w)[WeightBase(layers, w, l) + k] == LayerVectors(layers[l], w)[k]
    decreases l
  {
    var head, tail := LayerVectors(layers[0], w), WeightVectors(layers[1..], w);
    assert WeightVectors(layers, w) == head + tail;
    if l > 0 {
      assert layers[1..][l - 1] == layers[l];
      WeightVectorsAt(layers[1..], w, l - 1, k);
      assert (head + tail)[|head| + (WeightBase(layers[1..], w, l - 1) + k)]
          == tail[WeightBase(layers[1..], w, l - 1) + k];
    } else {
      assert (head + tail)[k] == head[k];
    }
  }

  /** Row r of column block cb of layer l is vector WeightBase(l) + cb * R + r of the
      weights file. */
  lemma TileAt(layers: seq<Loaded>, w: nat, l: nat, cb: nat, r: nat, k: nat)
    requires w > 0 && l < |layers| && cb < Blocks(Width(layers[l]), w) && r < Padded(|layers[l]|, w)
    requires k == cb * Padded(|layers[l]|, w) + r
    ensures WeightBase(layers, w, l) + k < |WeightVectors(layers, w)|
    ensures WeightVectors(layers, w)[WeightBase(layers, w, l) + k] == Row(layers[l], Width(layers[l]), w, r, cb * w)
  {
    LayerVectorAt(layers[l], w, cb, r);
    WeightVectorsAt(layers, w, l, k);
  }

  // ---------------------------------------------------------------- transfer_input.py

  /** The rows transfer_input.py selects from offset s: W rows when that many remain,
      and otherwise every row from s on (none, past the end). */
  function SelectRows(x: Matrix, s: nat, w: nat): (sel: Matrix)
    ensures s + w <= |x| ==> sel == x[s .. s + w]
    ensures s + w > |x| ==> sel == if s <= |x| then x[s..] else []
  {
    if s + w <= |x| then x[s .. s + w] else if s <= |x| then x[s..] else []
  }

  datatype Generated<T> = Produced(value: T) | IndexError

  /** The vectors printed for a block of input rows: for each chunk of W columns and
      each row j < W, the row's entries in that chunk, zero past the last column. The
      loops are the weight loops with a single row block of height W, bounded by the
      column count. The script indexes rows 0 .. W - 1 of the block and column 0 of its
      first row, so a block with no row, or with fewer than W rows and any column,
      raises IndexError. */
  function InputVectors(sel: Matrix, w: nat): (r: Generated<seq<Vec>>)
    requires w > 0 && (|sel| > 0 ==> Shaped(sel, |sel[0]|))
    ensures r.IndexError? <==> |sel| == 0 || (|sel[0]| > 0 && |sel| < w)
    ensures r.Produced? ==> forall i :: 0 <= i < |r.value| ==> |r.value[i]| == w
  {
    if |sel| == 0 then IndexError
    else
      var cols := |sel[0]|;
      if cols > 0 && |sel| < w then IndexError
      else Produced(ColumnBlocks(sel, cols, w, w, cols, 0))
  }

  /** A block of W rows gives ceil(cols / W) * W vectors. */
  lemma InputVectorCount(sel: Matrix, w: nat)
    requires w > 0 && |sel| == w && Shaped(sel, |sel[0]|)
    ensures InputVectors(sel, w).Produced?
    ensures |InputVectors(sel, w).value| == Padded(|sel[0]|, w)
  {
    var cols := |sel[0]|;
    BlocksCover(cols, w);
    ColumnBlocksLength(sel, cols, w, w, cols, 0, Blocks(cols, w), 1);
  }

  /** The vector of chunk q and row j sits at q * W + j and holds row j, columns
      q * W .. q * W + W - 1, zero past the last column. */
  lemma InputVectorAt(sel: Matrix, w: nat, q: nat, j: nat)
    requires w > 0 && |sel| == w && Shaped(sel, |sel[0]|)
    requires q < Blocks(|sel[0]|, w) && j < w
    ensures InputVectors(sel, w).Produced?
    ensures q * w + j < |InputVectors(sel, w).value|
    ensures InputVectors(sel, w).value[q * w + j] == Row(sel, |sel[0]|, w, j, q * w)
  {
    var cols := |sel[0]|;
    BlocksCover(cols, w);
    BlockStartsInside(cols, w, q);
    ColumnBlocksAt(sel, cols, w, w, cols, 0, 1, q, j, q * w + j, q * w);
  }

  // ---------------------------------------------------------------- transfer_complete_model.py

  /** The rows of the batch starting at row i: W rows when that many remain; otherwise
      the rows left, followed by W - n % W zero rows of the input's width. */
  function BatchRows(x: Loaded, i: nat, w: nat): (b: Matrix)
    requires w > 0
    ensures Shaped(b, Width(x))
  {
    if i + w <= |x| then x[i .. i + w]
    else (if i <= |x| then x[i..] else []) + seq(w - |x| % w, _ => seq(Width(x), _ => 0 as int8))
  }

  /** A full batch is W consecutive rows; a genuine tail batch (0 < n - i < W, i a multiple
      of W) is the remaining rows padded with zero rows to exactly W. */
  lemma BatchRowsShape(x: Loaded, i: nat, w: nat)
    requires w > 0
    ensures Shaped(BatchRows(x, i, w), Width(x))
    ensures i + w <= |x| ==> BatchRows(x, i, w) == x[i .. i + w]
    ensures i < |x| < i + w && i % w == 0 ==>
      && |BatchRows(x, i, w)| == w
      && BatchRows(x, i, w)[..|x| - i] == x[i..]
      && forall r :: |x| - i <= r < w ==> forall c :: 0 <= c < Width(x) ==> BatchRows(x, i, w)[r][c] == 0
  {
    if i < |x| < i + w && i % w == 0 {
      var q := i / w;
      assert i == q * w;
      DivModUnique(|x|, w, q, |x| - i);
    }
  }

  /** The block transfer_input.py selects from row s is the batch block
      transfer_complete_model.py builds from the same row without its zero rows: a prefix
      of it, and all of it exactly when W rows remain. */
  lemma SelectRowsInBatch(x: Loaded, s: nat, w: nat)
    requires w > 0
    ensures SelectRows(x, s, w) <= BatchRows(x, s, w)
    ensures SelectRows(x, s, w) == BatchRows(x, s, w) <==> s + w <= |x|
  {
    if s + w > |x| {
      var tail := if s <= |x| then x[s..] else [];
      var zeros := seq(w - |x| % w, _ => seq(Width(x), _ => 0 as int8));
      assert BatchRows(x, s, w) == tail + zeros;
      assert SelectRows(x, s, w) == tail;
      assert |tail + zeros| > |tail|;
    }
  }
}
