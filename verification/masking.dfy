/** The numpy side of the quality masks: `np.in1d(qf, values, invert=True)`
    over a flattened flag grid, `np.ma.MaskedArray(data, mask)` (which
    reshapes the flat mask to the data's shape and, with the default
    `keep_mask=True`, ORs it into any mask the data already carries), and
    the 2x2 upsampling `np.kron(qf6, np.ones((2, 2)))`. Grids are row-major
    sequences of rows. */
module Masking {
  import opened Outcomes
  import opened QualityFlags

  /** Position of cell `(i, j)` in the row-major order of a grid with
      `cols` columns: the index numpy's `ravel` and `reshape` use. */
  function RowMajor(i: nat, j: nat, cols: nat): nat
  {
    i * cols + j
  }

  /** Number of columns of a grid; a grid without rows has none. */
  function Cols<T>(g: seq<seq<T>>): nat
  {
    if |g| == 0 then 0 else |g[0]|
  }

  /** `g` has `rows` rows of `cols` cells each. */
  predicate IsShape<T>(g: seq<seq<T>>, rows: nat, cols: nat)
  {
    |g| == rows && forall i :: 0 <= i < rows ==> |g[i]| == cols
  }

  /** Every row has the same length: a 2-D array. */
  predicate Rectangular<T>(g: seq<seq<T>>)
  {
    IsShape(g, |g|, Cols(g))
  }

  /** One row fewer is `cols` cells fewer. */
  lemma RowsStep(rows: nat, cols: nat)
    requires rows > 0
    ensures rows * cols == cols + (rows - 1) * cols
  {
  }

  /** `a.ravel()`: the cells row by row. */
  function Flatten<T>(g: seq<seq<T>>): seq<T>
    decreases |g|
  {
    if g == [] then [] else g[0] + Flatten(g[1..])
  }

  /** `flat.reshape(rows, cols)`: consecutive runs of `cols` cells become the
      rows. */
  function Reshape<T>(flat: seq<T>, rows: nat, cols: nat): (g: seq<seq<T>>)
    requires |flat| == rows * cols
    ensures IsShape(g, rows, cols)
    decreases rows
  {
    if rows == 0 then []
    else
      RowsStep(rows, cols);
      [flat[..cols]] + Reshape(flat[cols..], rows - 1, cols)
  }

  lemma {:induction false} FlattenLength<T>(g: seq<seq<T>>, rows: nat, cols: nat)
    requires IsShape(g, rows, cols)
    ensures |Flatten(g)| == rows * cols
    decreases rows
  {
    if rows > 0 {
      FlattenLength(g[1..], rows - 1, cols);
      RowsStep(rows, cols);
    }
  }

  /** Cell `(i, j)` of an `rows x cols` grid sits at `i * cols + j` once
      flattened. */
  lemma {:induction false} FlattenIndex<T>(g: seq<seq<T>>, rows: nat, cols: nat, i: nat, j: nat)
    requires IsShape(g, rows, cols) && i < rows && j < cols
    ensures i * cols + j < |Flatten(g)|
    ensures Flatten(g)[i * cols + j] == g[i][j]
    decreases i
  {
    FlattenLength(g, rows, cols);
    FlattenLength(g[1..], rows - 1, cols);
    assert Flatten(g) == g[0] + Flatten(g[1..]);
    if i > 0 {
      FlattenIndex(g[1..], rows - 1, cols, i - 1, j);
      RowsStep(i, cols);
    }
  }

  /** Cell `(i, j)` of a reshaped sequence is element `i * cols + j`. */
  lemma {:induction false} ReshapeIndex<T>(flat: seq<T>, rows: nat, cols: nat, i: nat, j: nat)
    requires |flat| == rows * cols && i < rows && j < cols
    ensures i * cols + j < |flat|
    ensures Reshape(flat, rows, cols)[i][j] == flat[i * cols + j]
    decreases i
  {
    RowsStep(rows, cols);
    var rest := flat[cols..];
    assert Reshape(flat, rows, cols) == [flat[..cols]] + Reshape(rest, rows - 1, cols);
    if i > 0 {
      ReshapeIndex(rest, rows - 1, cols, i - 1, j);
      RowsStep(i, cols);
      assert rest[(i - 1) * cols + j] == flat[i * cols + j];
    }
  }

  /** Reshaping undoes flattening. */
  lemma ReshapeFlatten<T>(g: seq<seq<T>>, rows: nat, cols: nat)
    requires IsShape(g, rows, cols)
    ensures |Flatten(g)| == rows * cols
    ensures Reshape(Flatten(g), rows, cols) == g
  {
    FlattenLength(g, rows, cols);
    var r := Reshape(Flatten(g), rows, cols);
    forall i | 0 <= i < rows
      ensures r[i] == g[i]
    {
      forall j | 0 <= j < cols
        ensures r[i][j] == g[i][j]
      {
        ReshapeIndex(Flatten(g), rows, cols, i, j);
        FlattenIndex(g, rows, cols, i, j);
      }
    }
  }

  /** Flattening undoes reshaping. */
  lemma {:induction false} FlattenReshape<T>(flat: seq<T>, rows: nat, cols: nat)
    requires |flat| == rows * cols
    ensures Flatten(Reshape(flat, rows, cols)) == flat
    decreases rows
  {
    if rows > 0 {
      RowsStep(rows, cols);
      FlattenReshape(flat[cols..], rows - 1, cols);
      assert flat[..cols] + flat[cols..] == flat;
    }
  }

  /** `np.in1d(flat, values, invert=True)` on an already flat sequence. */
  function NotIn(flat: seq<int>, values: seq<nat>): (m: seq<bool>)
    ensures |m| == |flat|
    ensures forall k :: 0 <= k < |flat| ==> (m[k] <==> flat[k] !in values)
    decreases |flat|
  {
    if flat == [] then [] else [flat[0] !in values] + NotIn(flat[1..], values)
  }

  /** `np.in1d(qf, values, invert=True)`: the flag grid is flattened and each
      cell is marked when its value is missing from `values`. */
  function InvertedIn1d(qf: seq<seq<int>>, values: seq<nat>): seq<bool>
  {
    NotIn(Flatten(qf), values)
  }

  /** A masked array: its data and one mask bit per cell (`true` hides the
      cell). */
  datatype MaskedGrid<T> = MaskedGrid(data: seq<seq<T>>, mask: seq<seq<bool>>)
  {
    predicate Valid()
    {
      Rectangular(data) && IsShape(mask, |data|, Cols(data))
    }
  }

  /** The failure `np.ma.MaskedArray` raises when the mask does not have as
      many cells as the data. */
  datatype MaskError = MaskSizeMismatch(maskSize: nat, dataSize: nat)

  /** An all-false mask of the given shape: numpy's `nomask`. */
  function NoMask(rows: nat, cols: nat): (m: seq<seq<bool>>)
    ensures IsShape(m, rows, cols)
    ensures forall i, j :: 0 <= i < rows && 0 <= j < cols ==> !m[i][j]
  {
    seq(rows, _ => seq(cols, _ => false))
  }

  /** A plain array seen as a masked array with nothing hidden. */
  function Unmasked<T>(data: seq<seq<T>>): MaskedGrid<T>
  {
    MaskedGrid(data, NoMask(|data|, Cols(data)))
  }

  /** Cell-wise OR of two masks of the same shape. */
  function MaskOr(a: seq<seq<bool>>, b: seq<seq<bool>>, rows: nat, cols: nat): (m: seq<seq<bool>>)
    requires IsShape(a, rows, cols) && IsShape(b, rows, cols)
    ensures IsShape(m, rows, cols)
    ensures forall i, j :: 0 <= i < rows && 0 <= j < cols ==> (m[i][j] <==> a[i][j] || b[i][j])
  {
    seq(rows, i requires 0 <= i < rows => seq(cols, j requires 0 <= j < cols => a[i][j] || b[i][j]))
  }

  /** A `rows x cols` grid holding `b` everywhere: `np.resize` of a
      one-cell mask to the data's shape. */
  function Fill(b: bool, rows: nat, cols: nat): (m: seq<seq<bool>>)
    ensures IsShape(m, rows, cols)
    ensures forall i, j :: 0 <= i < rows && 0 <= j < cols ==> m[i][j] == b
  {
    seq(rows, _ => seq(cols, _ => b))
  }

  /** `np.ma.MaskedArray(a, mask)` with `keep_mask=True`: a flat mask with as
      many cells as the data is reshaped to the data's shape, a one-cell
      mask is repeated over the whole shape, and the result is ORed into
      the mask `a` already carries; any other size is an error. */
  function ApplyMask<T>(a: MaskedGrid<T>, flatMask: seq<bool>): (r: Result<MaskedGrid<T>, MaskError>)
    requires a.Valid()
    ensures r.Ok? ==> r.value.Valid() && r.value.data == a.data
  {
    var rows := |a.data|;
    var cols := Cols(a.data);
    if |flatMask| == rows * cols then
      Ok(MaskedGrid(a.data, MaskOr(a.mask, Reshape(flatMask, rows, cols), rows, cols)))
    else if |flatMask| == 1 then
      Ok(MaskedGrid(a.data, MaskOr(a.mask, Fill(flatMask[0], rows, cols), rows, cols)))
    else Err(MaskSizeMismatch(|flatMask|, rows * cols))
  }

  /** Cell `(i, j)` after masking: hidden when it was hidden before or
      its flat mask bit is set. */
  lemma ApplyMaskCell<T>(a: MaskedGrid<T>, flatMask: seq<bool>, rows: nat, cols: nat, i: nat, j: nat)
    requires a.Valid() && rows == |a.data| && cols == Cols(a.data)
    requires |flatMask| == rows * cols && i < rows && j < cols
    ensures RowMajor(i, j, cols) < |flatMask|
    ensures ApplyMask(a, flatMask).value.mask[i][j] <==> a.mask[i][j] || flatMask[RowMajor(i, j, cols)]
  {
    ReshapeIndex(flatMask, rows, cols, i, j);
  }

  /** Masking fails exactly when the flat mask holds neither one cell nor
      as many cells as the data, and the error reports both sizes. */
  lemma ApplyMaskFails<T>(a: MaskedGrid<T>, flatMask: seq<bool>)
    requires a.Valid()
    ensures ApplyMask(a, flatMask).Err? <==> |flatMask| != 1 && |flatMask| != |a.data| * Cols(a.data)
    ensures ApplyMask(a, flatMask).Err? ==>
      ApplyMask(a, flatMask).error == MaskSizeMismatch(|flatMask|, |a.data| * Cols(a.data))
  {
  }

  /** A one-cell mask is broadcast: its single bit is ORed into every cell. */
  lemma ApplyMaskBroadcast<T>(a: MaskedGrid<T>, flatMask: seq<bool>)
    requires a.Valid() && |flatMask| == 1
    ensures ApplyMask(a, flatMask).Ok?
    ensures var b := ApplyMask(a, flatMask).value;
      && b.Valid()
      && b.data == a.data
      && forall i, j :: 0 <= i < |a.data| && 0 <= j < Cols(a.data) ==>
           (b.mask[i][j] <==> a.mask[i][j] || flatMask[0])
  {
    var rows := |a.data|;
    var cols := Cols(a.data);
    if rows * cols == 1 {
      assert rows == 1 && cols == 1;
      ReshapeIndex(flatMask, 1, 1, 0, 0);
    }
  }

  /** With a flat mask of the data's size, masking keeps the data and the
      shape, and a cell ends up hidden exactly when it was hidden before or
      its flat mask bit (at the row-major index of the cell) is set. */
  lemma ApplyMaskCells<T>(a: MaskedGrid<T>, flatMask: seq<bool>, rows: nat, cols: nat)
    requires a.Valid() && rows == |a.data| && cols == Cols(a.data)
    requires |flatMask| == rows * cols
    ensures ApplyMask(a, flatMask).Ok?
    ensures var b := ApplyMask(a, flatMask).value;
      && b.Valid()
      && b.data == a.data
      && forall i, j :: 0 <= i < rows && 0 <= j < cols ==>
           RowMajor(i, j, cols) < |flatMask| && (b.mask[i][j] <==> a.mask[i][j] || flatMask[RowMajor(i, j, cols)])
  {
    forall i, j | 0 <= i < rows && 0 <= j < cols
      ensures RowMajor(i, j, cols) < |flatMask|
      ensures ApplyMask(a, flatMask).value.mask[i][j] <==> a.mask[i][j] || flatMask[RowMajor(i, j, cols)]
    {
      ApplyMaskCell(a, flatMask, rows, cols, i, j);
    }
  }

  /** Hiding the cells whose flag value (from a grid of the data's shape) is
      missing from `values`. */
  function MaskByFlags<T>(a: MaskedGrid<T>, qf: seq<seq<int>>, values: seq<nat>): (r: Result<MaskedGrid<T>, MaskError>)
    requires a.Valid()
    ensures r.Ok? ==> r.value.Valid() && r.value.data == a.data
  {
    ApplyMask(a, InvertedIn1d(qf, values))
  }

  /** With a flag grid of the data's shape, masking by flags succeeds and
      hides exactly the cells already hidden plus those whose flag value is
      not in the list. */
  lemma MaskByFlagsCells<T>(a: MaskedGrid<T>, qf: seq<seq<int>>, values: seq<nat>)
    requires a.Valid() && IsShape(qf, |a.data|, Cols(a.data))
    ensures MaskByFlags(a, qf, values).Ok?
    ensures var b := MaskByFlags(a, qf, values).value;
      && b.Valid()
      && b.data == a.data
      && forall i, j :: 0 <= i < |a.data| && 0 <= j < Cols(a.data) ==>
           (b.mask[i][j] <==> a.mask[i][j] || qf[i][j] !in values)
  {
    var rows := |a.data|;
    var cols := Cols(a.data);
    var flat := InvertedIn1d(qf, values);
    FlattenLength(qf, rows, cols);
    ApplyMaskCells(a, flat, rows, cols);
    var b := MaskByFlags(a, qf, values).value;
    forall i, j | 0 <= i < rows && 0 <= j < cols
      ensures b.mask[i][j] <==> a.mask[i][j] || qf[i][j] !in values
    {
      FlattenIndex(qf, rows, cols, i, j);
    }
  }

  /** A one-cell flag grid hides every cell, or none beyond those already
      hidden, whatever the data's shape: its value is missing from
      `values` or it is not. */
  lemma MaskByFlagsSingleFlag<T>(a: MaskedGrid<T>, qf: seq<seq<int>>, values: seq<nat>)
    requires a.Valid() && IsShape(qf, 1, 1)
    ensures MaskByFlags(a, qf, values).Ok?
    ensures var b := MaskByFlags(a, qf, values).value;
      && b.data == a.data
      && forall i, j :: 0 <= i < |a.data| && 0 <= j < Cols(a.data) ==>
           (b.mask[i][j] <==> a.mask[i][j] || qf[0][0] !in values)
  {
    FlattenIndex(qf, 1, 1, 0, 0);
    FlattenLength(qf, 1, 1);
    ApplyMaskBroadcast(a, InvertedIn1d(qf, values));
  }

  /** One band of `quality_filtering`: wrap the band with the QF5 mask, then
      re-wrap it with the QF2 mask. `good` and `land` are the lists the QF5
      and QF2 loops build. */
  function FilterBand<T>(band: seq<seq<T>>, qf5: seq<seq<int>>, qf2: seq<seq<int>>, good: seq<nat>, land: seq<nat>)
    : Result<MaskedGrid<T>, MaskError>
    requires Rectangular(band)
  {
    match MaskByFlags(Unmasked(band), qf5, good)
    case Err(e) => Err(e)
    case Ok(a) => MaskByFlags(a, qf2, land)
  }

  /** For flag grids of the band's shape, the two wrappings hide a pixel
      exactly when its QF5 value is not in `good` or its QF2 value is not in
      `land`: the second wrap keeps the first mask. */
  lemma FilterBandCells<T>(band: seq<seq<T>>, qf5: seq<seq<int>>, qf2: seq<seq<int>>, good: seq<nat>, land: seq<nat>)
    requires Rectangular(band)
    requires IsShape(qf5, |band|, Cols(band)) && IsShape(qf2, |band|, Cols(band))
    ensures FilterBand(band, qf5, qf2, good, land).Ok?
    ensures var b := FilterBand(band, qf5, qf2, good, land).value;
      && b.Valid()
      && b.data == band
      && forall i, j :: 0 <= i < |band| && 0 <= j < Cols(band) ==>
           (!b.mask[i][j] <==> qf5[i][j] in good && qf2[i][j] in land)
  {
    var u := Unmasked(band);
    MaskByFlagsCells(u, qf5, good);
    var a := MaskByFlags(u, qf5, good).value;
    MaskByFlagsCells(a, qf2, land);
  }

  /** Because each wrap ORs its mask into the one already there, the
      order of the two stages does not matter. */
  lemma FilterBandCommutes<T>(band: seq<seq<T>>, qf5: seq<seq<int>>, qf2: seq<seq<int>>, good: seq<nat>, land: seq<nat>)
    requires Rectangular(band)
    requires IsShape(qf5, |band|, Cols(band)) && IsShape(qf2, |band|, Cols(band))
    ensures FilterBand(band, qf5, qf2, good, land).Ok? && FilterBand(band, qf2, qf5, land, good).Ok?
    ensures FilterBand(band, qf5, qf2, good, land) == FilterBand(band, qf2, qf5, land, good)
  {
    FilterBandCells(band, qf5, qf2, good, land);
    FilterBandCells(band, qf2, qf5, land, good);
    var x := FilterBand(band, qf5, qf2, good, land).value;
    var y := FilterBand(band, qf2, qf5, land, good).value;
    forall i | 0 <= i < |band|
      ensures x.mask[i] == y.mask[i]
    {
      forall j | 0 <= j < Cols(band)
        ensures x.mask[i][j] == y.mask[i][j]
      {
      }
    }
    assert x.mask == y.mask;
  }

  /** `quality_filtering` applied to one band, with the lists its loops
      build. */
  function QualityFilter<T>(band: seq<seq<T>>, qf5: seq<seq<int>>, qf2: seq<seq<int>>): Result<MaskedGrid<T>, MaskError>
    requires Rectangular(band)
  {
    FilterBand(band, qf5, qf2, ValueList(Qf5Good), ValueList(Qf2Land))
  }

  /** After both quality stages a pixel stays visible exactly when its QF5
      value is below 16 (bits 4-7 clear) and its QF2 value is an 8-bit value
      whose low three bits are neither `010` nor `011`; in particular any
      flag value outside `0..255` hides the pixel. */
  lemma QualityFilterCells<T>(band: seq<seq<T>>, qf5: seq<seq<int>>, qf2: seq<seq<int>>)
    requires Rectangular(band)
    requires IsShape(qf5, |band|, Cols(band)) && IsShape(qf2, |band|, Cols(band))
    ensures QualityFilter(band, qf5, qf2).Ok?
    ensures var b := QualityFilter(band, qf5, qf2).value;
      && b.data == band
      && forall i, j :: 0 <= i < |band| && 0 <= j < Cols(band) ==>
           (!b.mask[i][j] <==> 0 <= qf5[i][j] < 16
                               && 0 <= qf2[i][j] < 256 && qf2[i][j] % 8 != 2 && qf2[i][j] % 8 != 3)
  {
    FilterBandCells(band, qf5, qf2, ValueList(Qf5Good), ValueList(Qf2Land));
    var b := QualityFilter(band, qf5, qf2).value;
    forall i, j | 0 <= i < |band| && 0 <= j < Cols(band)
      ensures !b.mask[i][j] <==> 0 <= qf5[i][j] < 16
                                 && 0 <= qf2[i][j] < 256 && qf2[i][j] % 8 != 2 && qf2[i][j] % 8 != 3
    {
      ValueListMember(Qf5Good, qf5[i][j]);
      ValueListMember(Qf2Land, qf2[i][j]);
    }
  }

  /** `c * row`, cell by cell. */
  function Scale(c: int, row: seq<int>): (r: seq<int>)
    ensures |r| == |row| && forall q :: 0 <= q < |row| ==> r[q] == c * row[q]
  {
    seq(|row|, q requires 0 <= q < |row| => c * row[q])
  }

  /** One output row of `np.kron(a, b)`: every cell `x[j]` of a row of `a`
      becomes the block `x[j] * brow`, side by side. */
  function KronRow(x: seq<int>, brow: seq<int>): seq<int>
    decreases |x|
  {
    if x == [] then [] else Scale(x[0], brow) + KronRow(x[1..], brow)
  }

  /** The `|b|` output rows that one row of `a` produces. */
  function KronRows(arow: seq<int>, b: seq<seq<int>>): seq<seq<int>>
  {
    seq(|b|, p requires 0 <= p < |b| => KronRow(arow, b[p]))
  }

  /** `np.kron(a, b)` for 2-D arrays: each cell `a[i][j]` becomes the block
      `a[i][j] * b`. */
  function Kron(a: seq<seq<int>>, b: seq<seq<int>>): seq<seq<int>>
    decreases |a|
  {
    if a == [] then [] else KronRows(a[0], b) + Kron(a[1..], b)
  }

  /** `np.ones((p, q))`. */
  function Ones(p: nat, q: nat): (o: seq<seq<int>>)
    ensures IsShape(o, p, q)
    ensures forall i, j :: 0 <= i < p && 0 <= j < q ==> o[i][j] == 1
  {
    seq(p, _ => seq(q, _ => 1))
  }

  /** Cell `j * |brow| + q` of a Kronecker row is `x[j] * brow[q]`. */
  lemma {:induction false} KronRowIndex(x: seq<int>, brow: seq<int>, j: nat, q: nat)
    requires j < |x| && q < |brow|
    ensures |KronRow(x, brow)| == |x| * |brow|
    ensures j * |brow| + q < |KronRow(x, brow)|
    ensures KronRow(x, brow)[j * |brow| + q] == x[j] * brow[q]
    decreases |x|
  {
    KronRowLength(x, brow);
    if j > 0 {
      KronRowIndex(x[1..], brow, j - 1, q);
      RowsStep(j, |brow|);
    }
  }

  lemma {:induction false} KronRowLength(x: seq<int>, brow: seq<int>)
    ensures |KronRow(x, brow)| == |x| * |brow|
    decreases |x|
  {
    if x != [] {
      KronRowLength(x[1..], brow);
      RowsStep(|x|, |brow|);
    }
  }

  lemma {:induction false} KronLength(a: seq<seq<int>>, b: seq<seq<int>>)
    ensures |Kron(a, b)| == |a| * |b|
    decreases |a|
  {
    if a != [] {
      KronLength(a[1..], b);
      RowsStep(|a|, |b|);
    }
  }

  /** Row `i * |b| + p` of `np.kron(a, b)` is the Kronecker row of `a[i]`
      with `b[p]`. */
  lemma {:induction false} KronRowOf(a: seq<seq<int>>, b: seq<seq<int>>, i: nat, p: nat)
    requires i < |a| && p < |b|
    ensures |Kron(a, b)| == |a| * |b|
    ensures i * |b| + p < |Kron(a, b)|
    ensures Kron(a, b)[i * |b| + p] == KronRow(a[i], b[p])
    decreases |a|
  {
    KronLength(a, b);
    if i > 0 {
      KronRowOf(a[1..], b, i - 1, p);
      RowsStep(i, |b|);
    }
  }

  /** A block index and an offset inside it stay below `rows * p`. */
  lemma {:induction false} BlockIndex(i: nat, k: nat, rows: nat, p: nat)
    requires i < rows && k < p
    ensures i * p + k < rows * p
    decreases rows
  {
    RowsStep(rows, p);
    if i < rows - 1 {
      BlockIndex(i, k, rows - 1, p);
    }
  }

  /** Every row of `np.kron(a, b)` has `C * Q` cells when every row of `a`
      has `C` and every row of `b` has `Q`. */
  lemma {:induction false} KronRowsWidth(a: seq<seq<int>>, b: seq<seq<int>>, cols: nat, q: nat)
    requires forall i :: 0 <= i < |a| ==> |a[i]| == cols
    requires forall k :: 0 <= k < |b| ==> |b[k]| == q
    ensures forall r :: 0 <= r < |Kron(a, b)| ==> |Kron(a, b)[r]| == cols * q
    decreases |a|
  {
    if a != [] {
      KronRowsWidth(a[1..], b, cols, q);
      var head := KronRows(a[0], b);
      forall k | 0 <= k < |b|
        ensures |head[k]| == cols * q
      {
        KronRowLength(a[0], b[k]);
      }
    }
  }

  /** Cell `(i * P + k, j * Q + l)` of `np.kron(a, b)` is `a[i][j] * b[k][l]`. */
  lemma KronCellAt(a: seq<seq<int>>, b: seq<seq<int>>, rows: nat, cols: nat, p: nat, q: nat,
                   i: nat, j: nat, k: nat, l: nat)
    requires IsShape(a, rows, cols) && IsShape(b, p, q)
    requires i < rows && j < cols && k < p && l < q
    ensures i * p + k < |Kron(a, b)|
    ensures j * q + l < |Kron(a, b)[i * p + k]|
    ensures Kron(a, b)[i * p + k][j * q + l] == a[i][j] * b[k][l]
  {
    KronRowOf(a, b, i, k);
    KronRowIndex(a[i], b[k], j, l);
  }

  /** An `R x C` array and a `P x Q` array have an `(R * P) x (C * Q)`
      Kronecker product. */
  lemma KronShape(a: seq<seq<int>>, b: seq<seq<int>>, rows: nat, cols: nat, p: nat, q: nat)
    requires IsShape(a, rows, cols) && IsShape(b, p, q)
    ensures IsShape(Kron(a, b), rows * p, cols * q)
  {
    KronLength(a, b);
    KronRowsWidth(a, b, cols, q);
  }

  /** `np.kron(qf6, np.ones((2, 2)))`: every flag becomes a 2x2 block. */
  function Upsample(a: seq<seq<int>>): seq<seq<int>>
  {
    Kron(a, Ones(2, 2))
  }

  /** The upsampled grid is twice as tall and twice as wide, and cell
      `(i, j)` repeats the source cell `(i / 2, j / 2)`. */
  lemma UpsampleCells(a: seq<seq<int>>, rows: nat, cols: nat)
    requires IsShape(a, rows, cols)
    ensures IsShape(Upsample(a), 2 * rows, 2 * cols)
    ensures forall i, j :: 0 <= i < 2 * rows && 0 <= j < 2 * cols ==> Upsample(a)[i][j] == a[i / 2][j / 2]
  {
    KronShape(a, Ones(2, 2), rows, cols, 2, 2);
    forall i, j | 0 <= i < 2 * rows && 0 <= j < 2 * cols
      ensures Upsample(a)[i][j] == a[i / 2][j / 2]
    {
      KronCellAt(a, Ones(2, 2), rows, cols, 2, 2, i / 2, j / 2, i % 2, j % 2);
    }
  }

  /** Keeping the top-left cell of every 2x2 block: the inverse of
      `Upsample`. */
  function Downsample(g: seq<seq<int>>): seq<seq<int>>
    requires Rectangular(g)
  {
    seq(|g| / 2, i requires 0 <= i < |g| / 2 => seq(Cols(g) / 2, j requires 0 <= j < Cols(g) / 2 => g[2 * i][2 * j]))
  }

  /** Upsampling loses nothing: every 2x2 block holds one copy of its
      source flag, which downsampling recovers. */
  lemma DownsampleUpsample(a: seq<seq<int>>, rows: nat, cols: nat)
    requires IsShape(a, rows, cols)
    ensures Rectangular(Upsample(a))
    ensures Downsample(Upsample(a)) == a
  {
    UpsampleCells(a, rows, cols);
    var u := Upsample(a);
    if rows > 0 {
      assert Cols(u) == 2 * cols;
    }
    var d := Downsample(u);
    assert |d| == rows;
    forall i | 0 <= i < rows
      ensures d[i] == a[i]
    {
      forall j | 0 <= j < cols
        ensures d[i][j] == a[i][j]
      {
        assert u[2 * i][2 * j] == a[(2 * i) / 2][(2 * j) / 2];
      }
    }
  }

  /** `calculate_surface_reflection`: the I3 reflectance wrapped with the
      mask from the upsampled QF6 grid and the list of values whose bit 5
      is clear. */
  function SurfaceReflection<T>(reflec: seq<seq<T>>, qf6: seq<seq<int>>): Result<MaskedGrid<T>, MaskError>
    requires Rectangular(reflec)
  {
    MaskUpsampled(reflec, qf6, ValueList(Qf6I3Good))
  }

  /** Wrapping plain data with the mask of an upsampled flag grid. */
  function MaskUpsampled<T>(data: seq<seq<T>>, qf: seq<seq<int>>, values: seq<nat>): Result<MaskedGrid<T>, MaskError>
    requires Rectangular(data)
  {
    MaskByFlags(Unmasked(data), Upsample(qf), values)
  }

  /** Wrapping a grid twice the size of a flag grid with the mask of the
      upsampled flags: each pixel is hidden exactly when the flag of its
      2x2 block is missing from `values`. */
  lemma UpsampledMaskCells<T>(data: seq<seq<T>>, qf: seq<seq<int>>, values: seq<nat>, rows: nat, cols: nat)
    requires IsShape(data, 2 * rows, 2 * cols) && IsShape(qf, rows, cols)
    ensures Rectangular(data)
    ensures MaskUpsampled(data, qf, values).Ok?
    ensures var b := MaskUpsampled(data, qf, values).value;
      && b.Valid()
      && b.data == data
      && forall i, j :: 0 <= i < 2 * rows && 0 <= j < 2 * cols ==>
           (b.mask[i][j] <==> qf[i / 2][j / 2] !in values)
  {
    UpsampleCells(qf, rows, cols);
    if rows > 0 {
      assert Cols(data) == 2 * cols;
    }
    MaskByFlagsCells(Unmasked(data), Upsample(qf), values);
  }

  /** When the reflectance grid is twice the QF6 grid in each direction,
      the wrap succeeds, keeps the data, and hides a pixel exactly when the
      QF6 flag of its 2x2 block is outside `0..255` or has bit 5 set. */
  lemma SurfaceReflectionCells<T>(reflec: seq<seq<T>>, qf6: seq<seq<int>>, rows: nat, cols: nat)
    requires IsShape(reflec, 2 * rows, 2 * cols) && IsShape(qf6, rows, cols)
    ensures Rectangular(reflec)
    ensures SurfaceReflection(reflec, qf6).Ok?
    ensures var b := SurfaceReflection(reflec, qf6).value;
      && b.Valid()
      && b.data == reflec
      && forall i, j :: 0 <= i < 2 * rows && 0 <= j < 2 * cols ==>
           (b.mask[i][j] <==> !(0 <= qf6[i / 2][j / 2] < 256 && (qf6[i / 2][j / 2] / 32) % 2 == 0))
  {
    UpsampledMaskCells(reflec, qf6, ValueList(Qf6I3Good), rows, cols);
    var b := SurfaceReflection(reflec, qf6).value;
    forall i, j | 0 <= i < 2 * rows && 0 <= j < 2 * cols
      ensures b.mask[i][j] <==> !(0 <= qf6[i / 2][j / 2] < 256 && (qf6[i / 2][j / 2] / 32) % 2 == 0)
    {
      ValueListMember(Qf6I3Good, qf6[i / 2][j / 2]);
    }
  }

  /** When the reflectance grid holds a different number of cells from the
      upsampled QF6 grid, the wrap raises the size error. */
  lemma SurfaceReflectionMismatch<T>(reflec: seq<seq<T>>, qf6: seq<seq<int>>, rows: nat, cols: nat)
    requires Rectangular(reflec) && IsShape(qf6, rows, cols)
    requires |reflec| * Cols(reflec) != (2 * rows) * (2 * cols)
    ensures SurfaceReflection(reflec, qf6) == Err(MaskSizeMismatch((2 * rows) * (2 * cols), |reflec| * Cols(reflec)))
  {
    var up := Upsample(qf6);
    UpsampleCells(qf6, rows, cols);
    FlattenLength(up, 2 * rows, 2 * cols);
    EvenCells(rows, cols);
    ApplyMaskFails(Unmasked(reflec), InvertedIn1d(up, ValueList(Qf6I3Good)));
    assert SurfaceReflection(reflec, qf6) == ApplyMask(Unmasked(reflec), InvertedIn1d(up, ValueList(Qf6I3Good)));
  }

  /** A grid of `2 * rows` by `2 * cols` never has exactly one cell. */
  lemma EvenCells(rows: nat, cols: nat)
    ensures (2 * rows) * (2 * cols) == 2 * (rows * (2 * cols))
    ensures (2 * rows) * (2 * cols) != 1
  {
  }
}
