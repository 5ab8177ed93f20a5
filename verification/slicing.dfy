/** Slice extraction shared by the two 2-D viewers: a view axis fixes one index
    of a 3-D volume and keeps the two other dimensions and their voxel
    spacings; the 2-D slice is then turned for display, by a quarter turn for
    a single packed (NIfTI) volume or by flipping both axes for a DICOM
    series, and the mask slice receives the same transform. */
module Slicing {
  import opened Wrappers

  datatype Axis = Axial | Coronal | Sagittal

  /** Where a volume came from; it decides the display orientation. */
  datatype SourceFormat = Nifti | DicomSeries

  /** A 2-D array of `rows` x `cols` cells. */
  datatype Grid<T> = Grid(rows: nat, cols: nat, cells: seq<seq<T>>) {
    predicate Valid() {
      |cells| == rows && forall i :: 0 <= i < rows ==> |cells[i]| == cols
    }
  }

  /** A 3-D array; `dims[k]` is `shape[k]`. */
  datatype Volume<T> = Volume(dims: (nat, nat, nat), voxels: seq<seq<seq<T>>>) {
    predicate Valid() {
      && |voxels| == dims.0
      && (forall a :: 0 <= a < dims.0 ==> |voxels[a]| == dims.1)
      && (forall a, b :: 0 <= a < dims.0 && 0 <= b < dims.1 ==> |voxels[a][b]| == dims.2)
    }
  }

  /** The spacing tuple in the order the decoder returns it. For NIfTI
      (`get_zooms()`) that is the order of the array dimensions; for a DICOM
      series (`GetSpacing()`) it is (x, y, z) while the array is indexed
      (z, y, x). */
  type Spacing = (real, real, real)

  function Component<U>(t: (U, U, U), k: nat): U
    requires k < 3
  {
    if k == 0 then t.0 else if k == 1 then t.1 else t.2
  }

  /** The array dimension a view fixes: the slider index stands there. */
  function FixedDim(axis: Axis): (r: nat)
    ensures r < 3
  {
    match axis
    case Axial => 2
    case Coronal => 1
    case Sagittal => 0
  }

  /** The three views fix three different dimensions: each dimension of the
      volume is sliced through by exactly one view. */
  lemma FixedDimsDistinct(a: Axis, b: Axis)
    ensures FixedDim(a) == FixedDim(b) <==> a == b
    ensures exists c :: FixedDim(c) == 0
    ensures exists c :: FixedDim(c) == 1
    ensures exists c :: FixedDim(c) == 2
  {
    assert FixedDim(Sagittal) == 0 && FixedDim(Coronal) == 1 && FixedDim(Axial) == 2;
  }

  /** The two dimensions a view keeps, as (slice rows, slice columns): the two
      dimensions other than the fixed one, in array order. */
  function KeptDims(axis: Axis): (r: (nat, nat))
    ensures r.0 < r.1 < 3
    ensures FixedDim(axis) != r.0 && FixedDim(axis) != r.1
  {
    match axis
    case Axial => (0, 1)
    case Coronal => (0, 2)
    case Sagittal => (1, 2)
  }

  /** The volume coordinate seen at slice cell (i, j) when index `k` is fixed
      on dimension `d`. */
  function Place(d: nat, k: nat, i: nat, j: nat): (nat, nat, nat)
    requires d < 3
  {
    if d == 0 then (k, i, j) else if d == 1 then (i, k, j) else (i, j, k)
  }

  /** The slice cell a volume coordinate lands on: drop dimension `d`. */
  function Drop(d: nat, p: (nat, nat, nat)): (nat, nat)
    requires d < 3
  {
    if d == 0 then (p.1, p.2) else if d == 1 then (p.0, p.2) else (p.0, p.1)
  }

  /** `image[:, :, k]`, `image[:, k, :]` or `image[k, :, :]` for the view. Cell
      (i, j) of the slice is the voxel that has `k` on the fixed dimension and
      (i, j) on the kept ones. */
  function Slice<T>(v: Volume<T>, axis: Axis, k: nat): (r: Grid<T>)
    requires v.Valid() && k < Component(v.dims, FixedDim(axis))
    ensures r.Valid()
    ensures r.rows == Component(v.dims, KeptDims(axis).0)
    ensures r.cols == Component(v.dims, KeptDims(axis).1)
    ensures forall i, j :: 0 <= i < r.rows && 0 <= j < r.cols ==>
      var p := Place(FixedDim(axis), k, i, j);
      r.cells[i][j] == v.voxels[p.0][p.1][p.2]
  {
    var (n0, n1, n2) := v.dims;
    match axis
    case Axial =>
      Grid(n0, n1, seq(n0, i requires 0 <= i < n0 => seq(n1, j requires 0 <= j < n1 => v.voxels[i][j][k])))
    case Coronal =>
      Grid(n0, n2, seq(n0, i requires 0 <= i < n0 => seq(n2, j requires 0 <= j < n2 => v.voxels[i][k][j])))
    case Sagittal =>
      Grid(n1, n2, seq(n1, i requires 0 <= i < n1 => seq(n2, j requires 0 <= j < n2 => v.voxels[k][i][j])))
  }

  /** Every voxel of the plane `k` of the fixed dimension appears in the
      slice, at the cell obtained by dropping that dimension. */
  lemma SliceHoldsPlane<T>(v: Volume<T>, axis: Axis, k: nat, p: (nat, nat, nat))
    requires v.Valid() && k < Component(v.dims, FixedDim(axis))
    requires p.0 < v.dims.0 && p.1 < v.dims.1 && p.2 < v.dims.2
    requires Component(p, FixedDim(axis)) == k
    ensures var r := Slice(v, axis, k);
      var c := Drop(FixedDim(axis), p);
      c.0 < r.rows && c.1 < r.cols && r.cells[c.0][c.1] == v.voxels[p.0][p.1][p.2]
  {
    var c := Drop(FixedDim(axis), p);
    assert Place(FixedDim(axis), k, c.0, c.1) == p;
  }

  /** The spacing-tuple positions the page reads for a view: (0, 1) for
      Axial, (0, 2) for Coronal, (1, 2) for Sagittal, i.e. the positions of
      the kept array dimensions. */
  function SpacingPair(axis: Axis, s: Spacing): (r: (real, real))
    ensures r == (Component(s, KeptDims(axis).0), Component(s, KeptDims(axis).1))
  {
    match axis
    case Axial => (s.0, s.1)
    case Coronal => (s.0, s.2)
    case Sagittal => (s.1, s.2)
  }

  /** The slice slider: indices 0 .. n - 1 with `n // 2` preselected; `None`
      when the dimension is empty and the slider has no valid range. */
  function DefaultSlice(n: nat): (r: Option<nat>)
    ensures r.Some? <==> n > 0
    ensures r.Some? ==> r.value < n && n - 1 <= 2 * r.value <= n
  {
    if n == 0 then None else Some(n / 2)
  }

  /** `np.rot90`: a quarter turn counter-clockwise; an r x c grid becomes
      c x r. */
  function Rot90<T>(g: Grid<T>): (r: Grid<T>)
    requires g.Valid()
    ensures r.Valid() && r.rows == g.cols && r.cols == g.rows
  {
    Grid(g.cols, g.rows,
      seq(g.cols, i requires 0 <= i < g.cols =>
        seq(g.rows, j requires 0 <= j < g.rows => g.cells[j][g.cols - 1 - i])))
  }

  /** `m[::-1, ::-1]`: both axes reversed; the shape is kept. */
  function FlipBoth<T>(g: Grid<T>): (r: Grid<T>)
    requires g.Valid()
    ensures r.Valid() && r.rows == g.rows && r.cols == g.cols
  {
    Grid(g.rows, g.cols,
      seq(g.rows, i requires 0 <= i < g.rows =>
        seq(g.cols, j requires 0 <= j < g.cols => g.cells[g.rows - 1 - i][g.cols - 1 - j])))
  }

  lemma GridsEqual<T>(a: Grid<T>, b: Grid<T>)
    requires a.Valid() && b.Valid() && a.rows == b.rows && a.cols == b.cols
    requires forall i, j :: 0 <= i < a.rows && 0 <= j < a.cols ==> a.cells[i][j] == b.cells[i][j]
    ensures a == b
  {
    assert forall i :: 0 <= i < a.rows ==> a.cells[i] == b.cells[i];
  }

  /** Two quarter turns are the double flip: the two display conventions
      differ by exactly a quarter turn. */
  lemma Rot90TwiceIsFlipBoth<T>(g: Grid<T>)
    requires g.Valid()
    ensures Rot90(Rot90(g)) == FlipBoth(g)
  {
    var a, b := Rot90(Rot90(g)), FlipBoth(g);
    forall i, j | 0 <= i < a.rows && 0 <= j < a.cols
      ensures a.cells[i][j] == b.cells[i][j]
    {
      var once := Rot90(g);
      assert a.cells[i][j] == once.cells[j][once.cols - 1 - i];
    }
    GridsEqual(a, b);
  }

  /** Flipping both axes undoes itself. */
  lemma FlipBothInvolution<T>(g: Grid<T>)
    requires g.Valid()
    ensures FlipBoth(FlipBoth(g)) == g
  {
    var a := FlipBoth(FlipBoth(g));
    forall i, j | 0 <= i < a.rows && 0 <= j < a.cols
      ensures a.cells[i][j] == g.cells[i][j]
    {
    }
    GridsEqual(a, g);
  }

  /** Four quarter turns give the slice back. */
  lemma Rot90FourTimes<T>(g: Grid<T>)
    requires g.Valid()
    ensures Rot90(Rot90(Rot90(Rot90(g)))) == g
  {
    Rot90TwiceIsFlipBoth(g);
    Rot90TwiceIsFlipBoth(FlipBoth(g));
    FlipBothInvolution(g);
  }

  /** The display transform for a slice of the given source format. */
  function Orient<T>(format: SourceFormat, g: Grid<T>): (r: Grid<T>)
    requires g.Valid()
    ensures r.Valid()
    ensures format == Nifti ==> r.rows == g.cols && r.cols == g.rows
    ensures format == DicomSeries ==> r.rows == g.rows && r.cols == g.cols
  {
    match format
    case Nifti => Rot90(g)
    case DicomSeries => FlipBoth(g)
  }

  /** Rotating a slice and then reading cell (i, j) reads the source cell
      (j, c - 1 - i); flipping reads (r - 1 - i, c - 1 - j). */
  lemma OrientCell<T>(format: SourceFormat, g: Grid<T>, i: nat, j: nat)
    requires g.Valid()
    requires i < Orient(format, g).rows && j < Orient(format, g).cols
    ensures format == Nifti ==> Orient(format, g).cells[i][j] == g.cells[j][g.cols - 1 - i]
    ensures format == DicomSeries ==>
      Orient(format, g).cells[i][j] == g.cells[g.rows - 1 - i][g.cols - 1 - j]
  {
  }

  /** What is handed to the renderer: the turned image slice, the turned mask
      slice if there is one, and the in-plane spacing. */
  datatype SliceView<T, M> = SliceView(image: Grid<T>, mask: Option<Grid<M>>, spacing: (real, real))

  /** The slider index `k` read from the image and, when present, from the
      mask. A mask too small for `k` raises `IndexError`: `None`. */
  function SelectSlices<T, M>(image: Volume<T>, mask: Option<Volume<M>>, s: Spacing, axis: Axis, k: nat)
    : (r: Option<(Grid<T>, Option<Grid<M>>, (real, real))>)
    requires image.Valid() && k < Component(image.dims, FixedDim(axis))
    requires mask.Some? ==> mask.value.Valid()
    ensures r.None? <==> mask.Some? && k >= Component(mask.value.dims, FixedDim(axis))
    ensures r.Some? ==> r.value.0 == Slice(image, axis, k) && r.value.2 == SpacingPair(axis, s)
    ensures r.Some? ==> (r.value.1.Some? <==> mask.Some?)
    ensures r.Some? && mask.Some? ==> r.value.1 == Some(Slice(mask.value, axis, k))
  {
    match mask
    case None => Some((Slice(image, axis, k), None, SpacingPair(axis, s)))
    case Some(m) =>
      if k < Component(m.dims, FixedDim(axis)) then
        Some((Slice(image, axis, k), Some(Slice(m, axis, k)), SpacingPair(axis, s)))
      else None
  }

  /** A mask with the image's shape is sliced without error into a slice of
      the image slice's shape, on every view and every slider position. */
  lemma MaskSliceAligned<T, M>(image: Volume<T>, mask: Volume<M>, s: Spacing, axis: Axis, k: nat)
    requires image.Valid() && mask.Valid() && mask.dims == image.dims
    requires k < Component(image.dims, FixedDim(axis))
    ensures var r := SelectSlices(image, Some(mask), s, axis, k);
      r.Some? && r.value.1.Some? &&
      r.value.1.value.rows == r.value.0.rows && r.value.1.value.cols == r.value.0.cols
  {
  }

  /** `plot_slice` of the stand-alone viewer: image and mask (if any) both get
      the transform of the source format. */
  function OrientView<T, M>(format: SourceFormat, image: Grid<T>, mask: Option<Grid<M>>, spacing: (real, real))
    : (r: SliceView<T, M>)
    requires image.Valid() && (mask.Some? ==> mask.value.Valid())
    ensures r.image == Orient(format, image) && r.spacing == spacing
    ensures r.mask.Some? <==> mask.Some?
    ensures mask.Some? ==> r.mask == Some(Orient(format, mask.value))
  {
    SliceView(Orient(format, image), if mask.Some? then Some(Orient(format, mask.value)) else None, spacing)
  }

  /** Slices of equal shape stay of equal shape once turned for display. */
  lemma OrientKeepsAlignment<T, M>(format: SourceFormat, image: Grid<T>, mask: Grid<M>)
    requires image.Valid() && mask.Valid()
    requires image.rows == mask.rows && image.cols == mask.cols
    ensures var r := OrientView(format, image, Some(mask), (1.0, 1.0));
      r.mask.Some? && r.mask.value.rows == r.image.rows && r.mask.value.cols == r.image.cols
  {
  }
}
