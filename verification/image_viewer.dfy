/** The segmentation viewer page: pick the image and mask files of the
    selected subject and time point by their naming convention, then show one
    slice of each, turned a quarter for display. */
module ImageViewer {
  import opened Wrappers
  import opened Strings
  import opened Seqs
  import opened Paths
  import IdSelection
  import opened Slicing

  const ImageSuffix: string := "_SAG_3D_DESS_LEFT_0000.nii.gz"
  const MaskSuffix: string := "_SAG_3D_DESS_LEFT.nii.gz"

  /** The name prefix that marks a subject's files: `<id>_`. */
  function SubjectPrefix(id: int): string {
    Show(id) + "_"
  }

  /** A name that starts with `<id>_` carries exactly that subject ID, as the
      ID discovery reads it. */
  lemma PrefixCarriesId(id: int, name: string)
    requires StartsWith(name, SubjectPrefix(id))
    ensures IdSelection.FolderId(name) == Some(id)
  {
    var rest := name[|SubjectPrefix(id)|..];
    assert name == Show(id) + "_" + rest;
    IdSelection.FolderIdOfConvention(id, rest);
  }

  /** The image comprehension of the page: an image file of subject `id`,
      which the ID discovery reads back as `id`. */
  predicate ImageMatches(id: int, name: string)
    ensures ImageMatches(id, name) ==> IdSelection.FolderId(name) == Some(id)
  {
    if StartsWith(name, SubjectPrefix(id)) then
      PrefixCarriesId(id, name);
      EndsWith(name, ImageSuffix)
    else false
  }

  /** The mask comprehension of the page: a mask file of subject `id`, which
      the ID discovery reads back as `id`. */
  predicate MaskMatches(id: int, name: string)
    ensures MaskMatches(id, name) ==> IdSelection.FolderId(name) == Some(id)
  {
    if StartsWith(name, SubjectPrefix(id)) then
      PrefixCarriesId(id, name);
      EndsWith(name, MaskSuffix)
    else false
  }

  /** The two suffixes differ just before `.nii.gz` (`0` against `T`), so no
      file is ever taken both as an image and as a mask. */
  lemma ImageNeverMask(a: int, b: int, name: string)
    ensures ImageMatches(a, name) ==> !MaskMatches(b, name)
  {
    if ImageMatches(a, name) {
      assert name[|name| - 8] == ImageSuffix[|ImageSuffix| - 8] == '0';
    }
  }

  /** No file is taken for two subjects: ID 12 never picks up `123_...`. */
  lemma MatchesOneSubject(a: int, b: int, name: string)
    requires StartsWith(name, SubjectPrefix(a)) && StartsWith(name, SubjectPrefix(b))
    ensures a == b
  {
    PrefixCarriesId(a, name);
    PrefixCarriesId(b, name);
  }

  /** What the shell pattern `<prefix>*<suffix>` matches: the two parts may
      not overlap. */
  predicate GlobMatches(prefix: string, suffix: string, name: string) {
    StartsWith(name, prefix) && EndsWith(name, suffix) && |prefix| + |suffix| <= |name|
  }

  /** The image comprehension accepts everything the glob pattern built
      beside it accepts, and also a name where `<id>_` and the suffix share their
      `_`, which the pattern rejects. */
  lemma ComprehensionWiderThanPattern(id: int, name: string)
    ensures GlobMatches(SubjectPrefix(id), ImageSuffix, name) ==> ImageMatches(id, name)
    ensures var overlap := "12" + ImageSuffix;
      ImageMatches(12, overlap) && !GlobMatches(SubjectPrefix(12), ImageSuffix, overlap)
  {
    var overlap := "12" + ImageSuffix;
    assert Show(12) == "12";
    assert overlap[..3] == "12_";
    assert overlap[|overlap| - |ImageSuffix|..] == ImageSuffix;
  }

  /** Python's `str.lower()` on ASCII letters. */
  function Lower(s: string): (r: string)
    ensures |r| == |s|
    ensures forall i :: 0 <= i < |r| ==> !('A' <= r[i] <= 'Z')
    ensures forall i :: 0 <= i < |r| ==> r[i] == s[i] || ('A' <= s[i] <= 'Z' && r[i] as int == s[i] as int + 32)
  {
    if s == [] then []
    else [if 'A' <= s[0] <= 'Z' then (s[0] as int + 32) as char else s[0]] + Lower(s[1..])
  }

  /** A string without upper-case letters is its own lower case. */
  lemma LowerKeepsLowerCase(s: string)
    requires forall i :: 0 <= i < |s| ==> !('A' <= s[i] <= 'Z')
    ensures Lower(s) == s
  {
    assert forall i :: 0 <= i < |s| ==> Lower(s)[i] == s[i];
  }

  /** The time-point labels are already lower case. */
  lemma TimePointsLowerCase(tp: string)
    requires tp in IdSelection.TimePoints
    ensures Lower(tp) == tp
  {
    assert forall i :: 0 <= i < |tp| ==> '0' <= tp[i] <= '9' || tp[i] == 'm';
    LowerKeepsLowerCase(tp);
  }

  /** `<root>/IMAGE/<tp>/DESS_<tp>`. */
  function ImageDir(root: string, tp: string): (r: string)
    ensures '/' !in tp ==> Basename(r) == "DESS_" + tp
  {
    var name := "DESS_" + tp;
    if '/' in tp then Join(Join(Join(root, "IMAGE"), tp), name)
    else
      BasenameOfJoin(Join(Join(root, "IMAGE"), tp), name);
      Join(Join(Join(root, "IMAGE"), tp), name)
  }

  /** `<root>/DATA/pred/pred_<tp lower-cased>_PP`. */
  function MaskDir(root: string, tp: string): (r: string)
    ensures '/' !in tp ==> Basename(r) == "pred_" + Lower(tp) + "_PP"
  {
    var name := "pred_" + Lower(tp) + "_PP";
    if '/' in tp then Join(Join(Join(root, "DATA"), "pred"), name)
    else
      assert '/' !in Lower(tp) by {
        forall i | 0 <= i < |tp| ensures Lower(tp)[i] != '/' {
          assert tp[i] in tp;
        }
      }
      BasenameOfJoin(Join(Join(root, "DATA"), "pred"), name);
      Join(Join(Join(root, "DATA"), "pred"), name)
  }

  /** Outcome of the file lookup of the page. */
  datatype Lookup =
    | NoSelection
    | NotFound(message: string)
    | Load(imagePath: string, maskPath: string)

  /** The file lookup of the page and its error branch: without a selected
      subject the page stops
      before looking at any file; otherwise the first matching image and the
      first matching mask are loaded when both exist, and an error naming the
      subject and the time point is shown when either is missing. */
  function FindImageAndMask(selected: Option<int>, root: string, tp: string,
                            images: seq<string>, masks: seq<string>): (r: Lookup)
    ensures r.NoSelection? <==> selected.None?
    ensures r.Load? <==> (
      && selected.Some?
      && (exists i :: 0 <= i < |images| && ImageMatches(selected.value, images[i]))
      && (exists j :: 0 <= j < |masks| && MaskMatches(selected.value, masks[j])))
    ensures r.NotFound? ==>
      r.message == "No image or mask found for ID " + Show(selected.value) + " at time point " + tp
  {
    match selected
    case None => NoSelection
    case Some(id) =>
      var matchingFiles := Filter(images, n => ImageMatches(id, n));
      var matchingMaskFiles := Filter(masks, n => MaskMatches(id, n));
      FilterEmpty(images, n => ImageMatches(id, n));
      FilterEmpty(masks, n => MaskMatches(id, n));
      if matchingFiles != [] && matchingMaskFiles != [] then
        Load(Join(ImageDir(root, tp), matchingFiles[0]), Join(MaskDir(root, tp), matchingMaskFiles[0]))
      else
        NotFound("No image or mask found for ID " + Show(id) + " at time point " + tp)
  }

  /** The files loaded are the first matches of each listing, in listing
      order, and both belong to the selected subject. */
  lemma FirstMatchesLoaded(id: int, root: string, tp: string, images: seq<string>, masks: seq<string>,
                           i: nat, j: nat)
    requires i < |images| && ImageMatches(id, images[i])
    requires forall i' :: 0 <= i' < i ==> !ImageMatches(id, images[i'])
    requires j < |masks| && MaskMatches(id, masks[j])
    requires forall j' :: 0 <= j' < j ==> !MaskMatches(id, masks[j'])
    ensures FindImageAndMask(Some(id), root, tp, images, masks)
      == Load(Join(ImageDir(root, tp), images[i]), Join(MaskDir(root, tp), masks[j]))
    ensures IdSelection.FolderId(images[i]) == Some(id) && IdSelection.FolderId(masks[j]) == Some(id)
  {
    FilterHead(images, n => ImageMatches(id, n), i);
    FilterHead(masks, n => MaskMatches(id, n), j);
    PrefixCarriesId(id, images[i]);
    PrefixCarriesId(id, masks[j]);
  }

  /** The view selection of the page and `plot_slice`: the chosen view of the loaded image and
      mask, both turned a quarter for display; the mask is handed on only
      when it is to be shown. `None` when the mask is too small for the slider
      position (`IndexError`). */
  function ShowSlice(image: Volume<real>, mask: Volume<int>, s: Spacing, axis: Axis, k: nat, showMask: bool)
    : (r: Option<SliceView<real, int>>)
    requires image.Valid() && mask.Valid() && k < Component(image.dims, FixedDim(axis))
    ensures r.None? <==> k >= Component(mask.dims, FixedDim(axis))
    ensures r.Some? ==> r.value.image == Rot90(Slice(image, axis, k))
    ensures r.Some? ==> r.value.spacing == SpacingPair(axis, s)
    ensures r.Some? ==> (r.value.mask.Some? <==> showMask)
    ensures r.Some? && showMask ==> r.value.mask == Some(Rot90(Slice(mask, axis, k)))
  {
    match SelectSlices(image, Some(mask), s, axis, k)
    case None => None
    case Some((imageSlice, maskSlice, spacing2d)) =>
      Some(SliceView(Rot90(imageSlice), if showMask then Some(Rot90(maskSlice.value)) else None, spacing2d))
  }

  /** With a mask of the image's shape the page always has a mask slice, and
      the shown mask lies exactly over the shown image. */
  lemma ShownMaskAligned(image: Volume<real>, mask: Volume<int>, s: Spacing, axis: Axis, k: nat)
    requires image.Valid() && mask.Valid() && mask.dims == image.dims
    requires k < Component(image.dims, FixedDim(axis))
    ensures var r := ShowSlice(image, mask, s, axis, k, true);
      r.Some? && r.value.mask.Some? &&
      r.value.mask.value.rows == r.value.image.rows && r.value.mask.value.cols == r.value.image.cols
  {
    MaskSliceAligned(image, mask, s, axis, k);
  }
}
