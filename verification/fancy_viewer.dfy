/** The stand-alone MRI viewer: uploaded files are written to a temporary
    folder, recognised as NIfTI or as a DICOM series, decoded once per
    session (store on miss under a fixed session key), then sliced and turned
    for display according to their format. */
module FancyViewer {
  import opened Wrappers
  import opened Strings
  import opened Paths
  import opened Slicing

  const NiftiKey: string := "nifti_image_data"
  const DicomKey: string := "dicom_image_data"
  const MaskKey: string := "mask_data"

  /** A decoded volume with its voxel spacing. */
  datatype Decoded = Decoded(volume: Volume<real>, spacing: Spacing)

  /** The per-session store of decoded volumes. `decoded` records, in order,
      every source the decoder was run on. */
  class Session<V> {
    var state: map<string, V>
    ghost var decoded: seq<string>

    constructor ()
      ensures state == map[] && decoded == []
    {
      state := map[];
      decoded := [];
    }

    /** `load_and_store_dicom_series` and `load_nifti_file`: on a miss the
        source is decoded and stored under `key`; on a hit the stored value is
        returned, the store is left as it is and the decoder is not run. */
    method LoadAndStore(source: string, key: string, decode: string -> V) returns (v: V)
      modifies this
      ensures key in state && v == state[key]
      ensures key in old(state) ==> v == old(state)[key] && state == old(state) && decoded == old(decoded)
      ensures key !in old(state) ==>
        v == decode(source) && state == old(state)[key := v] && decoded == old(decoded) + [source]
    {
      if key !in state {
        var value := decode(source);
        state := state[key := value];
        decoded := decoded + [source];
      }
      v := state[key];
    }
  }

  /** Since the key does not depend on the source, a second upload in the
      same session gets the first volume back, and only the first source is
      ever decoded. */
  method LaterSourceIgnored<V>(session: Session<V>, first: string, second: string, key: string,
                               decode: string -> V)
    returns (v1: V, v2: V)
    requires key !in session.state
    modifies session
    ensures v1 == decode(first) && v2 == v1
    ensures session.decoded == old(session.decoded) + [first]
  {
    v1 := session.LoadAndStore(first, key, decode);
    v2 := session.LoadAndStore(second, key, decode);
  }

  predicate IsNiftiName(name: string) {
    EndsWith(name, ".nii") || EndsWith(name, ".nii.gz")
  }

  /** The upload loop of the page: every upload is written into the temporary folder; the
      upload is NIfTI as soon as one name ends in `.nii` or `.nii.gz`, and the
      path left over is the one of the last file written. */
  method ScanUploads(tempDir: string, names: seq<string>) returns (isNifti: bool, filePath: string)
    requires names != []
    ensures isNifti <==> exists i :: 0 <= i < |names| && IsNiftiName(names[i])
    ensures filePath == Join(tempDir, names[|names| - 1])
  {
    isNifti := false;
    filePath := Join(tempDir, names[0]);
    for i := 0 to |names|
      invariant isNifti <==> exists j :: 0 <= j < i && IsNiftiName(names[j])
      invariant filePath == Join(tempDir, names[if i == 0 then 0 else i - 1])
    {
      filePath := Join(tempDir, names[i]);
      if IsNiftiName(names[i]) {
        isNifti := true;
      }
    }
  }

  /** The upload handling of the page: decode the upload, through the
      session store, as the last written NIfTI file or as the DICOM series of
      the whole folder. */
  method LoadUploads(session: Session<Decoded>, tempDir: string, names: seq<string>,
                     readNifti: string -> Decoded, readSeries: string -> Decoded)
    returns (isNifti: bool, image: Decoded)
    requires names != []
    modifies session
    ensures isNifti <==> exists i :: 0 <= i < |names| && IsNiftiName(names[i])
    ensures isNifti ==> NiftiKey in session.state && image == session.state[NiftiKey]
    ensures isNifti && NiftiKey in old(session.state) ==>
      image == old(session.state)[NiftiKey] && session.state == old(session.state) &&
      session.decoded == old(session.decoded)
    ensures isNifti && NiftiKey !in old(session.state) ==>
      && image == readNifti(Join(tempDir, names[|names| - 1]))
      && session.state == old(session.state)[NiftiKey := image]
      && session.decoded == old(session.decoded) + [Join(tempDir, names[|names| - 1])]
    ensures !isNifti ==> DicomKey in session.state && image == session.state[DicomKey]
    ensures !isNifti && DicomKey in old(session.state) ==>
      image == old(session.state)[DicomKey] && session.state == old(session.state) &&
      session.decoded == old(session.decoded)
    ensures !isNifti && DicomKey !in old(session.state) ==>
      && image == readSeries(tempDir)
      && session.state == old(session.state)[DicomKey := image]
      && session.decoded == old(session.decoded) + [tempDir]
  {
    var filePath;
    isNifti, filePath := ScanUploads(tempDir, names);
    if isNifti {
      image := session.LoadAndStore(filePath, NiftiKey, readNifti);
    } else {
      image := session.LoadAndStore(tempDir, DicomKey, readSeries);
    }
  }

  /** The optional mask of the page, always read as NIfTI, through the
      session store. */
  method LoadMask(session: Session<Decoded>, maskPath: Option<string>, readNifti: string -> Decoded)
    returns (mask: Option<Decoded>)
    modifies session
    ensures mask.None? <==> maskPath.None?
    ensures maskPath.None? ==> session.state == old(session.state) && session.decoded == old(session.decoded)
    ensures maskPath.Some? ==> MaskKey in session.state && mask == Some(session.state[MaskKey])
    ensures maskPath.Some? && MaskKey in old(session.state) ==>
      mask == Some(old(session.state)[MaskKey]) && session.state == old(session.state) &&
      session.decoded == old(session.decoded)
    ensures maskPath.Some? && MaskKey !in old(session.state) ==>
      && mask == Some(readNifti(maskPath.value))
      && session.state == old(session.state)[MaskKey := mask.value]
      && session.decoded == old(session.decoded) + [maskPath.value]
  {
    if maskPath.Some? {
      var m := session.LoadAndStore(maskPath.value, MaskKey, readNifti);
      mask := Some(m);
    } else {
      mask := None;
    }
  }

  /** The page runs again after every interaction, writing the uploads into
      a fresh temporary folder each time: a rerun with the same uploads gets
      the same image back, decodes nothing and leaves the store as the first
      run left it. */
  method RerunKeepsImage(session: Session<Decoded>, tempDir1: string, tempDir2: string, names: seq<string>,
                         readNifti: string -> Decoded, readSeries: string -> Decoded)
    returns (image1: Decoded, image2: Decoded)
    requires names != []
    modifies session
    ensures image2 == image1
    ensures |session.decoded| <= |old(session.decoded)| + 1
  {
    var nifti1, nifti2;
    nifti1, image1 := LoadUploads(session, tempDir1, names, readNifti, readSeries);
    ghost var afterFirst := session.decoded;
    nifti2, image2 := LoadUploads(session, tempDir2, names, readNifti, readSeries);
    assert session.decoded == afterFirst;
  }

  function FormatOf(isNifti: bool): SourceFormat {
    if isNifti then Nifti else DicomSeries
  }

  /** The view selection of the page and `plot_slice`: the chosen view of the image and of the
      mask if any, turned for display by the rule of the source format. `None`
      when the mask is too small for the slider position (`IndexError`). */
  function ShowSlice(isNifti: bool, image: Decoded, mask: Option<Decoded>, axis: Axis, k: nat)
    : (r: Option<SliceView<real, real>>)
    requires image.volume.Valid() && k < Component(image.volume.dims, FixedDim(axis))
    requires mask.Some? ==> mask.value.volume.Valid()
    ensures r.None? <==> mask.Some? && k >= Component(mask.value.volume.dims, FixedDim(axis))
    ensures r.Some? ==> r.value.image == Orient(FormatOf(isNifti), Slice(image.volume, axis, k))
    ensures r.Some? ==> r.value.spacing == SpacingPair(axis, image.spacing)
    ensures r.Some? ==> (r.value.mask.Some? <==> mask.Some?)
    ensures r.Some? && mask.Some? ==>
      r.value.mask == Some(Orient(FormatOf(isNifti), Slice(mask.value.volume, axis, k)))
  {
    var maskVolume := if mask.Some? then Some(mask.value.volume) else None;
    match SelectSlices(image.volume, maskVolume, image.spacing, axis, k)
    case None => None
    case Some((imageSlice, maskSlice, spacing2d)) =>
      Some(OrientView(FormatOf(isNifti), imageSlice, maskSlice, spacing2d))
  }

  /** A DICOM slice keeps its shape; a NIfTI slice is transposed in shape. */
  lemma ShownShape(isNifti: bool, image: Decoded, axis: Axis, k: nat)
    requires image.volume.Valid() && k < Component(image.volume.dims, FixedDim(axis))
    ensures var r := ShowSlice(isNifti, image, None, axis, k);
      var rows := Component(image.volume.dims, KeptDims(axis).0);
      var cols := Component(image.volume.dims, KeptDims(axis).1);
      r.Some? &&
      (isNifti ==> r.value.image.rows == cols && r.value.image.cols == rows) &&
      (!isNifti ==> r.value.image.rows == rows && r.value.image.cols == cols)
  {
  }
}
