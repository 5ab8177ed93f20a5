# OAI explorer — a Dafny model of its core logic

OAI explorer is a set of Streamlit pages for browsing knee MRI data from the
Osteoarthritis Initiative. This project models the sequential logic under
those pages and proves properties about it:

- **Subject-ID discovery and the KL table** (`id_selection.dfy`). Each of
  the five time-point folders is scanned. The prefix of each folder name
  before the first `_` is read as an integer, and unreadable names are
  skipped. The per-folder sets are unioned and sorted. The
  Kellgren-Lawrence table is then filtered to those IDs and projected to
  `ID` plus the `KL_*` columns, with duplicate rows dropped.
- **File matching by naming convention** (`image_viewer.dfy`,
  `longitudinal.dfy`). Prefix/suffix comprehensions and glob patterns pick
  the image, mask and visit folder. The first match wins. A missing match
  is reported, or raises `FileNotFoundError`. Artifact paths are built from
  `os.path.join` and `os.path.basename` (`common.dfy`, module `Paths`).
- **Slice extraction and display orientation** (`slicing.dfy`,
  `image_viewer.dfy`, `fancy_viewer.dfy`). The view axis fixes one array
  index and keeps a pair of voxel spacings. The slice is turned a quarter
  (`np.rot90`) or flipped on both axes (`[::-1, ::-1]`), and the mask slice
  gets the same transform.
- **Longitudinal cartilage-thickness aggregation** (`longitudinal.dfy`).
  Per-bone value lists are built up over the five time points. Missing
  folders and files are skipped with a warning. A thickness file whose
  length differs from the mesh's vertex count aborts the page. Each bone's
  colour range is the least and greatest collected value. The comparison
  page lays the time points out on a 3 x 2 grid, which the model holds in
  an `array2`.
- **The stand-alone mesh viewer** (`obj_viewer.dfy`). It reads one scalar
  per line of a file. The scalars are attached to the mesh only when their
  count equals the vertex count; otherwise an error names both counts.
- **The stand-alone MRI viewer's session store** (`fancy_viewer.dfy`). On a
  miss, a volume is decoded and stored under a fixed session key; on a hit,
  the stored volume is returned.

Every directory listing, file content, mesh vertex count and decoded array
is an input. The model holds a `Disk` snapshot, listings as sequences in
glob/listdir order, and decoders and number parsers as function parameters.
File values are `real` numbers.

## Model

| member | source | states |
|---|---|---|
| Strings.FirstField | page1_id_selection.py:21 | `folder.split('_')[0]`: a prefix of the name with no `_` in it, followed by `_` whenever it is shorter than the name |
| Strings.FirstFieldOf | page1_id_selection.py:21 | only the text before the first `_` is taken: the first field of `a_b` is `a` whatever `b` holds |
| Strings.ParseInt | page1_id_selection.py:22 | `int(id)` succeeds exactly on an optional sign followed by decimal digits; an unsigned literal gives a non-negative value |
| Strings.Show | page2_image_viewer.py:77 | `f"{selected_id}"` is non-empty and holds no `_` and no `/` |
| Strings.ParseShow | page1_id_selection.py:22 | reading back a printed integer gives that integer |
| Strings.ShowInjective | obj_viewer.py:35 | different integers print differently |
| Seqs.FirstIndex | page3_stl_viewer.py:19-21 | the position of the first element satisfying the pattern, and `None` exactly when no element does |
| Seqs.Filter | page2_image_viewer.py:77 | a list comprehension with `if`: it keeps exactly the elements that satisfy the test, each as often as it occurs in the input, and drops every other element. It is no longer than the input |
| Seqs.FilterIsSubsequence | page1_id_selection.py:35 | filtering keeps the original order |
| Seqs.FilterHead | page2_image_viewer.py:84-85 | `matching_files[0]` is the first listed name that matches |
| Seqs.FilterEmpty | page2_image_viewer.py:83 | the match list is empty exactly when no name matches |
| Seqs.Dedup | page1_id_selection.py:44 | `drop_duplicates()` keeps exactly the distinct rows, each once |
| Seqs.DedupIsSubsequence | page1_id_selection.py:44 | de-duplication keeps the original order: the result is a subsequence of the input |
| Seqs.IndexOf | page1_id_selection.py:44 | the position of the first occurrence of an element of the list |
| Seqs.DedupFirstOrder | page1_id_selection.py:44 | `drop_duplicates()` lists the distinct rows in the order of their first occurrences: of two kept rows, the earlier one occurs first earlier in the input |
| Seqs.DedupFromDistinct | page1_id_selection.py:44 | a table without repeated rows is left as it is |
| Paths.Join | page2_image_viewer.py:84-85 | `os.path.join(dir, name)` ends with `name` |
| Paths.Basename | page3_stl_viewer.py:55 | `os.path.basename`: a suffix of the path with no `/`, preceded by `/` unless it is the whole path |
| Paths.BasenameOfJoin | page3_stl_viewer.py:55 | the basename of `join(dir, name)` is `name` |
| IdSelection.FolderId | page1_id_selection.py:21-22 | a folder name yields an ID exactly when the text before its first `_` is an integer literal |
| IdSelection.FolderIdOfConvention | page1_id_selection.py:21-22 | a folder named `<id>_<anything>` yields `id` |
| IdSelection.FolderIdWithoutSeparator | page1_id_selection.py:21 | a name with no `_` is parsed whole |
| IdSelection.FolderIds | page1_id_selection.py:18-26 | the loop over one folder's entries yields exactly the IDs of the entries whose prefix parses; the other entries are skipped and the scan goes on |
| IdSelection.UnionAll | page1_id_selection.py:28 | `set.union(*ids_sets)` holds exactly the IDs found in some folder |
| IdSelection.SortedList | page1_id_selection.py:30 | `sorted(list(s))` is strictly ascending and holds exactly the elements of `s` |
| IdSelection.GetAllIds | page1_id_selection.py:6-30 | the returned list is strictly ascending, so it has no duplicates. It holds the ID of every parsable folder name in every listing (completeness), and only such IDs (soundness) |
| IdSelection.ColumnIndex | page1_id_selection.py:35 | the first position of the named column, or `None` exactly when the column is absent |
| IdSelection.FilterByIds | page1_id_selection.py:35 | `df[df['ID'].isin(ids)]` keeps exactly the rows whose `ID` is in `ids`, every copy of each, in their original order, and drops all other rows. It fails (`KeyError`) exactly when there is no `ID` column |
| IdSelection.LoadData | page1_id_selection.py:32-35 | a row is kept, with all its copies, exactly when its `ID` is carried by some visit-folder name on disk; every other row is dropped. Order is preserved |
| IdSelection.ShownColumns | page1_id_selection.py:44 | `ID` first, then exactly the columns starting with `KL_`, in table order |
| IdSelection.Project | page1_id_selection.py:44 | `df[names]` succeeds exactly when every name is a column. Each projected cell is the cell of the original row under that name |
| IdSelection.KlView | page1_id_selection.py:44 | the shown table has columns `ID` + `KL_*` and no duplicate rows. It holds exactly the projected rows, in the order of their first occurrences among the projected rows |
| ImageViewer.ImageDir | page2_image_viewer.py:76-77 | the image folder of a time-point label without `/` ends in the component `DESS_<tp>` |
| ImageViewer.MaskDir | page2_image_viewer.py:80-81 | the mask folder of a time-point label without `/` ends in the component `pred_<lower(tp)>_PP` |
| ImageViewer.Lower | page2_image_viewer.py:80 | the model's lower-casing keeps the length, leaves no ASCII capital, and changes only ASCII capitals, each to its lower-case letter; on the five time-point labels it agrees with `str.lower()` |
| ImageViewer.LowerKeepsLowerCase | page2_image_viewer.py:80 | a text without upper-case letters is its own lower-case form |
| ImageViewer.PrefixCarriesId | page2_image_viewer.py:77 | a name starting with `<id>_` carries that ID as the ID discovery reads it |
| ImageViewer.ImageMatches | page2_image_viewer.py:77 | the image test accepts only names whose ID, as the ID discovery reads it, is the selected one |
| ImageViewer.MaskMatches | page2_image_viewer.py:81 | the mask test accepts only names whose ID, as the ID discovery reads it, is the selected one |
| ImageViewer.ImageNeverMask | page2_image_viewer.py:77-81 | no file name passes both the image test and the mask test |
| ImageViewer.MatchesOneSubject | page2_image_viewer.py:77 | no name matches two subjects: ID 12 never takes `123_...` |
| ImageViewer.ComprehensionWiderThanPattern | page2_image_viewer.py:76-77 | the comprehension accepts everything the glob pattern built into `image_path` accepts. It also accepts `12_SAG_3D_DESS_LEFT_0000.nii.gz`, where prefix and suffix share their `_`, which the pattern rejects |
| ImageViewer.TimePointsLowerCase | page2_image_viewer.py:80 | `selected_time_point.lower()` leaves each of the five labels unchanged |
| ImageViewer.FindImageAndMask | page2_image_viewer.py:65-85 | without a selected ID nothing is looked up. Loading happens exactly when both an image and a mask of that ID exist. Otherwise the `st.error` of the page's `else` branch names the ID and the time point |
| ImageViewer.FirstMatchesLoaded | page2_image_viewer.py:83-85 | the files loaded are the first matches of each listing, joined to their folders, and both carry the selected ID |
| ImageViewer.ShowSlice | page2_image_viewer.py:104-120 | the view's slice of image and mask, both turned by `rot90`, with the view's spacing pair. The mask is handed on exactly when it is to be shown. `IndexError` occurs exactly when the mask is too small for the slider |
| ImageViewer.ShownMaskAligned | page2_image_viewer.py:104-118 | with a mask of the image's shape, the shown mask lies exactly over the shown image |
| Slicing.FixedDim | page2_image_viewer.py:104-118 | the slider index of a view stands on one of the three array dimensions (Axial 2, Coronal 1, Sagittal 0) |
| Slicing.FixedDimsDistinct | page2_image_viewer.py:104-118 | the three views fix three different dimensions, one each |
| Slicing.KeptDims | fancy_viewer.py:120-134 | each view keeps the two dimensions other than the fixed one, in array order |
| Slicing.Slice | fancy_viewer.py:120-134 | the slice has the kept dimensions' shape. Cell (i, j) is the voxel with the slider index on the fixed dimension and (i, j) on the kept ones |
| Slicing.SliceHoldsPlane | page2_image_viewer.py:106-117 | every voxel of the chosen plane appears in the slice at the cell obtained by dropping the fixed index |
| Slicing.SpacingPair | fancy_viewer.py:124-134 | the spacing-tuple positions the page reads: (0, 1) for Axial, (0, 2) for Coronal, (1, 2) for Sagittal, which are the positions of the kept array dimensions |
| Slicing.DefaultSlice | page2_image_viewer.py:105-115 | the preselected index `shape[k] // 2` lies in 0 .. shape[k]-1 whenever the dimension is non-empty |
| Slicing.Rot90 | page2_image_viewer.py:43 | `np.rot90` turns an r x c slice into a c x r one |
| Slicing.FlipBoth | fancy_viewer.py:42 | `[::-1, ::-1]` keeps the shape |
| Slicing.Rot90TwiceIsFlipBoth | fancy_viewer.py:37-44 | the two display conventions differ by exactly a quarter turn: two `rot90`s are the double flip |
| Slicing.FlipBothInvolution | fancy_viewer.py:42 | flipping both axes twice gives the slice back |
| Slicing.Rot90FourTimes | page2_image_viewer.py:43 | four quarter turns give the slice back |
| Slicing.Orient | fancy_viewer.py:37-44 | NIfTI slices are turned (shape transposed) and DICOM slices are flipped (shape kept) |
| Slicing.OrientCell | fancy_viewer.py:37-44 | cell (i, j) of the turned slice is source cell (j, c-1-i); of the flipped slice, (r-1-i, c-1-j) |
| Slicing.SelectSlices | fancy_viewer.py:120-134 | the image slice and spacing pair of the view, plus the mask slice exactly when a mask is given. `IndexError` occurs exactly when the mask is too small |
| Slicing.MaskSliceAligned | page2_image_viewer.py:106-117 | a mask of the image's shape always slices to the image slice's shape |
| Slicing.OrientView | fancy_viewer.py:37-44 | the mask receives the same transform as the image and is present exactly when given |
| Slicing.OrientKeepsAlignment | fancy_viewer.py:37-44 | slices of equal shape stay of equal shape once turned |
| FancyViewer.Session.LoadAndStore | fancy_viewer.py:62-68 | on a hit, the stored value is returned, the store is unchanged and nothing is decoded. On a miss, the source is decoded and stored under the key. Afterwards the key is always present |
| FancyViewer.LaterSourceIgnored | fancy_viewer.py:95-98 | since the key is fixed, a second upload gets the first volume back and only the first source is decoded |
| FancyViewer.ScanUploads | fancy_viewer.py:86-93 | `is_nifti` holds exactly when some upload ends in `.nii` or `.nii.gz`. The path left is the last file written, whatever its extension |
| FancyViewer.LoadUploads | fancy_viewer.py:84-98 | NIfTI uploads are read from the last file written, and others as the DICOM series of the folder, each through the session store under its own key. On a hit the stored volume is returned and neither the store nor the decode log changes. On a miss the volume is decoded from that path, stored under the key, and the path is logged |
| FancyViewer.RerunKeepsImage | fancy_viewer.py:84-98 | a rerun of the page with the same uploads, written into a fresh temporary folder, shows the same volume, and the two runs decode at most once in all |
| FancyViewer.LoadMask | fancy_viewer.py:100-106 | a mask is loaded, through the store, exactly when one is uploaded; otherwise the store and the decode log are untouched. On a hit the stored mask is returned and nothing changes. On a miss the mask file is decoded, stored under the mask key and logged |
| FancyViewer.ShowSlice | fancy_viewer.py:120-136 | the view's slice of the image and of the mask if any, both turned by the rule of the source format, with the spacing-tuple positions `SpacingPair` reads for the view |
| FancyViewer.ShownShape | fancy_viewer.py:37-44 | a NIfTI slice is shown transposed in shape; a DICOM slice keeps its shape |
| Longitudinal.GlobFirst | page3_stl_viewer.py:17-23 | `find_file_path`: the first matching entry joined to the folder, or `FileNotFoundError` naming the pattern exactly when nothing matches |
| Longitudinal.FindAnyVisitDir | page3_stl_viewer.py:17-23 | the first entry matching `*_SAG_3D_DESS_LEFT`, or `FileNotFoundError` exactly when none matches |
| Longitudinal.FindVisitDir | page4_maps_comparaison.py:17-23 | with the base `<tpDir>/<id>_` the page's time-point loop passes: the first entry matching `<id>_*_SAG_3D_DESS_LEFT`, or `FileNotFoundError` exactly when none matches |
| Longitudinal.VisitBelongsToSubject | page4_maps_comparaison.py:47-49 | the folder the comparison page picks carries the selected ID |
| Longitudinal.AnyVisitIgnoresSubject | page3_stl_viewer.py:18 | the 3-D viewer's pattern holds no ID: another subject's folder is used when it is the only one on disk |
| Longitudinal.ComparisonVisitOwnSubject | page4_maps_comparaison.py:47-53 | every visit folder the comparison page reads thickness from carries the selected ID |
| Longitudinal.ReferenceMesh | page3_stl_viewer.py:54 | the reference mesh of a bone is the file `<bone>_ref_final.stl` |
| Longitudinal.ThicknessFile | page3_stl_viewer.py:55 | the thickness file of a visit folder is named `<basename(dir)>_<bone>_cartThickness.txt` |
| Longitudinal.ThicknessFileOfVisit | page3_stl_viewer.py:55 | the thickness file of a visit folder `tpDir/name` is `tpDir/name/name_<bone>_cartThickness.txt` |
| Longitudinal.LoadMesh | page3_stl_viewer.py:11-15 | `FileNotFoundError` occurs exactly when the mesh or the thickness file is missing. A length that differs from the vertex count is rejected. Otherwise the file's values, one per vertex, are returned |
| Longitudinal.LoadBones | page3_stl_viewer.py:51-57 | the bone loop keeps every bone's list defined. It aborts only at a bone of the loop whose file is rejected, reporting that file's two counts |
| Longitudinal.BoneLoopCounts | page3_stl_viewer.py:51-57 | over femur and tibia: the femur gains one list exactly when its file loads. The tibia gains one exactly when the time point is not reported, and only after the femur loaded |
| Longitudinal.Step | page3_stl_viewer.py:48-59 | one time point either gives the tibia a list or is reported. The femur gains at most one list, and at least as many as the tibia |
| Longitudinal.Accumulate | page3_stl_viewer.py:43-59 | while the loop runs after `n` time points, the tibia lists plus the reported time points number `n`. The tibia has no more lists than the femur, and the femur no more than `n` |
| Longitudinal.StepAborts | page3_stl_viewer.py:51-57 | one time point aborts exactly when its femur file is rejected, or its femur loads and its tibia file is rejected; the abort names that bone |
| Longitudinal.AbortedExactly | page3_stl_viewer.py:43-59 | the loop aborts exactly when some time point rejects a file, and the abort is that of the first such time point |
| Longitudinal.LoadVisitBones | page3_stl_viewer.py:51-57 | the bone loop extends `thickness_data` one bone at a time and stops at the first missing or rejected file, as `LoadBones` specifies |
| Longitudinal.VisitTimePoint | page3_stl_viewer.py:48-58 | one iteration of the time-point loop is one `Step`: a missing folder is reported; otherwise the bone loop runs |
| Longitudinal.NextTimePoint | page4_maps_comparaison.py:46-57 | iteration `t` takes the loop from the state after `t` time points to the state after `t + 1` |
| Longitudinal.AccumulateThickness | page4_maps_comparaison.py:44-57 | the loop over the five time points computes `Accumulate` of what they hold, stopping at an abort |
| Longitudinal.CollectThickness | page3_stl_viewer.py:43-59 | the page's accumulation over the disk's five time points equals `Accumulate` of their outcomes, which the lemmas below characterise |
| Longitudinal.AbortIsFinal | page3_stl_viewer.py:53-58 | a rejected file ends the loop: later time points change nothing |
| Longitudinal.CollectedExactly | page4_maps_comparaison.py:44-57 | after any number of time points, each bone's list holds exactly the values of the time points that contribute to that bone (soundness and completeness) |
| Longitudinal.FemurKeptWhenTibiaMissing | page3_stl_viewer.py:51-59 | the femur values of a time point are kept when its tibia file is missing. The tibia gains nothing and the time point is reported |
| Longitudinal.TibiaSkippedWhenFemurMissing | page4_maps_comparaison.py:50-57 | a missing femur file ends the bone loop: the tibia is not collected there, and the time point is reported |
| Longitudinal.MissingVisitSkipped | page3_stl_viewer.py:48-59 | a time point without a visit folder contributes nothing and is reported; the loop continues |
| Longitudinal.Concat | page3_stl_viewer.py:64 | `np.concatenate(lists)` is at least as long as each list |
| Longitudinal.ConcatHolds | page3_stl_viewer.py:64 | a value is in `np.concatenate(lists)` exactly when it is in one of the lists |
| Longitudinal.ConcatEmpty | page3_stl_viewer.py:64 | the concatenation is empty exactly when every list is |
| Longitudinal.Extent | page3_stl_viewer.py:65 | `(nanmin, nanmax)` are members of the values and bound all of them. They are absent exactly when there are no values |
| Longitudinal.ColourRange | page3_stl_viewer.py:64-65 | the range bounds every value of every collected list, and both ends are collected values. It is absent exactly when nothing was collected |
| Longitudinal.ColourRanges | page4_maps_comparaison.py:59-62 | the loop gives each bone its `ColourRange`, or fails exactly when some bone collected nothing |
| Longitudinal.ContributionWithinRange | page4_maps_comparaison.py:59-62 | every value any time point contributes to a bone lies within that bone's shared colour range |
| Longitudinal.ViewerPanel | page3_stl_viewer.py:68-95 | per bone: the selected time point's mesh is drawn with the bone's range when it loads. It shows an error (and the loop continues) when missing, and aborts when rejected |
| Longitudinal.GridCell | page4_maps_comparaison.py:84-85 | `(i // 2, i % 2)`: the cell lies in the 3 x 2 grid for each of the five time points, and row-major numbering gives back `i` |
| Longitudinal.GridCellsDistinct | page4_maps_comparaison.py:84-85 | time point i goes to cell (i // 2, i % 2): inside the 3 x 2 grid, distinct for distinct time points, and the sixth cell stays free |
| Longitudinal.FillGrid | page4_maps_comparaison.py:72-95 | each time point with data is drawn in its enumerate-based cell. A missing one leaves its cell empty and later ones keep their cells. The page aborts exactly when some file is rejected, at the first one |
| ObjViewer.Lines | obj_viewer.py:16 | file iteration yields no more lines than there are characters |
| ObjViewer.LinesShape | obj_viewer.py:16 | each line is non-empty and holds `\n` only at its end; every line but the last ends in `\n` |
| ObjViewer.LinesCoverText | obj_viewer.py:16 | gluing the lines back gives the file text |
| ObjViewer.LineCount | obj_viewer.py:16 | one line per `\n`, plus one for a last line without it |
| ObjViewer.Strip | obj_viewer.py:16 | `line.strip()` starts and ends with a non-white-space character, or is empty |
| ObjViewer.StripTrims | obj_viewer.py:16 | `strip()` removes white space on both sides and nothing else |
| ObjViewer.ParseLinesMeaning | obj_viewer.py:16 | the comprehension succeeds exactly when every stripped line parses. It then holds each line's number at that line's position |
| ObjViewer.LoadScalars | obj_viewer.py:14-17 | exactly one scalar per file line, in file order. It fails (`ValueError`) exactly when some line does not parse |
| ObjViewer.MismatchMessage | obj_viewer.py:35 | the error text opens with `Number of scalars (<count>)` and closes with `(<vertices>)` |
| ObjViewer.MismatchMessageNamesCounts | obj_viewer.py:35 | the error text determines both counts: different counts give different messages |
| ObjViewer.CheckCardinality | obj_viewer.py:34-35 | an error naming both counts occurs exactly when they differ |
| ObjViewer.Mesh.AttachScalars | obj_viewer.py:34-39 | on mismatch the mesh is unchanged. Otherwise the `scalars` field is set, has one value per vertex, and nothing else changes |
| ObjViewer.LoadAndAttach | obj_viewer.py:28-39 | an unreadable file or a count mismatch leaves the mesh unchanged. Otherwise exactly the loaded scalars are attached |

## Left out

- `normalize_mri` and `apply_window` (percentile, clip and division) are left out: they are floating-point numerics.
- The colour maps and the aspect ratio are left out: they are float RGBA tables and a float division.
- NaN is not modelled. Values are `real`, so `nanmin`/`nanmax` are the plain least and greatest values.
- IdSelection.GetAllIds: a time-point folder that does not exist makes `os.listdir` raise `FileNotFoundError` (page1_id_selection.py:19), which the page does not catch. The model takes each listing as given and does not model that crash.
- ImageViewer.FindImageAndMask: likewise, a missing image or mask folder makes `os.listdir` raise an uncaught `FileNotFoundError` (page2_image_viewer.py:77 and 81). The model takes both listings as given.
- All I/O is an input rather than a call:
  - directory listings (`os.listdir`, `glob.glob`), in the order those calls return them;
  - mesh vertex counts (`pv.read`);
  - thickness files (`pd.read_csv`);
  - text files;
  - NIfTI/DICOM decoding, passed as function parameters;
  - the temporary upload folder and mask file, given as paths.
- An empty thickness file is read as an empty list of values; pandas' `EmptyDataError` for such a file is not modelled.
- Longitudinal.CollectThickness: each time point's `Outcome` holds the result of loading both bones. The pages load the tibia only after the femur succeeded. Loading has no side effects, so the collected values, the reports and the abort are the same.
- Longitudinal.CollectThickness: the warnings record only the time-point label, not the message text.
- Longitudinal.FillGrid: `load` stands for the folder lookup and mesh load at the start of each grid iteration (`PanelAt` on the comparison page). The plotter's drawing calls are recorded only as the panel data placed in each cell.
- Strings.ParseInt: Python's `int()` also accepts surrounding white space, `_` between digits and non-ASCII digits; only an optional sign and ASCII digits are modelled.
- ImageViewer.Lower: only the ASCII letters A-Z are lowered. Python's Unicode case mapping, which also lowers other capitals and can change the length, is not modelled; the page lowers only the five ASCII time-point labels.
- Slicing.SpacingPair: for a DICOM series the positions read are not the spacings of the kept array dimensions. `GetArrayFromImage` indexes the array (z, y, x) while `GetSpacing()` is ordered (x, y, z) (fancy_viewer.py:17-18), so the Axial view, which keeps array dimensions (z, y), is given (sx, sy). The model reads the same positions as the page and does not relate them to physical axes.
- ObjViewer.Strip: only space, `\t`, `\n`, `\v`, `\f` and `\r` are stripped. Python's `str.strip()` also strips the ASCII separators `\x1c`-`\x1f` and Unicode white space.
- ObjViewer.Lines: lines split at `\n` only. Text mode would first turn `\r\n` and `\r` into `\n`.
- ObjViewer.LoadScalars: `float()` is the parameter `parse`; its syntax is not modelled.
- Streamlit widgets, PyVista plotters, stpyvista, matplotlib rendering, base64 PNG encoding and the embedded HTML are not modelled. Selections and slider values are inputs.
- `app.py` is not part of this model: it only navigates between pages, based on `os.path.exists` and widget events.
- The `print` calls of the 3-D viewer page are left out.
