/** The two mesh pages: for each of the five time points find the visit
    folder, read the femur and tibia cartilage-thickness values for the
    reference meshes, collect them per bone, compute one colour range per
    bone over everything collected, and show the meshes (one time point on
    the 3-D viewer page, all five in a 3 x 2 grid on the comparison page).

    A missing folder or file (`FileNotFoundError`) is reported and skipped;
    a thickness file whose length differs from the mesh's vertex count makes
    the mesh library raise `ValueError`, which nothing catches: the page
    aborts. */
module Longitudinal {
  import opened Wrappers
  import opened Strings
  import opened Seqs
  import opened Paths
  import IdSelection
  import ImageViewer

  datatype Bone = Femur | Tibia

  /** The bone loop order of both pages. */
  const Bones: seq<Bone> := [Femur, Tibia]

  function BoneName(b: Bone): string {
    match b
    case Femur => "femur"
    case Tibia => "tibia"
  }

  const VisitSuffix: string := "_SAG_3D_DESS_LEFT"

  /** A snapshot of the files the pages read. */
  datatype Disk = Disk(
    listings: map<string, seq<string>>,  // folder -> entry names, in listing order
    meshes: map<string, nat>,            // mesh file -> number of vertices
    scalars: map<string, seq<real>>)     // text file -> one value per line

  /** Directory entries are single, non-empty path components. */
  predicate EntriesAreNames(disk: Disk) {
    forall dir, n :: dir in disk.listings && n in disk.listings[dir] ==> n != [] && '/' !in n
  }

  /** The entries of a folder; a folder that does not exist lists nothing. */
  function Listing(disk: Disk, dir: string): seq<string> {
    if dir in disk.listings then disk.listings[dir] else []
  }

  /** Result of `find_file_path`: a path, or `FileNotFoundError` naming the
      pattern. */
  datatype Found = Found(path: string) | NotFound(pattern: string)

  /** `glob.glob` over one folder followed by "first result or raise". */
  function GlobFirst(dir: string, listing: seq<string>, p: string -> bool, pattern: string): (r: Found)
    ensures r.NotFound? <==> FirstIndex(listing, p).None?
    ensures r.NotFound? ==> r.pattern == pattern
    ensures r.Found? ==> r.path == Join(dir, listing[FirstIndex(listing, p).value])
  {
    var matchingFiles := Filter(listing, p);
    FilterEmpty(listing, p);
    if matchingFiles != [] then
      FilterHead(listing, p, FirstIndex(listing, p).value);
      Found(Join(dir, matchingFiles[0]))
    else NotFound(pattern)
  }

  /** The pattern `*_SAG_3D_DESS_LEFT`: a leading `*` does not match a name
      that starts with a dot. */
  predicate AnyVisitMatches(name: string) {
    !StartsWith(name, ".") && EndsWith(name, VisitSuffix)
  }

  /** Entry `k` is the first one of `listing` that `*_SAG_3D_DESS_LEFT`
      matches. */
  predicate FirstAnyVisit(listing: seq<string>, k: nat) {
    k < |listing| && AnyVisitMatches(listing[k]) &&
    forall j :: 0 <= j < k ==> !AnyVisitMatches(listing[j])
  }

  /** `find_file_path` of the 3-D viewer page: the first entry of `base`
      matching `*_SAG_3D_DESS_LEFT`, whoever's it is. */
  function FindAnyVisitDir(disk: Disk, base: string): (r: Found)
    ensures r.NotFound? <==> forall n :: n in Listing(disk, base) ==> !AnyVisitMatches(n)
    ensures r.NotFound? ==> r.pattern == Join(base, "*" + VisitSuffix)
    ensures r.Found? ==> exists k: nat :: FirstAnyVisit(Listing(disk, base), k) && r.path == Join(base, Listing(disk, base)[k])
  {
    var listing := Listing(disk, base);
    var r := GlobFirst(base, listing, AnyVisitMatches, Join(base, "*" + VisitSuffix));
    if r.Found? then
      assert FirstAnyVisit(listing, FirstIndex(listing, AnyVisitMatches).value);
      r
    else
      assert forall n :: n in listing ==> !AnyVisitMatches(n);
      r
  }

  /** The pattern `<id>_*_SAG_3D_DESS_LEFT`. */
  predicate VisitMatches(id: int, name: string) {
    ImageViewer.GlobMatches(ImageViewer.SubjectPrefix(id), VisitSuffix, name)
  }

  /** Entry `k` is the first one of `listing` that `<id>_*_SAG_3D_DESS_LEFT`
      matches. */
  predicate FirstVisit(listing: seq<string>, k: nat, id: int) {
    k < |listing| && VisitMatches(id, listing[k]) &&
    forall j :: 0 <= j < k ==> !VisitMatches(id, listing[j])
  }

  /** `find_file_path` of the comparison page, given `<tpDir>/<id>_`: the
      first entry of `tpDir` matching `<id>_*_SAG_3D_DESS_LEFT`. The folder
      found always belongs to subject `id`. */
  function FindVisitDir(disk: Disk, tpDir: string, id: int): (r: Found)
    ensures r.NotFound? <==> forall n :: n in Listing(disk, tpDir) ==> !VisitMatches(id, n)
    ensures r.NotFound? ==> r.pattern == Join(tpDir, ImageViewer.SubjectPrefix(id)) + "*" + VisitSuffix
    ensures r.Found? ==> exists k: nat :: FirstVisit(Listing(disk, tpDir), k, id) && r.path == Join(tpDir, Listing(disk, tpDir)[k])
  {
    var listing := Listing(disk, tpDir);
    var p := n => VisitMatches(id, n);
    var r := GlobFirst(tpDir, listing, p, Join(tpDir, ImageViewer.SubjectPrefix(id)) + "*" + VisitSuffix);
    if r.Found? then
      assert FirstVisit(listing, FirstIndex(listing, p).value, id);
      r
    else
      assert forall n :: n in listing ==> !VisitMatches(id, n);
      r
  }

  /** The folder the comparison page picks is named `<id>_...`: read back by
      the ID discovery, its name gives the selected subject. */
  lemma VisitBelongsToSubject(disk: Disk, tpDir: string, id: int)
    requires EntriesAreNames(disk) && FindVisitDir(disk, tpDir, id).Found?
    ensures IdSelection.FolderId(Basename(FindVisitDir(disk, tpDir, id).path)) == Some(id)
  {
    var listing := Listing(disk, tpDir);
    var path := FindVisitDir(disk, tpDir, id).path;
    var k: nat :| FirstVisit(listing, k, id) && path == Join(tpDir, listing[k]);
    var name := listing[k];
    assert tpDir in disk.listings && name in disk.listings[tpDir];
    ImageViewer.PrefixCarriesId(id, name);
    BasenameOfJoin(tpDir, name);
  }

  /** The 3-D viewer page's pattern holds no subject ID: with only another
      subject's visit folder on disk, that folder is the one used. */
  lemma AnyVisitIgnoresSubject(selected: int, other: int, date: string, base: string)
    requires selected != other && '/' !in date
    ensures var name := Show(other) + "_" + date + VisitSuffix;
      var disk := Disk(map[base := [name]], map[], map[]);
      FindAnyVisitDir(disk, base) == Found(Join(base, name)) &&
      IdSelection.FolderId(name) == Some(other) && IdSelection.FolderId(name) != Some(selected)
  {
    var name := Show(other) + "_" + date + VisitSuffix;
    var disk := Disk(map[base := [name]], map[], map[]);
    assert name[0] == Show(other)[0];
    assert name[|name| - |VisitSuffix|..] == VisitSuffix;
    assert Listing(disk, base) == [name];
    assert AnyVisitMatches(name);
    assert name == Show(other) + "_" + (date + VisitSuffix);
    IdSelection.FolderIdOfConvention(other, date + VisitSuffix);
  }

  /** `<root>/DATA/processed_PP/<tp>`. */
  function TimePointDir(root: string, tp: string): string {
    Join(Join(root, "DATA/processed_PP"), tp)
  }

  /** `<root>/DATA/<bone>_ref_final.stl`: the same mesh for every subject and
      time point. */
  function ReferenceMesh(root: string, bone: Bone): (r: string)
    ensures Basename(r) == BoneName(bone) + "_ref_final.stl"
  {
    var name := BoneName(bone) + "_ref_final.stl";
    assert '/' !in BoneName(bone) && '/' !in "_ref_final.stl";
    assert name[0] in name;
    BasenameOfJoin(Join(root, "DATA"), name);
    Join(Join(root, "DATA"), name)
  }

  function ThicknessSuffix(bone: Bone): string {
    "_" + BoneName(bone) + "_cartThickness.txt"
  }

  lemma ThicknessNamePlain(base: string, bone: Bone)
    requires '/' !in base
    ensures base + ThicknessSuffix(bone) != [] && '/' !in base + ThicknessSuffix(bone)
  {
    assert '/' !in BoneName(bone) && '/' !in "_cartThickness.txt";
  }

  /** `<dir>/<basename(dir)>_<bone>_cartThickness.txt`. */
  function ThicknessFile(dir: string, bone: Bone): (r: string)
    ensures Basename(r) == Basename(dir) + ThicknessSuffix(bone)
  {
    var name := Basename(dir) + ThicknessSuffix(bone);
    ThicknessNamePlain(Basename(dir), bone);
    BasenameOfJoin(dir, name);
    Join(dir, name)
  }

  /** For a visit folder found in a time-point folder, the thickness file is
      named after the visit folder itself. */
  lemma ThicknessFileOfVisit(tpDir: string, name: string, bone: Bone)
    requires name != [] && '/' !in name
    ensures ThicknessFile(Join(tpDir, name), bone)
      == Join(Join(tpDir, name), name + ThicknessSuffix(bone))
  {
    BasenameOfJoin(tpDir, name);
  }

  /** Which page is running: they differ only in how the visit folder is
      found. */
  datatype Page = StlViewer | MapsComparison

  function LocateVisit(page: Page, disk: Disk, root: string, tp: string, id: int): Found {
    match page
    case StlViewer => FindAnyVisitDir(disk, TimePointDir(root, tp))
    case MapsComparison => FindVisitDir(disk, TimePointDir(root, tp), id)
  }

  /** Outcome of `load_and_process_mesh`. */
  datatype Loaded =
    | Values(values: seq<real>)
    | Missing
    | Rejected(count: nat, vertices: nat)

  /** `load_and_process_mesh`: read the mesh, read the thickness values and
      attach them to the mesh. A missing file is `FileNotFoundError`; a count
      that differs from the vertex count is rejected by the mesh library. */
  function LoadMesh(disk: Disk, meshPath: string, scalarPath: string): (r: Loaded)
    ensures r.Missing? <==> meshPath !in disk.meshes || scalarPath !in disk.scalars
    ensures r.Rejected? ==> (
      && r.count == |disk.scalars[scalarPath]| && r.vertices == disk.meshes[meshPath]
      && r.count != r.vertices)
    ensures r.Values? ==>
      r.values == disk.scalars[scalarPath] && |r.values| == disk.meshes[meshPath]
  {
    if meshPath !in disk.meshes || scalarPath !in disk.scalars then Missing
    else if |disk.scalars[scalarPath]| != disk.meshes[meshPath] then
      Rejected(|disk.scalars[scalarPath]|, disk.meshes[meshPath])
    else Values(disk.scalars[scalarPath])
  }

  /** The thickness values of `bone` for the visit folder `dir`. */
  function BonePanel(disk: Disk, root: string, dir: string, bone: Bone): Loaded {
    LoadMesh(disk, ReferenceMesh(root, bone), ThicknessFile(dir, bone))
  }

  /** What one time point holds, as the loops see it: no visit folder, or
      the visit folder with the outcome of loading each bone there. */
  datatype Outcome =
    | NoVisit
    | Visit(dir: string, femur: Loaded, tibia: Loaded)

  /** What loading `bone` gave at a time point; nothing without a visit
      folder. */
  function BoneAt(o: Outcome, bone: Bone): Loaded {
    match o
    case NoVisit => Missing
    case Visit(_, femur, tibia) => if bone == Femur then femur else tibia
  }

  /** The outcome of time point `tp`, read from the disk. */
  function OutcomeAt(page: Page, disk: Disk, root: string, id: int, tp: string): Outcome {
    match LocateVisit(page, disk, root, tp, id)
    case NotFound(_) => NoVisit
    case Found(dir) => Visit(dir, BonePanel(disk, root, dir, Femur), BonePanel(disk, root, dir, Tibia))
  }

  /** What `bone` gives at time point `tp`. */
  function PanelAt(page: Page, disk: Disk, root: string, id: int, tp: string, bone: Bone): Loaded {
    BoneAt(OutcomeAt(page, disk, root, id, tp), bone)
  }

  /** What `observe` gives for each time point of `tps`, in order. */
  function ObserveWith(observe: string -> Outcome, tps: seq<string>): (r: seq<Outcome>)
    ensures |r| == |tps|
  {
    if tps == [] then [] else [observe(tps[0])] + ObserveWith(observe, tps[1..])
  }

  /** Element `t` of the observation is what `observe` gives for `tps[t]`. */
  lemma {:induction false} ObserveWithAt(observe: string -> Outcome, tps: seq<string>, t: nat)
    requires t < |tps|
    ensures ObserveWith(observe, tps)[t] == observe(tps[t])
  {
    if t > 0 {
      ObserveWithAt(observe, tps[1..], t - 1);
    }
  }

  /** Observers that agree on every time point observe the same. */
  lemma {:induction false} ObserveWithAgree(f: string -> Outcome, g: string -> Outcome, tps: seq<string>)
    requires forall tp :: tp in tps ==> f(tp) == g(tp)
    ensures ObserveWith(f, tps) == ObserveWith(g, tps)
  {
    if tps != [] {
      assert forall tp :: tp in tps[1..] ==> tp in tps;
      ObserveWithAgree(f, g, tps[1..]);
    }
  }

  /** The outcome of each of the five time points, read from the disk. */
  function Observe(page: Page, disk: Disk, root: string, id: int): (r: seq<Outcome>)
    ensures |r| == |IdSelection.TimePoints|
  {
    ObserveWith(tp => OutcomeAt(page, disk, root, id, tp), IdSelection.TimePoints)
  }

  /** On the comparison page every visit folder used, and so every panel
      drawn or value collected, is one named after the selected subject. */
  lemma ComparisonVisitOwnSubject(disk: Disk, root: string, id: int, tp: string)
    requires EntriesAreNames(disk) && OutcomeAt(MapsComparison, disk, root, id, tp).Visit?
    ensures IdSelection.FolderId(Basename(OutcomeAt(MapsComparison, disk, root, id, tp).dir)) == Some(id)
  {
    VisitBelongsToSubject(disk, TimePointDir(root, tp), id);
  }

  /** The collected values, per bone: `{'femur': [...], 'tibia': [...]}`. */
  type ByBone = map<Bone, seq<seq<real>>>

  predicate Total(m: ByBone) {
    Femur in m && Tibia in m
  }

  /** Result of the bone loop of one time point. */
  datatype BonesDone =
    | Done(data: ByBone, missing: bool)
    | Crash(bone: Bone, count: nat, vertices: nat)

  /** The bone loop inside the `try` of one time point: each bone's values
      are appended in turn; a missing file ends the loop (the bones after it
      are not tried) and a rejected file aborts the page. */
  function LoadBones(o: Outcome, bones: seq<Bone>, data: ByBone): (r: BonesDone)
    requires o.Visit? && Total(data)
    ensures r.Done? ==> Total(r.data)
    ensures r.Crash? ==> r.bone in bones && BoneAt(o, r.bone) == Rejected(r.count, r.vertices)
    decreases |bones|
  {
    if bones == [] then Done(data, false)
    else
      assert bones[0] in data by {
        if bones[0].Tibia? {}
      }
      match BoneAt(o, bones[0])
      case Missing => Done(data, true)
      case Rejected(count, vertices) => Crash(bones[0], count, vertices)
      case Values(v) => LoadBones(o, bones[1..], data[bones[0] := data[bones[0]] + [v]])
  }

  /** State of the time-point loop: the values so far and the time points
      reported as missing, or the abort that ended the page. */
  datatype Progress =
    | Running(data: ByBone, warned: seq<string>)
    | Aborted(tp: string, bone: Bone, count: nat, vertices: nat)

  /** The bone loop over both bones: the femur gains one list exactly when
      its file loads, the tibia only after the femur, and a time point whose
      tibia is not collected is reported. */
  lemma BoneLoopCounts(o: Outcome, data: ByBone)
    requires o.Visit? && Total(data)
    ensures var r := LoadBones(o, Bones, data);
      r.Done? ==>
        && |r.data[Femur]| == |data[Femur]| + (if o.femur.Values? then 1 else 0)
        && |r.data[Tibia]| + (if r.missing then 1 else 0) == |data[Tibia]| + 1
        && (|r.data[Tibia]| > |data[Tibia]| ==> o.femur.Values?)
  {
    assert Bones[1..] == [Tibia] && Bones[1..][1..] == [];
  }

  /** One iteration of the time-point loop, at time point `tp`: either the
      tibia gains a list or the time point is reported, and the femur gains
      at most one list, at least as many as the tibia. */
  function Step(o: Outcome, tp: string, data: ByBone, warned: seq<string>): (r: Progress)
    requires Total(data)
    ensures r.Running? ==> Total(r.data)
    ensures r.Running? ==> |r.data[Tibia]| + |r.warned| == |data[Tibia]| + |warned| + 1
    ensures r.Running? ==>
      && |data[Femur]| <= |r.data[Femur]| <= |data[Femur]| + 1
      && |r.data[Tibia]| - |data[Tibia]| <= |r.data[Femur]| - |data[Femur]|
  {
    if o.NoVisit? then Running(data, warned + [tp])
    else
      BoneLoopCounts(o, data);
      match LoadBones(o, Bones, data)
      case Crash(bone, count, vertices) => Aborted(tp, bone, count, vertices)
      case Done(data', missing) => Running(data', if missing then warned + [tp] else warned)
  }

  /** The time-point loop after its first `n` iterations: while it runs,
      each of those time points has given the tibia a list or been reported,
      and the femur has at most one list per time point, never fewer than the
      tibia. */
  function Accumulate(outcomes: seq<Outcome>, n: nat): (r: Progress)
    requires |outcomes| == |IdSelection.TimePoints| && n <= |outcomes|
    ensures r.Running? ==> Total(r.data)
    ensures r.Running? ==> |r.data[Tibia]| + |r.warned| == n
    ensures r.Running? ==> |r.data[Tibia]| <= |r.data[Femur]| <= n
  {
    if n == 0 then Running(map[Femur := [], Tibia := []], [])
    else
      match Accumulate(outcomes, n - 1)
      case Aborted(tp, bone, count, vertices) => Aborted(tp, bone, count, vertices)
      case Running(data, warned) => Step(outcomes[n - 1], IdSelection.TimePoints[n - 1], data, warned)
  }

  /** One more iteration of a running loop is one `Step`. */
  lemma AccumulateNext(outcomes: seq<Outcome>, n: nat, data: ByBone, warned: seq<string>)
    requires |outcomes| == |IdSelection.TimePoints| && n < |outcomes|
    requires Accumulate(outcomes, n) == Running(data, warned)
    ensures Accumulate(outcomes, n + 1) == Step(outcomes[n], IdSelection.TimePoints[n], data, warned)
  {
  }

  /** Once the page has aborted, later time points change nothing. */
  lemma {:induction false} AbortIsFinal(outcomes: seq<Outcome>, n: nat, m: nat)
    requires |outcomes| == |IdSelection.TimePoints| && n <= m <= |outcomes|
    requires Accumulate(outcomes, n).Aborted?
    ensures Accumulate(outcomes, m) == Accumulate(outcomes, n)
    decreases m - n
  {
    if n < m {
      AbortIsFinal(outcomes, n + 1, m);
    }
  }

  /** Time point `t` aborts the page: its femur file is rejected, or its
      femur loads and its tibia file is rejected. */
  predicate RejectsAt(o: Outcome) {
    o.Visit? && (o.femur.Rejected? || (o.femur.Values? && o.tibia.Rejected?))
  }

  /** The abort a rejecting time point causes, naming the rejected bone. */
  function AbortOf(o: Outcome, tp: string): Progress
    requires RejectsAt(o)
  {
    if o.femur.Rejected? then Aborted(tp, Femur, o.femur.count, o.femur.vertices)
    else Aborted(tp, Tibia, o.tibia.count, o.tibia.vertices)
  }

  /** One iteration aborts exactly when its time point rejects a file. */
  lemma StepAborts(o: Outcome, tp: string, data: ByBone, warned: seq<string>)
    requires Total(data)
    ensures Step(o, tp, data, warned).Aborted? <==> RejectsAt(o)
    ensures RejectsAt(o) ==> Step(o, tp, data, warned) == AbortOf(o, tp)
  {
    if o.Visit? {
      assert Bones[1..] == [Tibia] && Bones[1..][1..] == [];
    }
  }

  /** `t` is the first of the first `n` time points that rejects a file. */
  predicate FirstRejection(outcomes: seq<Outcome>, n: nat, t: nat) {
    t < n && t < |outcomes| && RejectsAt(outcomes[t]) &&
    forall u :: 0 <= u < t ==> !RejectsAt(outcomes[u])
  }

  /** The loop aborts exactly when some time point rejects a file, and the
      abort is the one of the first such time point. */
  lemma {:induction false} AbortedExactly(outcomes: seq<Outcome>, n: nat)
    requires |outcomes| == |IdSelection.TimePoints| && n <= |outcomes|
    ensures Accumulate(outcomes, n).Aborted? <==> exists t :: 0 <= t < n && RejectsAt(outcomes[t])
    ensures Accumulate(outcomes, n).Aborted? ==> exists t: nat ::
      FirstRejection(outcomes, n, t) && Accumulate(outcomes, n) == AbortOf(outcomes[t], IdSelection.TimePoints[t])
  {
    if n > 0 {
      AbortedExactly(outcomes, n - 1);
      match Accumulate(outcomes, n - 1)
      case Aborted(_, _, _, _) =>
        var t: nat :| FirstRejection(outcomes, n - 1, t)
          && Accumulate(outcomes, n - 1) == AbortOf(outcomes[t], IdSelection.TimePoints[t]);
        assert FirstRejection(outcomes, n, t);
      case Running(data, warned) =>
        StepAborts(outcomes[n - 1], IdSelection.TimePoints[n - 1], data, warned);
        if RejectsAt(outcomes[n - 1]) {
          assert FirstRejection(outcomes, n, n - 1);
        } else {
          forall t | 0 <= t < n ensures !RejectsAt(outcomes[t]) {
            if t < n - 1 {
              assert !(0 <= t < n - 1 && RejectsAt(outcomes[t]));
            }
          }
        }
    }
  }

  /** The bone loop of one time point, as both pages run it inside their
      `try`: `thicknessData` is extended in place. */
  method LoadVisitBones(o: Outcome, thicknessData: ByBone) returns (r: BonesDone)
    requires o.Visit? && Total(thicknessData)
    ensures r == LoadBones(o, Bones, thicknessData)
  {
    var data := thicknessData;
    var b := 0;
    while b < |Bones|
      invariant 0 <= b <= |Bones| && Total(data)
      invariant LoadBones(o, Bones, thicknessData) == LoadBones(o, Bones[b..], data)
    {
      var bone := Bones[b];
      match BoneAt(o, bone) {
        case Missing =>
          return Done(data, true);
        case Rejected(count, vertices) =>
          return Crash(bone, count, vertices);
        case Values(v) =>
          assert Bones[b..][1..] == Bones[b + 1..];
          data := data[bone := data[bone] + [v]];
          b := b + 1;
      }
    }
    r := Done(data, false);
  }

  /** The body of the time-point loop, given what time point `tp` holds: a
      missing visit folder is reported, otherwise the bone loop runs inside
      the `try`. */
  method VisitTimePoint(o: Outcome, tp: string, thicknessData: ByBone, warned: seq<string>)
    returns (r: Progress)
    requires Total(thicknessData)
    ensures r == Step(o, tp, thicknessData, warned)
  {
    if o.NoVisit? {
      return Running(thicknessData, warned + [tp]);
    }
    var done := LoadVisitBones(o, thicknessData);
    match done {
      case Crash(bone, count, vertices) =>
        r := Aborted(tp, bone, count, vertices);
      case Done(data, missing) =>
        r := Running(data, if missing then warned + [tp] else warned);
    }
  }

  /** Iteration `t` of the time-point loop, on the state the first `t`
      iterations left. */
  method NextTimePoint(observe: string -> Outcome, t: nat, thicknessData: ByBone, warned: seq<string>)
    returns (r: Progress)
    requires t < |IdSelection.TimePoints|
    requires Accumulate(ObserveWith(observe, IdSelection.TimePoints), t) == Running(thicknessData, warned)
    ensures r == Accumulate(ObserveWith(observe, IdSelection.TimePoints), t + 1)
  {
    var tp := IdSelection.TimePoints[t];
    ObserveWithAt(observe, IdSelection.TimePoints, t);
    AccumulateNext(ObserveWith(observe, IdSelection.TimePoints), t, thicknessData, warned);
    r := VisitTimePoint(observe(tp), tp, thicknessData, warned);
  }

  /** The accumulation loop over the five time points, where `observe(tp)`
      is what the folder lookup and the mesh loads give at `tp`. */
  method AccumulateThickness(observe: string -> Outcome) returns (r: Progress)
    ensures r == Accumulate(ObserveWith(observe, IdSelection.TimePoints), |IdSelection.TimePoints|)
  {
    var thicknessData: ByBone := map[Femur := [], Tibia := []];
    var warned: seq<string> := [];
    var count := |IdSelection.TimePoints|;
    for t := 0 to count
      invariant Accumulate(ObserveWith(observe, IdSelection.TimePoints), t) == Running(thicknessData, warned)
    {
      var step := NextTimePoint(observe, t, thicknessData, warned);
      if step.Aborted? {
        r := step;
        AbortIsFinal(ObserveWith(observe, IdSelection.TimePoints), t + 1, count);
        return;
      }
      thicknessData, warned := step.data, step.warned;
    }
    r := Running(thicknessData, warned);
  }

  /** The `thickness_data` loop of both pages:
      the accumulation loop over the five time points, each reading its
      visit folder and meshes from the disk; a time point without a visit
      folder or with a missing file is reported, a rejected file aborts the
      page. */
  method CollectThickness(page: Page, disk: Disk, root: string, id: int) returns (r: Progress)
    ensures r == Accumulate(Observe(page, disk, root, id), |IdSelection.TimePoints|)
  {
    var observe := tp => OutcomeAt(page, disk, root, id, tp);
    r := AccumulateThickness(observe);
    ObserveWithAgree(observe, tp => OutcomeAt(page, disk, root, id, tp), IdSelection.TimePoints);
  }

  /** The values time point `t` contributes to `bone`: its visit folder is
      found, the femur loads (the bone loop starts with it), and `bone`
      loads. */
  predicate Contributes(outcomes: seq<Outcome>, t: nat, bone: Bone, x: seq<real>)
    requires t < |outcomes|
  {
    && outcomes[t].Visit?
    && outcomes[t].femur.Values?
    && BoneAt(outcomes[t], bone) == Values(x)
  }

  /** One pass of the bone loop appends to each bone exactly what the time
      point contributes to it. */
  lemma LoadBonesAppends(outcomes: seq<Outcome>, t: nat, data: ByBone, bone: Bone)
    requires t < |outcomes| && outcomes[t].Visit? && Total(data)
    requires LoadBones(outcomes[t], Bones, data).Done?
    ensures var after := LoadBones(outcomes[t], Bones, data).data;
      || (exists x :: Contributes(outcomes, t, bone, x) && after[bone] == data[bone] + [x])
      || ((forall x :: !Contributes(outcomes, t, bone, x)) && after[bone] == data[bone])
  {
    var o := outcomes[t];
    assert Bones[1..] == [Tibia] && Bones[1..][1..] == [];
    if o.femur.Values? {
      assert Contributes(outcomes, t, Femur, o.femur.values);
      if o.tibia.Values? {
        assert Contributes(outcomes, t, Tibia, o.tibia.values);
      }
    }
  }

  /** Soundness and completeness of the accumulation: after `n` time points,
      each bone's list holds exactly the values of the time points that
      contribute to that bone. */
  lemma {:induction false} CollectedExactly(outcomes: seq<Outcome>, n: nat, bone: Bone)
    requires |outcomes| == |IdSelection.TimePoints| && n <= |outcomes|
    requires Accumulate(outcomes, n).Running?
    ensures forall x :: x in Accumulate(outcomes, n).data[bone] <==>
      exists t :: 0 <= t < n && Contributes(outcomes, t, bone, x)
  {
    if n > 0 {
      var last := n - 1;
      StepExtends(outcomes, last, bone);
      CollectedExactly(outcomes, last, bone);
      var after := Accumulate(outcomes, n).data[bone];
      var before := Accumulate(outcomes, last).data[bone];
      forall x | x in after
        ensures exists t :: 0 <= t < n && Contributes(outcomes, t, bone, x)
      {
        if x in before {
          var t :| 0 <= t < last && Contributes(outcomes, t, bone, x);
          assert 0 <= t < n;
        } else {
          assert Contributes(outcomes, last, bone, x);
        }
      }
      forall x | exists t :: 0 <= t < n && Contributes(outcomes, t, bone, x)
        ensures x in after
      {
        var t :| 0 <= t < n && Contributes(outcomes, t, bone, x);
        if t < last {
          assert exists t' :: 0 <= t' < last && Contributes(outcomes, t', bone, x);
          assert x in before;
        }
      }
    }
  }

  /** Iteration `n` of a loop still running afterwards appends to `bone`
      exactly what time point `n` contributes to it. */
  lemma StepExtends(outcomes: seq<Outcome>, n: nat, bone: Bone)
    requires |outcomes| == |IdSelection.TimePoints| && n < |outcomes|
    requires Accumulate(outcomes, n + 1).Running?
    ensures Accumulate(outcomes, n).Running?
    ensures forall x :: x in Accumulate(outcomes, n + 1).data[bone] <==>
      x in Accumulate(outcomes, n).data[bone] || Contributes(outcomes, n, bone, x)
  {
    var prev := Accumulate(outcomes, n);
    if outcomes[n].NoVisit? {
      assert forall x :: !Contributes(outcomes, n, bone, x);
    } else {
      LoadBonesAppends(outcomes, n, prev.data, bone);
    }
  }

  /** A femur file that loads is kept even when the tibia file of the same
      time point is missing; the tibia gains nothing there and the time point
      is reported. */
  lemma FemurKeptWhenTibiaMissing(outcomes: seq<Outcome>, n: nat, f: seq<real>)
    requires |outcomes| == |IdSelection.TimePoints| && n < |outcomes|
    requires Accumulate(outcomes, n).Running?
    requires outcomes[n].Visit? && outcomes[n].femur == Values(f) && outcomes[n].tibia == Missing
    ensures var before := Accumulate(outcomes, n);
      var after := Accumulate(outcomes, n + 1);
      && after.Running?
      && after.data[Femur] == before.data[Femur] + [f]
      && after.data[Tibia] == before.data[Tibia]
      && after.warned == before.warned + [IdSelection.TimePoints[n]]
  {
    assert Bones[1..] == [Tibia] && Bones[1..][1..] == [];
  }

  /** A missing femur file ends the time point's bone loop: the tibia is not
      collected there even if its file is present. */
  lemma TibiaSkippedWhenFemurMissing(outcomes: seq<Outcome>, n: nat)
    requires |outcomes| == |IdSelection.TimePoints| && n < |outcomes|
    requires Accumulate(outcomes, n).Running?
    requires outcomes[n].Visit? && outcomes[n].femur == Missing
    ensures var before := Accumulate(outcomes, n);
      var after := Accumulate(outcomes, n + 1);
      && after.Running? && after.data == before.data
      && after.warned == before.warned + [IdSelection.TimePoints[n]]
  {
  }

  /** A time point whose visit folder is not found contributes nothing and is
      reported; the loop goes on with the next one. */
  lemma MissingVisitSkipped(outcomes: seq<Outcome>, n: nat)
    requires |outcomes| == |IdSelection.TimePoints| && n < |outcomes|
    requires Accumulate(outcomes, n).Running? && outcomes[n].NoVisit?
    ensures var before := Accumulate(outcomes, n);
      var after := Accumulate(outcomes, n + 1);
      && after.Running? && after.data == before.data
      && after.warned == before.warned + [IdSelection.TimePoints[n]]
  {
  }

  /** `np.concatenate`. */
  function Concat(lists: seq<seq<real>>): (r: seq<real>)
    ensures forall x :: x in lists ==> |x| <= |r|
  {
    if lists == [] then []
    else
      assert forall x :: x in lists ==> x == lists[0] || x in lists[1..];
      lists[0] + Concat(lists[1..])
  }

  /** A value is in the concatenation exactly when it is in one of the lists. */
  lemma {:induction false} ConcatHolds(lists: seq<seq<real>>, v: real)
    ensures v in Concat(lists) <==> exists x :: x in lists && v in x
  {
    if lists != [] {
      ConcatHolds(lists[1..], v);
      assert forall x :: x in lists[1..] ==> x in lists;
      if v !in lists[0] && v in Concat(lists) {
        var x :| x in lists[1..] && v in x;
      }
      if v !in Concat(lists) {
        assert forall x :: x in lists ==> x == lists[0] || x in lists[1..];
      }
    }
  }

  /** The concatenation is empty exactly when every list is. */
  lemma {:induction false} ConcatEmpty(lists: seq<seq<real>>)
    ensures Concat(lists) == [] <==> forall x :: x in lists ==> x == []
  {
    if lists != [] {
      ConcatEmpty(lists[1..]);
      assert |Concat(lists)| == |lists[0]| + |Concat(lists[1..])|;
      assert lists[0] in lists;
      assert forall x :: x in lists[1..] ==> x in lists;
      assert forall x :: x in lists ==> x == lists[0] || x in lists[1..];
    }
  }

  /** `(np.nanmin(s), np.nanmax(s))`; `None` when `s` is empty (`ValueError`). */
  function Extent(s: seq<real>): (r: Option<(real, real)>)
    ensures r.None? <==> s == []
    ensures r.Some? ==> r.value.0 in s && r.value.1 in s
    ensures r.Some? ==> forall v :: v in s ==> r.value.0 <= v <= r.value.1
  {
    if s == [] then None
    else
      assert forall v :: v in s ==> v == s[0] || v in s[1..];
      match Extent(s[1..])
      case None => Some((s[0], s[0]))
      case Some((lo, hi)) =>
        Some((if s[0] < lo then s[0] else lo, if s[0] > hi then s[0] else hi))
  }

  /** The colour range of one bone: the least and the greatest of everything
      collected for it; `None` when nothing was collected (`ValueError`). */
  function ColourRange(lists: seq<seq<real>>): (r: Option<(real, real)>)
    ensures r.None? <==> forall x :: x in lists ==> x == []
    ensures r.Some? ==> forall x, v :: x in lists && v in x ==> r.value.0 <= v <= r.value.1
    ensures r.Some? ==> (exists x :: x in lists && r.value.0 in x) && (exists x :: x in lists && r.value.1 in x)
  {
    ConcatEmpty(lists);
    var r := Extent(Concat(lists));
    if r.Some? then
      forall x, v | x in lists && v in x ensures r.value.0 <= v <= r.value.1 {
        ConcatHolds(lists, v);
      }
      ConcatHolds(lists, r.value.0);
      ConcatHolds(lists, r.value.1);
      r
    else r
  }

  /** The `vmin_vmax` loop of both pages: one colour range per bone; `None` when a bone
      collected no value at all (the page raises `ValueError`). */
  method ColourRanges(data: ByBone) returns (ranges: Option<map<Bone, (real, real)>>)
    requires Total(data)
    ensures ranges.None? <==> exists bone :: bone in Bones && ColourRange(data[bone]).None?
    ensures ranges.Some? ==> forall bone :: bone in Bones ==>
      bone in ranges.value && Some(ranges.value[bone]) == ColourRange(data[bone])
  {
    var vminVmax: map<Bone, (real, real)> := map[];
    for i := 0 to |Bones|
      invariant forall j :: 0 <= j < i ==>
        Bones[j] in vminVmax && Some(vminVmax[Bones[j]]) == ColourRange(data[Bones[j]])
    {
      var bone := Bones[i];
      var range := ColourRange(data[bone]);
      if range.None? {
        return None;
      }
      vminVmax := vminVmax[bone := range.value];
    }
    ranges := Some(vminVmax);
  }

  /** Every value a time point contributes to a bone lies inside that bone's
      colour range, whichever time point it comes from: the scale is shared
      by all five. */
  lemma ContributionWithinRange(outcomes: seq<Outcome>, n: nat, t: nat, bone: Bone, x: seq<real>, v: real)
    requires |outcomes| == |IdSelection.TimePoints| && t < n <= |outcomes|
    requires Accumulate(outcomes, n).Running?
    requires Contributes(outcomes, t, bone, x) && v in x
    ensures var range := ColourRange(Accumulate(outcomes, n).data[bone]);
      range.Some? && range.value.0 <= v <= range.value.1
  {
    var lists := Accumulate(outcomes, n).data[bone];
    CollectedExactly(outcomes, n, bone);
    assert x in lists;
    assert x != [];
  }

  /** A mesh drawn on the page: time-point label, per-vertex thickness and
      the bone's colour range. */
  datatype Panel = Panel(timePoint: string, values: seq<real>, clim: (real, real))

  /** What the page does for one bone at one time point. */
  datatype Shown =
    | Drawn(panel: Panel)
    | NoData
    | Crashed(count: nat, vertices: nat)

  /** The display loop of the 3-D viewer page, for one bone: the mesh of the
      selected time point, or `NoData` when its folder or files are missing
      (an error is shown and the next bone follows); a rejected file aborts
      the page. */
  function ViewerPanel(disk: Disk, root: string, id: int, selected: string, bone: Bone, clim: (real, real))
    : (r: Shown)
    ensures r.Crashed? <==> PanelAt(StlViewer, disk, root, id, selected, bone).Rejected?
    ensures r.NoData? <==> PanelAt(StlViewer, disk, root, id, selected, bone).Missing?
    ensures r.Drawn? ==> (
      && PanelAt(StlViewer, disk, root, id, selected, bone) == Values(r.panel.values)
      && r.panel.timePoint == selected && r.panel.clim == clim)
  {
    match PanelAt(StlViewer, disk, root, id, selected, bone)
    case Values(v) => Drawn(Panel(selected, v, clim))
    case Missing => NoData
    case Rejected(count, vertices) => Crashed(count, vertices)
  }

  /** The comparison grid: 3 rows and 2 columns; time point `i` is drawn in
      cell (i div 2, i mod 2). */
  function GridCell(i: nat): (r: (nat, nat))
    ensures i < |IdSelection.TimePoints| ==> r.0 < 3 && r.1 < 2
    ensures 2 * r.0 + r.1 == i
  {
    (i / 2, i % 2)
  }

  /** The five time points land inside the grid, on five different cells;
      the sixth cell stays free. */
  lemma GridCellsDistinct(i: nat, j: nat)
    requires i < |IdSelection.TimePoints| && j < |IdSelection.TimePoints|
    ensures GridCell(i).0 < 3 && GridCell(i).1 < 2
    ensures i != j ==> GridCell(i) != GridCell(j)
    ensures GridCell(i) != (2, 1)
  {
  }

  /** What the grid cell of time point `i` shows, when `load(tp)` is what
      loading the bone at time point `tp` gives. */
  function CellContent(load: string -> Loaded, clim: (real, real), i: nat): Option<Panel> {
    if i < |IdSelection.TimePoints| && load(IdSelection.TimePoints[i]).Values? then
      Some(Panel(IdSelection.TimePoints[i], load(IdSelection.TimePoints[i]).values, clim))
    else None
  }

  /** The grid loop of the comparison page, for one bone: each time point with
      data is drawn in its enumerate-based cell; a missing one leaves its cell
      empty and the later ones keep their cells; the first rejected file
      aborts the page. `load` stands for the start of each grid iteration,
      which finds the visit folder and loads the bone there (`PanelAt` on the
      comparison page). */
  method FillGrid(load: string -> Loaded, clim: (real, real))
    returns (grid: array2<Option<Panel>>, failure: Option<(string, nat, nat)>)
    ensures fresh(grid) && grid.Length0 == 3 && grid.Length1 == 2
    ensures failure.None? ==> forall row, col :: 0 <= row < 3 && 0 <= col < 2 ==>
      grid[row, col] == CellContent(load, clim, 2 * row + col)
    ensures failure.None? <==> forall i :: 0 <= i < |IdSelection.TimePoints| ==>
      !load(IdSelection.TimePoints[i]).Rejected?
    ensures failure.Some? ==> exists i ::
      && 0 <= i < |IdSelection.TimePoints|
      && failure.value.0 == IdSelection.TimePoints[i]
      && load(IdSelection.TimePoints[i]) == Rejected(failure.value.1, failure.value.2)
      && forall j :: 0 <= j < i ==> !load(IdSelection.TimePoints[j]).Rejected?
  {
    grid := new Option<Panel>[3, 2]((row, col) => None);
    var timePoints := IdSelection.TimePoints;
    for i := 0 to |timePoints|
      invariant forall j :: 0 <= j < i ==> !load(timePoints[j]).Rejected?
      invariant forall row, col :: 0 <= row < 3 && 0 <= col < 2 ==>
        grid[row, col] == (if 2 * row + col < i then CellContent(load, clim, 2 * row + col) else None)
    {
      var tp := timePoints[i];
      match load(tp) {
        case Missing =>
          continue;
        case Rejected(count, vertices) =>
          failure := Some((tp, count, vertices));
          return;
        case Values(v) =>
          var (row, col) := GridCell(i);
          grid[row, col] := Some(Panel(tp, v, clim));
      }
    }
    failure := None;
  }
}
