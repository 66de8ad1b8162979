/**
  How entries of the BIDS tree map onto XNAT containers and resource folders:
  which resource a file is uploaded to, which resources and uploads each
  project-level and subject-level entry gives rise to, and when a tree is
  already fully represented on the server ("covered"), which is what makes a
  second run create nothing.
*/
module Mapping {
  import opened Wrappers
  import opened Strings
  import opened Remote
  import opened Bids

  /** The position of the last scan whose type contains t: the scan an upload is routed to. */
  function LastContaining(scans: seq<Scan>, t: string): (r: Option<nat>)
    ensures r.Some? ==> r.value < |scans| && Contains(scans[r.value].scanType, t)
    ensures r.Some? ==> forall j | r.value < j < |scans| :: !Contains(scans[j].scanType, t)
    ensures r.None? ==> forall j | 0 <= j < |scans| :: !Contains(scans[j].scanType, t)
    decreases |scans|
  {
    if |scans| == 0 then None
    else if Contains(scans[|scans| - 1].scanType, t) then Some(|scans| - 1)
    else LastContaining(scans[..|scans| - 1], t)
  }

  /** The resource folder a file gets inside its scan: NIFTI for images, MEG for recordings, BIDS for the rest. */
  function ScanResourceName(name: string): (r: string)
    ensures r == "NIFTI" <==> IsMriFile(name)
    ensures r == "MEG" <==> !IsMriFile(name) && IsMegFile(name)
    ensures r == "BIDS" <==> !IsMriFile(name) && !IsMegFile(name)
  {
    if IsMriFile(name) then "NIFTI"
    else if IsMegFile(name) then "MEG"
    else "BIDS"
  }

  /** A resource folder of a container. */
  datatype Target = Target(container: Container, resource: string)

  /**
    Where a file of a datatype folder is uploaded, given the experiment's scans:
    the file's resource inside the last scan whose type contains the file's
    type, or the experiment's BIDS resource when no scan does. The type is only
    read when there are scans to compare it with; None when it is needed and
    cannot be read.
  */
  function UploadTarget(subject: string, experiment: string, scans: seq<Scan>, name: string): (r: Option<Target>)
    ensures r.None? <==> |scans| > 0 && ScanType(name).None?
    ensures r.Some? ==> r.value.container.ExperimentLevel? || r.value.container.ScanLevel?
  {
    if |scans| == 0 then Some(Target(ExperimentLevel(subject, experiment), "BIDS"))
    else match ScanType(name)
      case None => None
      case Some(t) =>
        match LastContaining(scans, t)
        case None => Some(Target(ExperimentLevel(subject, experiment), "BIDS"))
        case Some(i) => Some(Target(ScanLevel(subject, experiment, i), ScanResourceName(name)))
  }

  /**
    A file goes to its experiment's BIDS resource exactly when no scan's type
    contains the file's type; otherwise to its own resource in the last such scan.
  */
  lemma UploadTargetSpec(subject: string, experiment: string, scans: seq<Scan>, name: string)
    requires ScanType(name).Some?
    ensures var t := ScanType(name).value;
      var r := UploadTarget(subject, experiment, scans, name);
      r.Some? &&
      (r.value == Target(ExperimentLevel(subject, experiment), "BIDS") <==>
        forall j | 0 <= j < |scans| :: !Contains(scans[j].scanType, t))
    ensures var t := ScanType(name).value;
      var r := UploadTarget(subject, experiment, scans, name);
      r.Some? && r.value.container.ScanLevel? ==>
        && r.value.container == ScanLevel(subject, experiment, r.value.container.index)
        && r.value.container.index < |scans|
        && Contains(scans[r.value.container.index].scanType, t)
        && (forall j | r.value.container.index < j < |scans| :: !Contains(scans[j].scanType, t))
        && r.value.resource == ScanResourceName(name)
  {
  }

  /**
    Once a scan of exactly the file's type exists, the file reaches a scan and
    never the experiment's BIDS resource; a sidecar (neither image nor
    recording) lands in that scan's BIDS resource.
  */
  lemma CreatedTypeIsRoutedToAScan(subject: string, experiment: string, scans: seq<Scan>, name: string)
    requires ScanType(name).Some? && HasScanOfType(scans, ScanType(name).value)
    ensures UploadTarget(subject, experiment, scans, name).Some?
    ensures UploadTarget(subject, experiment, scans, name).value.container.ScanLevel?
    ensures !IsMriFile(name) && !IsMegFile(name) ==>
      UploadTarget(subject, experiment, scans, name).value.resource == "BIDS"
  {
    var t := ScanType(name).value;
    var j :| 0 <= j < |scans| && scans[j].scanType == t;
    ContainsSelf(t);
  }

  /**
    The upload search uses "contains" where creation used "equals": when a later
    scan's type contains the file's type, the file is not uploaded to the scan
    created for that type (a T1 image goes to a later T1w scan).
  */
  lemma ContainingLaterScanWins(subject: string, experiment: string, scans: seq<Scan>, name: string, j: nat, k: nat)
    requires ScanType(name).Some?
    requires j < k < |scans| && scans[j].scanType == ScanType(name).value
    requires Contains(scans[k].scanType, ScanType(name).value)
    ensures UploadTarget(subject, experiment, scans, name).Some?
    ensures UploadTarget(subject, experiment, scans, name).value.container.ScanLevel?
    ensures UploadTarget(subject, experiment, scans, name).value.container.index >= k > j
  {
  }

  /** Resource folders ensured for a top-level entry: BIDS always, and the folder's own name for a non-subject directory. */
  function ProjectResourceNames(e: Entry): seq<string> {
    if e.Dir? && !IsSubjectName(e.name) then ["BIDS", e.name] else ["BIDS"]
  }

  /** What a top-level entry uploads: a file into BIDS under its own name, a non-subject directory into its own resource. */
  function ProjectUploads(root: string, e: Entry): seq<Upload> {
    match e
    case File(n) => [UploadFile(ProjectLevel, "BIDS", ProjectEntryPath(root, n), n)]
    case Dir(n, _) => if IsSubjectName(n) then [] else [UploadDir(ProjectLevel, n, ProjectEntryPath(root, n))]
  }

  /** Resource folders ensured for an entry of a subject folder. */
  function SubjectResourceNames(e: Entry): seq<string> {
    match e
    case File(_) => ["BIDS"]
    case Dir(n, _) => if !IsDatatype(n) && !IsSessionName(n) then [n] else []
  }

  /** What an entry of a subject folder uploads: a file into the subject's BIDS, a plain directory into its own resource. */
  function SubjectUploads(root: string, subject: string, e: Entry): seq<Upload> {
    match e
    case File(n) => [UploadFile(SubjectLevel(subject), "BIDS", SubjectEntryPath(root, subject, n), n)]
    case Dir(n, _) =>
      if !IsDatatype(n) && !IsSessionName(n) then [UploadDir(SubjectLevel(subject), n, SubjectEntryPath(root, subject, n))]
      else []
  }

  /** The upload of one file of a datatype folder, if its target can be computed. */
  function FileUpload(root: string, ctx: Context, scans: seq<Scan>, name: string): seq<Upload> {
    match UploadTarget(ctx.subject, ExperimentLabel(ctx), scans, name)
    case None => []
    case Some(target) => [UploadFile(target.container, target.resource, SourcePath(root, ctx, name), name)]
  }

  /** The uploads of a datatype folder's listing, in order, all routed against the same scans. */
  function FolderUploads(root: string, ctx: Context, scans: seq<Scan>, listing: seq<Entry>): seq<Upload>
    decreases |listing|
  {
    if |listing| == 0 then []
    else FolderUploads(root, ctx, scans, listing[..|listing| - 1]) + FileUpload(root, ctx, scans, listing[|listing| - 1].name)
  }

  /** Every file of a folder has a readable scan type. */
  predicate AllTyped(listing: seq<Entry>) {
    forall j | 0 <= j < |listing| :: ScanType(listing[j].name).Some?
  }

  lemma AllTypedPrefix(listing: seq<Entry>, n: nat)
    requires n <= |listing| && AllTyped(listing)
    ensures AllTyped(listing[..n])
  {
    var prefix := listing[..n];
    forall j | 0 <= j < |prefix| ensures ScanType(prefix[j].name).Some? {
      assert prefix[j] == listing[j];
    }
  }

  /** The uploads of a listing's first i + 1 files are those of its first i files, then the next file's. */
  lemma FolderUploadsSnoc(root: string, ctx: Context, scans: seq<Scan>, listing: seq<Entry>, i: nat)
    requires i < |listing|
    ensures FolderUploads(root, ctx, scans, listing[..i + 1]) ==
      FolderUploads(root, ctx, scans, listing[..i]) + FileUpload(root, ctx, scans, listing[i].name)
  {
    assert listing[..i + 1][..i] == listing[..i];
  }

  /** A file with a readable scan type gives exactly one upload, of its own path under its own name. */
  lemma FileUploadOfTyped(root: string, ctx: Context, scans: seq<Scan>, name: string)
    requires ScanType(name).Some?
    ensures |FileUpload(root, ctx, scans, name)| == 1
    ensures FileUpload(root, ctx, scans, name)[0].UploadFile?
    ensures FileUpload(root, ctx, scans, name)[0].source == SourcePath(root, ctx, name)
    ensures FileUpload(root, ctx, scans, name)[0].remoteName == name
  {
  }

  /** Every upload of a listing is of one of its files, from its own path under its own name. */
  predicate UploadsFiles(uploads: seq<Upload>, root: string, ctx: Context, listing: seq<Entry>)
    requires |uploads| == |listing|
  {
    forall j | 0 <= j < |listing| ::
      uploads[j].UploadFile? && uploads[j].source == SourcePath(root, ctx, listing[j].name) && uploads[j].remoteName == listing[j].name
  }

  /** Uploads that match a listing's first files, followed by the one upload of its last file, match the listing. */
  lemma UploadsFilesAppend(before: seq<Upload>, last: seq<Upload>, root: string, ctx: Context, listing: seq<Entry>)
    requires |listing| > 0 && |before| == |listing| - 1 && UploadsFiles(before, root, ctx, listing[..|listing| - 1])
    requires |last| == 1 && last[0].UploadFile? && last[0].remoteName == listing[|listing| - 1].name
    requires last[0].source == SourcePath(root, ctx, listing[|listing| - 1].name)
    ensures |before + last| == |listing|
    ensures UploadsFiles(before + last, root, ctx, listing)
  {
    var all, init := before + last, listing[..|listing| - 1];
    forall j | 0 <= j < |listing|
      ensures all[j].UploadFile? && all[j].source == SourcePath(root, ctx, listing[j].name) && all[j].remoteName == listing[j].name
    {
      if j < |before| {
        assert all[j] == before[j] && listing[j] == init[j];
      } else {
        assert all[j] == last[0];
      }
    }
  }

  /** When every file is typed, each file of the folder is uploaded exactly once, in listing order. */
  lemma {:induction false} FolderUploadsOnePerFile(root: string, ctx: Context, scans: seq<Scan>, listing: seq<Entry>)
    requires AllTyped(listing)
    ensures |FolderUploads(root, ctx, scans, listing)| == |listing|
    ensures UploadsFiles(FolderUploads(root, ctx, scans, listing), root, ctx, listing)
    decreases |listing|
  {
    if |listing| > 0 {
      var n := |listing| - 1;
      AllTypedPrefix(listing, n);
      FolderUploadsOnePerFile(root, ctx, scans, listing[..n]);
      FileUploadOfTyped(root, ctx, scans, listing[n].name);
      UploadsFilesAppend(FolderUploads(root, ctx, scans, listing[..n]), FileUpload(root, ctx, scans, listing[n].name), root, ctx, listing);
    }
  }

  /* ---- the scan pass and the resource folders of the upload pass ---- */

  /**
    The scans of an experiment after the scan pass over a datatype folder: each
    file's scan find-or-create in listing order, stopping at the first file
    whose scan type cannot be read.
  */
  function FolderScans(scans: seq<Scan>, listing: seq<Entry>): seq<Scan>
    decreases |listing|
  {
    if |listing| == 0 then scans
    else match ScanType(listing[0].name)
      case None => scans
      case Some(t) => FolderScans(WithScan(scans, t, FileKind(listing[0].name)), listing[1..])
  }

  /**
    The scan pass only appends; every appended scan has the number of scans
    before it as its id; it never gives two scans one type; ids that were
    positions stay positions.
  */
  lemma {:induction false} FolderScansGrow(scans: seq<Scan>, listing: seq<Entry>)
    ensures scans <= FolderScans(scans, listing)
    ensures forall k | |scans| <= k < |FolderScans(scans, listing)| :: FolderScans(scans, listing)[k].id == k
    ensures TypesDistinct(scans) ==> TypesDistinct(FolderScans(scans, listing))
    ensures IdsArePositions(scans) ==> IdsArePositions(FolderScans(scans, listing))
    decreases |listing|
  {
    if |listing| > 0 && ScanType(listing[0].name).Some? {
      var t := ScanType(listing[0].name).value;
      var mid := WithScan(scans, t, FileKind(listing[0].name));
      WithScanSpec(scans, t, FileKind(listing[0].name));
      FolderScansGrow(mid, listing[1..]);
    }
  }

  /**
    Every scan the pass appends is for an image or a recording of the listing:
    it has that file's scan type and the kind its suffix asks for.
  */
  lemma {:induction false} FolderScansFromFiles(scans: seq<Scan>, listing: seq<Entry>)
    ensures forall k | |scans| <= k < |FolderScans(scans, listing)| :: exists j | 0 <= j < |listing| ::
      && ScanType(listing[j].name) == Some(FolderScans(scans, listing)[k].scanType)
      && FileKind(listing[j].name) == Some(FolderScans(scans, listing)[k].kind)
    decreases |listing|
  {
    if |listing| > 0 && ScanType(listing[0].name).Some? {
      var t := ScanType(listing[0].name).value;
      var mid := WithScan(scans, t, FileKind(listing[0].name));
      var r := FolderScans(scans, listing);
      assert r == FolderScans(mid, listing[1..]);
      WithScanSpec(scans, t, FileKind(listing[0].name));
      FolderScansGrow(mid, listing[1..]);
      FolderScansFromFiles(mid, listing[1..]);
      forall k | |scans| <= k < |r|
        ensures exists j | 0 <= j < |listing| :: ScanType(listing[j].name) == Some(r[k].scanType) && FileKind(listing[j].name) == Some(r[k].kind)
      {
        if k < |mid| {
          assert r[k] == mid[k] == Scan(|scans|, t, FileKind(listing[0].name).value);
          assert ScanType(listing[0].name) == Some(r[k].scanType);
        } else {
          var j :| 0 <= j < |listing[1..]| && ScanType(listing[1..][j].name) == Some(r[k].scanType)
            && FileKind(listing[1..][j].name) == Some(r[k].kind);
          assert listing[1..][j] == listing[j + 1];
        }
      }
    } else {
      assert FolderScans(scans, listing) == scans;
    }
  }

  /** The scan pass from position i on: the file at i adds its scan, or stops the pass when it has no type. */
  lemma FolderScansStep(scans: seq<Scan>, listing: seq<Entry>, i: nat)
    requires i < |listing|
    ensures ScanType(listing[i].name).None? ==> FolderScans(scans, listing[i..]) == scans
    ensures ScanType(listing[i].name).Some? ==> (FolderScans(scans, listing[i..]) ==
      FolderScans(WithScan(scans, ScanType(listing[i].name).value, FileKind(listing[i].name)), listing[i + 1..]))
  {
    assert listing[i..][0] == listing[i] && listing[i..][1..] == listing[i + 1..];
  }

  /** A pass over a listing whose files are all typed leaves a scan for every image and recording type it names. */
  lemma {:induction false} FolderScansCover(scans: seq<Scan>, listing: seq<Entry>)
    requires AllTyped(listing)
    ensures ScansCover(FolderScans(scans, listing), listing)
    decreases |listing|
  {
    if |listing| > 0 {
      var t := ScanType(listing[0].name).value;
      var mid := WithScan(scans, t, FileKind(listing[0].name));
      var tail := listing[1..];
      var r := FolderScans(mid, tail);
      assert AllTyped(tail) by {
        forall j | 0 <= j < |tail| ensures ScanType(tail[j].name).Some? {
          assert tail[j] == listing[j + 1];
        }
      }
      FolderScansCover(mid, tail);
      WithScanSpec(scans, t, FileKind(listing[0].name));
      FolderScansGrow(mid, tail);
      forall j | 0 <= j < |listing| && ScanType(listing[j].name).Some? && FileKind(listing[j].name).Some?
        ensures HasScanOfType(r, ScanType(listing[j].name).value)
      {
        if j == 0 {
          HasScanOfTypeGrows(mid, r, t);
        } else {
          assert listing[j] == tail[j - 1];
        }
      }
    }
  }

  /** A folder whose image and recording types all have scans already gets no new scan: a second pass changes nothing. */
  lemma {:induction false} FolderScansCovered(scans: seq<Scan>, listing: seq<Entry>)
    requires ScansCover(scans, listing)
    ensures FolderScans(scans, listing) == scans
    decreases |listing|
  {
    if |listing| > 0 && ScanType(listing[0].name).Some? {
      var t := ScanType(listing[0].name).value;
      assert WithScan(scans, t, FileKind(listing[0].name)) == scans;
      var tail := listing[1..];
      assert ScansCover(scans, tail) by {
        forall j | 0 <= j < |tail| && ScanType(tail[j].name).Some? && FileKind(tail[j].name).Some?
          ensures HasScanOfType(scans, ScanType(tail[j].name).value)
        {
          assert tail[j] == listing[j + 1];
        }
      }
      FolderScansCovered(scans, tail);
    }
  }

  /**
    The resource folders after the upload pass over a datatype folder: for each
    file in listing order, the find-or-create of the folder it is routed to.
  */
  function FolderResources(resources: Resources, ctx: Context, scans: seq<Scan>, listing: seq<Entry>): Resources
    decreases |listing|
  {
    if |listing| == 0 then resources
    else
      var before := FolderResources(resources, ctx, scans, listing[..|listing| - 1]);
      match UploadTarget(ctx.subject, ExperimentLabel(ctx), scans, listing[|listing| - 1].name)
      case None => before
      case Some(target) => WithResource(before, target.container, target.resource)
  }

  lemma FolderResourcesSnoc(resources: Resources, ctx: Context, scans: seq<Scan>, listing: seq<Entry>, i: nat)
    requires i < |listing|
    ensures FolderResources(resources, ctx, scans, listing[..i + 1]) ==
      match UploadTarget(ctx.subject, ExperimentLabel(ctx), scans, listing[i].name)
      case None => FolderResources(resources, ctx, scans, listing[..i])
      case Some(target) => WithResource(FolderResources(resources, ctx, scans, listing[..i]), target.container, target.resource)
  {
    assert listing[..i + 1][..i] == listing[..i];
  }

  /** The resource folders of a listing are those of its first files, then the last file's target if it has one. */
  lemma FolderResourcesLast(resources: Resources, ctx: Context, scans: seq<Scan>, listing: seq<Entry>)
    requires |listing| > 0
    ensures forall c :: (Labels(FolderResources(resources, ctx, scans, listing[..|listing| - 1]), c) <=
      Labels(FolderResources(resources, ctx, scans, listing), c))
    ensures forall c, n | n in Labels(FolderResources(resources, ctx, scans, listing), c) ::
      n in Labels(FolderResources(resources, ctx, scans, listing[..|listing| - 1]), c) ||
      UploadTarget(ctx.subject, ExperimentLabel(ctx), scans, listing[|listing| - 1].name) == Some(Target(c, n))
  {
  }

  /** Every upload of the pass goes into a resource folder that exists once the pass is over. */
  lemma {:induction false} FolderUploadsHaveResources(resources: Resources, root: string, ctx: Context, scans: seq<Scan>, listing: seq<Entry>)
    ensures forall u | u in FolderUploads(root, ctx, scans, listing) ::
      u.resource in Labels(FolderResources(resources, ctx, scans, listing), u.target)
    decreases |listing|
  {
    if |listing| > 0 {
      var n := |listing| - 1;
      FolderUploadsHaveResources(resources, root, ctx, scans, listing[..n]);
      FolderResourcesLast(resources, ctx, scans, listing);
      var all := FolderResources(resources, ctx, scans, listing);
      var before := FolderResources(resources, ctx, scans, listing[..n]);
      forall u | u in FolderUploads(root, ctx, scans, listing) ensures u.resource in Labels(all, u.target) {
        if u in FolderUploads(root, ctx, scans, listing[..n]) {
          PrefixMember(Labels(before, u.target), Labels(all, u.target), u.resource);
        }
      }
    }
  }

  /** The pass creates no resource folder other than the targets of the listing's files. */
  lemma {:induction false} FolderResourcesOnlyTargets(resources: Resources, ctx: Context, scans: seq<Scan>, listing: seq<Entry>, c: Container, n: string)
    requires n in Labels(FolderResources(resources, ctx, scans, listing), c) && n !in Labels(resources, c)
    ensures exists j | 0 <= j < |listing| :: UploadTarget(ctx.subject, ExperimentLabel(ctx), scans, listing[j].name) == Some(Target(c, n))
    decreases |listing|
  {
    var k := |listing| - 1;
    var init := listing[..k];
    FolderResourcesLast(resources, ctx, scans, listing);
    if n in Labels(FolderResources(resources, ctx, scans, init), c) {
      FolderResourcesOnlyTargets(resources, ctx, scans, init, c, n);
      var j :| 0 <= j < |init| && UploadTarget(ctx.subject, ExperimentLabel(ctx), scans, init[j].name) == Some(Target(c, n));
      assert init[j] == listing[j];
    } else {
      assert UploadTarget(ctx.subject, ExperimentLabel(ctx), scans, listing[k].name) == Some(Target(c, n));
    }
  }

  /** A name in a sequence is still there in any extension of it. */
  lemma PrefixMember(a: seq<string>, b: seq<string>, n: string)
    requires a <= b && n in a
    ensures n in b
  {
    var j :| 0 <= j < |a| && a[j] == n;
    assert b[j] == n;
  }

  /* ---- coverage: everything the tree asks for is already on the server ---- */

  /** The scans have one of each type the image and recording files of the listing need. */
  ghost predicate ScansCover(scans: seq<Scan>, listing: seq<Entry>) {
    forall j | 0 <= j < |listing| ::
      ScanType(listing[j].name).Some? && FileKind(listing[j].name).Some? ==>
        HasScanOfType(scans, ScanType(listing[j].name).value)
  }

  lemma ScansCoverGrows(a: seq<Scan>, b: seq<Scan>, listing: seq<Entry>)
    requires a <= b && ScansCover(a, listing)
    ensures ScansCover(b, listing)
  {
    forall j | 0 <= j < |listing| && ScanType(listing[j].name).Some? && FileKind(listing[j].name).Some?
      ensures HasScanOfType(b, ScanType(listing[j].name).value)
    {
      HasScanOfTypeGrows(a, b, ScanType(listing[j].name).value);
    }
  }

  /** The experiment of a datatype folder exists and has a scan of each type its image and recording files need. */
  ghost predicate FolderCovered(subjects: Subjects, ctx: Context, folder: Entry) {
    var exp := ExperimentLabel(ctx);
    && ctx.subject in subjects
    && exp in subjects[ctx.subject]
    && ScansCover(subjects[ctx.subject][exp].scans, Listing(folder))
  }

  /** A datatype folder directly in the subject folder, or each datatype folder in a session folder, is covered. */
  ghost predicate SubjectEntryCovered(subjects: Subjects, subject: string, e: Entry) {
    if !IsSessionName(e.name) then
      IsDatatype(e.name) ==> FolderCovered(subjects, Context(subject, None, e.name), e)
    else
      forall d | d in Listing(e) :: IsDatatype(d.name) ==> FolderCovered(subjects, Context(subject, Some(e.name), d.name), d)
  }

  ghost predicate SubjectCovered(subjects: Subjects, e: Entry) {
    e.name in subjects && forall c | c in Listing(e) :: SubjectEntryCovered(subjects, e.name, c)
  }

  /** Every subject folder of the tree is covered. */
  ghost predicate TreeCovered(subjects: Subjects, tree: seq<Entry>) {
    forall e | e in tree :: e.Dir? && IsSubjectName(e.name) ==> SubjectCovered(subjects, e)
  }

  lemma FolderCoveredGrows(a: Subjects, b: Subjects, ctx: Context, folder: Entry)
    requires Extends(a, b) && FolderCovered(a, ctx, folder)
    ensures FolderCovered(b, ctx, folder)
  {
    var exp := ExperimentLabel(ctx);
    ScansCoverGrows(a[ctx.subject][exp].scans, b[ctx.subject][exp].scans, Listing(folder));
  }

  lemma SubjectEntryCoveredGrows(a: Subjects, b: Subjects, subject: string, e: Entry)
    requires Extends(a, b) && SubjectEntryCovered(a, subject, e)
    ensures SubjectEntryCovered(b, subject, e)
  {
    if !IsSessionName(e.name) {
      if IsDatatype(e.name) {
        FolderCoveredGrows(a, b, Context(subject, None, e.name), e);
      }
    } else {
      forall d | d in Listing(e) && IsDatatype(d.name)
        ensures FolderCovered(b, Context(subject, Some(e.name), d.name), d)
      {
        FolderCoveredGrows(a, b, Context(subject, Some(e.name), d.name), d);
      }
    }
  }

  lemma SubjectCoveredGrows(a: Subjects, b: Subjects, e: Entry)
    requires Extends(a, b) && SubjectCovered(a, e)
    ensures SubjectCovered(b, e)
  {
    forall c | c in Listing(e) ensures SubjectEntryCovered(b, e.name, c) {
      SubjectEntryCoveredGrows(a, b, e.name, c);
    }
  }

  /** Coverage survives growth: once the server has everything, more containers do not undo it. */
  lemma TreeCoveredGrows(a: Subjects, b: Subjects, tree: seq<Entry>)
    requires Extends(a, b) && TreeCovered(a, tree)
    ensures TreeCovered(b, tree)
  {
    forall e | e in tree && e.Dir? && IsSubjectName(e.name) ensures SubjectCovered(b, e) {
      SubjectCoveredGrows(a, b, e);
    }
  }

  /** The labels of the top-level subject folders. */
  function SubjectFolderNames(tree: seq<Entry>): set<string> {
    set e | e in tree && e.Dir? && IsSubjectName(e.name) :: e.name
  }

  /** Whether the tree has a subject folder at top level (the script's pre-flight check). */
  predicate HasSubjectFolder(tree: seq<Entry>) {
    exists e | e in tree :: e.Dir? && IsSubjectName(e.name)
  }
}
